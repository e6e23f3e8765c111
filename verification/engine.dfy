/**
 * The rate-plan checker's entry point (lib/engine.js): `run` validates the
 * job and every RatePlan of the message, then, for each RatePlan and each
 * room type (InvTypeCode) it prices, screens the stay against the
 * inventory occupancy, the first Offer and the BookingRules, and prices
 * it from the Rates and the mandatory Supplements. The result maps each
 * room type to the cost of the stay, a later RatePlan overwriting an
 * earlier one.
 */
module Engine {
  import opened Wrappers
  import opened Errors
  import opened Dates
  import opened Tree
  import opened StayRules
  import opened Discounts
  import Rates
  import Rules
  import Supplements
  import Guests
  import Pricing
  import Jobs

  /** Why a room type is skipped: the reason the trace prints before "skipping". */
  datatype Skip =
    | NoInventory
    | TooFewGuests
    | TooManyGuests
    | ChildrenNotAllowed
    | ChildCountsAsAdult
    | ChildAgeOutside
    | TooFewAdults
    | TooManyAdults
    | TooFewChildren
    | TooManyChildren
    | ByOffer(offer: OfferBlock)
    | ByRules(rule: RuleBlock)
    | Unmatched(date: Date, miss: Pricing.Miss)

  /** find_offerrule_restrictions' reasons. */
  datatype OfferBlock = OfferLosBelow(los: int) | OfferLosAbove(los: int) | ArrivalDowForbidden | DepartureDowForbidden

  /** find_restrictions' reasons. */
  datatype RuleBlock =
    | ClosedOn(date: Date)
    | RuleDepartureDow
    | RuleArrivalDow
    | LosBelowMin(los: int, min: nat)
    | LosAboveMax(los: int, max: nat)

  // ------------------------------------------------------------ screening

  /** Step 1: the party fits the room's inventory occupancy. */
  predicate OccupancyFits(total: nat, io: Guests.InvOcc) {
    io.min <= total <= io.max
  }

  /**
   * Step 1b, ages: without an adult MinAge every guest is an adult, so no
   * child may come; otherwise every child is younger than it, and within
   * the child age bracket MinAge <= age < MaxAge of the first Offer.
   */
  predicate AgesFit(children: seq<nat>, r: Restrictions) {
    (r.adultMinAge.None? ==> |children| == 0) &&
    forall k :: 0 <= k < |children| ==>
      (r.adultMinAge.Some? ==> children[k] < r.adultMinAge.value) &&
      (r.childMinAge.Some? ==> children[k] >= r.childMinAge.value) &&
      (r.childMaxAge.Some? ==> children[k] < r.childMaxAge.value)
  }

  /** Step 1b, counts: the numbers of adults and children within the first Offer's occupancy bounds. */
  predicate CountsFit(adults: nat, kids: nat, r: Restrictions) {
    (r.adultMinOcc.Some? ==> adults >= r.adultMinOcc.value) &&
    (r.adultMaxOcc.Some? ==> adults <= r.adultMaxOcc.value) &&
    (r.childMinOcc.Some? ==> kids >= r.childMinOcc.value) &&
    (r.childMaxOcc.Some? ==> kids <= r.childMaxOcc.value)
  }

  /** The age falls outside the first Offer's child bracket MinAge <= age < MaxAge. */
  predicate OutsideChildBracket(age: nat, r: Restrictions) {
    (r.childMinAge.Some? && age < r.childMinAge.value) || (r.childMaxAge.Some? && age >= r.childMaxAge.value)
  }

  predicate Admits(adults: nat, children: seq<nat>, io: Guests.InvOcc, r: Restrictions) {
    OccupancyFits(adults + |children|, io) && AgesFit(children, r) && CountsFit(adults, |children|, r)
  }

  /** Steps 1 and 1b on the guests as the job gives them, in the order engine.js checks them. */
  function Screen(adults: nat, children: seq<nat>, io: Guests.InvOcc, r: Restrictions): (s: Option<Skip>)
    ensures s.None? <==> Admits(adults, children, io, r)
    ensures adults + |children| < io.min ==> s == Some(TooFewGuests)
    ensures OccupancyFits(adults + |children|, io) && !AgesFit(children, r) ==>
      s.Some? && (s.value.ChildrenNotAllowed? || s.value.ChildCountsAsAdult? || s.value.ChildAgeOutside?)
  {
    var total := adults + |children|;
    if total < io.min then Some(TooFewGuests)
    else if total > io.max then Some(TooManyGuests)
    else if r.adultMinAge.None? && |children| != 0 then Some(ChildrenNotAllowed)
    else if r.adultMinAge.Some? && exists k :: 0 <= k < |children| && children[k] >= r.adultMinAge.value then
      Some(ChildCountsAsAdult)
    else if exists k :: 0 <= k < |children| && OutsideChildBracket(children[k], r) then
      Some(ChildAgeOutside)
    else if r.adultMinOcc.Some? && adults < r.adultMinOcc.value then Some(TooFewAdults)
    else if r.adultMaxOcc.Some? && adults > r.adultMaxOcc.value then Some(TooManyAdults)
    else if r.childMinOcc.Some? && |children| < r.childMinOcc.value then Some(TooFewChildren)
    else if r.childMaxOcc.Some? && |children| > r.childMaxOcc.value then Some(TooManyChildren)
    else None
  }

  /** find_offerrule_restrictions: the first Offer's length of stay and arrival and departure weekdays. */
  function OfferRuleBlock(arr: Date, dep: Date, r: Restrictions): (b: Option<OfferBlock>)
    requires Valid(arr) && Valid(dep)
    ensures b.None? <==>
      LosAllows(r.los, Diff(arr, dep)) && MaskAllows(r.arrivalDow, Dow(arr)) && MaskAllows(r.departureDow, Dow(dep))
    ensures b.Some? && b.value.OfferLosBelow? ==> b.value.los == Diff(arr, dep) && !LosAllows(r.los, Diff(arr, dep))
  {
    var n := Diff(arr, dep);
    if r.los.min.Some? && n < r.los.min.value then Some(OfferLosBelow(n))
    else if r.los.max.Some? && n > r.los.max.value then Some(OfferLosAbove(n))
    else if !MaskAllows(r.arrivalDow, Dow(arr)) then Some(ArrivalDowForbidden)
    else if !MaskAllows(r.departureDow, Dow(dep)) then Some(DepartureDowForbidden)
    else None
  }

  /**
   * On the calendar, the first Offer's weekday masks are read at the true
   * weekdays of arrival and departure, except that a Saturday on which
   * date_dow yields -1 is always refused.
   */
  lemma OfferRuleWeekdays(arr: Date, dep: Date, r: Restrictions)
    requires Valid(arr) && Valid(dep) && RestrictionsOk(r)
    ensures OfferRuleBlock(arr, dep, r).None? ==> r.arrivalDow[Weekday(arr)] && r.departureDow[Weekday(dep)]
    ensures Dow(arr) == -1 || Dow(dep) == -1 ==> OfferRuleBlock(arr, dep, r).Some?
    ensures (LosAllows(r.los, Diff(arr, dep)) && Dow(arr) != -1 && Dow(dep) != -1 &&
      r.arrivalDow[Weekday(arr)] && r.departureDow[Weekday(dep)]) ==> OfferRuleBlock(arr, dep, r).None?
  {
    MaskAllowsWeekday(r.arrivalDow, arr);
    MaskAllowsWeekday(r.departureDow, dep);
  }

  // ------------------------------------------------------- booking rules

  predicate RulesOk(rules: seq<Rules.BookingRule>) {
    forall i :: 0 <= i < |rules| ==> Rules.RuleOk(rules[i])
  }

  predicate RuleCovers(b: Rules.BookingRule, d: Date)
    requires Rules.RuleOk(b) && Valid(d)
  {
    Between(b.start, b.end, d)
  }

  /** Some rule that covers `d` has a status other than Open. */
  predicate IsClosed(rules: seq<Rules.BookingRule>, d: Date)
    requires RulesOk(rules) && Valid(d)
  {
    exists i :: 0 <= i < |rules| && RuleCovers(rules[i], d) && !rules[i].open
  }

  /** The rule admits the departure weekday if it covers departure, and the arrival weekday and the length of stay if it covers arrival. */
  predicate RuleAllows(b: Rules.BookingRule, arr: Date, dep: Date)
    requires Rules.RuleOk(b) && Valid(arr) && Valid(dep)
  {
    (RuleCovers(b, dep) ==> MaskAllows(b.departureDow, Dow(dep))) &&
    (RuleCovers(b, arr) ==> MaskAllows(b.arrivalDow, Dow(arr)) && LosAllows(b.los, Diff(arr, dep)))
  }

  /** The night `d` belongs to the stay from `dt` to `dep`. */
  predicate InStay(dt: Date, dep: Date, d: Date)
    requires Valid(dt) && Valid(dep) && Valid(d)
  {
    Diff(dt, d) >= 0 && Diff(d, dep) > 0
  }

  /** The stay passes the BookingRules: no night closed, and every rule admits it. */
  ghost predicate StayAllowed(rules: seq<Rules.BookingRule>, arr: Date, dep: Date)
    requires RulesOk(rules) && Valid(arr) && Valid(dep)
  {
    (forall d :: Valid(d) && InStay(arr, dep, d) ==> !IsClosed(rules, d)) &&
    (forall i :: 0 <= i < |rules| ==> RuleAllows(rules[i], arr, dep))
  }

  /** The first loop of find_restrictions: the first night from `dt` on that a rule closes. */
  function ClosedDay(rules: seq<Rules.BookingRule>, dt: Date, dep: Date): (c: Option<Date>)
    requires RulesOk(rules) && Valid(dt) && Valid(dep)
    decreases Diff(dt, dep)
  {
    if Diff(dt, dep) <= 0 then None
    else if IsClosed(rules, dt) then Some(dt)
    else ClosedDay(rules, Pricing.Advance(dt, 1, dep), dep)
  }

  /** A night ClosedDay finds lies in the stay, is closed, and no earlier night of the stay is. */
  lemma {:induction false} ClosedDayFirst(rules: seq<Rules.BookingRule>, dt: Date, dep: Date)
    requires RulesOk(rules) && Valid(dt) && Valid(dep)
    ensures var c := ClosedDay(rules, dt, dep);
      c.Some? ==> (Valid(c.value) && InStay(dt, dep, c.value) && IsClosed(rules, c.value) &&
        forall d :: Valid(d) && InStay(dt, c.value, d) ==> !IsClosed(rules, d))
    decreases Diff(dt, dep)
  {
    if Diff(dt, dep) > 0 && !IsClosed(rules, dt) {
      var next := Pricing.Advance(dt, 1, dep);
      ClosedDayFirst(rules, next, dep);
      var c := ClosedDay(rules, dt, dep);
      if c.Some? {
        forall d | Valid(d) && InStay(dt, c.value, d)
          ensures !IsClosed(rules, d)
        {
          if d != dt {
            DayNumberOrder(d, dt);
            assert InStay(next, c.value, d);
          }
        }
      }
    }
  }

  /** ClosedDay finds no night exactly when every night of the stay is open. */
  lemma {:induction false} ClosedDayNone(rules: seq<Rules.BookingRule>, dt: Date, dep: Date)
    requires RulesOk(rules) && Valid(dt) && Valid(dep)
    ensures ClosedDay(rules, dt, dep).None? <==> forall d :: Valid(d) && InStay(dt, dep, d) ==> !IsClosed(rules, d)
    decreases Diff(dt, dep)
  {
    if Diff(dt, dep) <= 0 {
      assert forall d :: Valid(d) && InStay(dt, dep, d) ==> false;
    } else if IsClosed(rules, dt) {
      assert InStay(dt, dep, dt);
    } else {
      var next := Pricing.Advance(dt, 1, dep);
      ClosedDayNone(rules, next, dep);
      forall d | Valid(d) && Diff(dt, d) >= 0 && d != dt
        ensures Diff(next, d) >= 0
      {
        DayNumberOrder(d, dt);
      }
    }
  }

  /** The verdict of one rule in the second loop of find_restrictions. */
  function RuleVerdict(b: Rules.BookingRule, arr: Date, dep: Date): (v: Option<RuleBlock>)
    requires Rules.RuleOk(b) && Valid(arr) && Valid(dep)
    ensures v.None? <==> RuleAllows(b, arr, dep)
  {
    var n := Diff(arr, dep);
    if RuleCovers(b, dep) && !MaskAllows(b.departureDow, Dow(dep)) then Some(RuleDepartureDow)
    else if RuleCovers(b, arr) && !MaskAllows(b.arrivalDow, Dow(arr)) then Some(RuleArrivalDow)
    else if RuleCovers(b, arr) && b.los.min.Some? && n < b.los.min.value then Some(LosBelowMin(n, b.los.min.value))
    else if RuleCovers(b, arr) && b.los.max.Some? && n > b.los.max.value then Some(LosAboveMax(n, b.los.max.value))
    else None
  }

  /** The second loop of find_restrictions: the verdict of the first rule that refuses the stay. */
  function DowLosBlock(rules: seq<Rules.BookingRule>, arr: Date, dep: Date): (v: Option<RuleBlock>)
    requires RulesOk(rules) && Valid(arr) && Valid(dep)
    ensures v.None? <==> forall i :: 0 <= i < |rules| ==> RuleAllows(rules[i], arr, dep)
  {
    if |rules| == 0 then None
    else
      assert forall i :: 1 <= i < |rules| ==> rules[i] == rules[1..][i - 1];
      var v := RuleVerdict(rules[0], arr, dep);
      if v.Some? then v else DowLosBlock(rules[1..], arr, dep)
  }

  /**
   * The third loop of find_restrictions, which would check the forward
   * minimum and maximum stay on every day up to and including departure.
   * No rule carries those bounds, so only its stepping is left: date_add
   * of the departure day, which throws past 9999-12-31.
   */
  function ForwardWalk(dt: Date, dep: Date): (r: Outcome)
    requires Valid(dt) && Valid(dep) && Diff(dt, dep) >= 0
    ensures r.Pass? <==> dep != MaxDate
    ensures r.Fail? ==> r.error == DateErr(OutOfRange)
    decreases Diff(dt, dep)
  {
    var next := AddDays(dt, 1);
    MinMaxBound(dep);
    DayNumberOrder(dep, MaxDate);
    if next.Err? then Fail(next.error)
    else if Diff(next.value, dep) >= 0 then ForwardWalk(next.value, dep)
    else
      DayNumberOrder(dt, dep);
      Pass
  }

  /** The rules that apply to a room type: those with its Code, then the generic ones. */
  function LoadRules(plan: Element, code: string): (r: Result<seq<Rules.BookingRule>>)
    ensures r.Ok? ==> RulesOk(r.value)
    ensures r.Ok? ==> Rules.FindRulesByCode(plan, Some(code)).Ok? && Rules.FindRulesByCode(plan, None).Ok?
  {
    var specific :- Rules.FindRulesByCode(plan, Some(code));
    var s :- Rules.GetRules(specific);
    var generic :- Rules.FindRulesByCode(plan, None);
    var g :- Rules.GetRules(generic);
    Ok(s + g)
  }

  /**
   * The three loops of find_restrictions over the rules of a room type:
   * None when they allow the stay, else the first reason they refuse it.
   */
  function RulesVerdict(rules: seq<Rules.BookingRule>, arr: Date, dep: Date): (r: Result<Option<RuleBlock>>)
    requires RulesOk(rules) && Valid(arr) && Valid(dep) && Diff(arr, dep) >= 1
    ensures r == Ok(None) <==> StayAllowed(rules, arr, dep) && dep != MaxDate
    ensures r.Err? ==> dep == MaxDate && r.error == DateErr(OutOfRange)
    ensures r.Ok? && r.value.Some? ==> !StayAllowed(rules, arr, dep)
  {
    ClosedDayNone(rules, arr, dep);
    var closed := ClosedDay(rules, arr, dep);
    if closed.Some? then Ok(Some(ClosedOn(closed.value)))
    else
      var block := DowLosBlock(rules, arr, dep);
      if block.Some? then Ok(block)
      else
        var fwd := ForwardWalk(arr, dep);
        if fwd.Fail? then Err(fwd.error) else Ok(None)
  }

  /**
   * find_restrictions: the rules of the room type, loaded as engine.js
   * loads them (a malformed rule throws), then their verdict on the stay.
   */
  function FindRestrictions(plan: Element, code: string, arr: Date, dep: Date): (r: Result<Option<RuleBlock>>)
    requires Valid(arr) && Valid(dep) && Diff(arr, dep) >= 1
    ensures LoadRules(plan, code).Err? ==> r == Err(LoadRules(plan, code).error)
    ensures LoadRules(plan, code).Ok? ==>
      (r == Ok(None) <==> StayAllowed(LoadRules(plan, code).value, arr, dep) && dep != MaxDate)
    ensures r.Err? && LoadRules(plan, code).Ok? ==> dep == MaxDate && r.error == DateErr(OutOfRange)
  {
    var rules :- LoadRules(plan, code);
    RulesVerdict(rules, arr, dep)
  }

  // -------------------------------------------------------------- pricing

  lemma PrefixSubset(s: seq<nat>, n: nat)
    requires n <= |s|
    ensures multiset(s[..n]) <= multiset(s) && multiset(s[n..]) <= multiset(s)
  {
    assert s == s[..n] + s[n..];
  }

  /**
   * The party of steps 2 and 3 stated without their loops: the oldest
   * min(#children, fpn - adults) children count as adults, and under a
   * family offer the first num_applied of the remaining sorted children,
   * min(qualifying, FreeCount) when the offer applies, stay free.
   */
  predicate PartyFrom(adults: nat, children: seq<nat>, fpn: nat, family: Option<Family>, p: Pricing.Party) {
    var promoted := Guests.PromotedCount(adults, |children|, fpn);
    var rest := Guests.SortAges(children)[..|children| - promoted];
    && p.adults == adults + promoted
    && (family.None? ==> p.freeKids == 0 && p.children == rest)
    && (family.Some? ==>
          var k := Guests.CountBelow(rest, family.value.maxAge);
          && p.freeKids == (if k >= 1 && k >= family.value.minCount then Pricing.Min(k, family.value.freeCount) else 0)
          && p.freeKids <= |rest| && p.children == rest[p.freeKids..])
  }

  /** Step 2 alone, on the children sorted by age: the effective adults and the children left. */
  function PromotedGuests(adults: nat, sorted: seq<nat>, fpn: nat): (r: (nat, seq<nat>))
    ensures var n := Guests.PromotedCount(adults, |sorted|, fpn);
      r == (adults + n, sorted[..|sorted| - n])
  {
    Guests.PromoteCount(adults, sorted, fpn);
    Guests.Promote(adults, sorted, fpn)
  }

  /** Step 3 alone, on the sorted children left after promotion. */
  function FamilyParty(adults: nat, rest: seq<nat>, family: Option<Family>): (p: Pricing.Party)
    requires Guests.Sorted(rest)
    ensures p.adults == adults && p.freeKids <= |rest| && p.children == rest[p.freeKids..]
    ensures family.None? ==> p.freeKids == 0
    ensures family.Some? ==>
      var k := Guests.CountBelow(rest, family.value.maxAge);
      p.freeKids == (if k >= 1 && k >= family.value.minCount then Pricing.Min(k, family.value.freeCount) else 0)
    ensures Guests.Sorted(p.children) && multiset(p.children) <= multiset(rest)
  {
    if family.None? then Pricing.Party(adults, rest, 0)
    else
      var fam := Guests.FamilyStep(rest, family.value);
      Guests.FamilyDropsYoungest(rest, family.value);
      PrefixSubset(rest, fam.1);
      Pricing.Party(adults, fam.0, fam.1)
  }

  /**
   * Steps 2 and 3: the children sorted by age, the oldest promoted until
   * `fpn` guests pay the full rate, and under a family offer the youngest
   * qualifying ones removed and counted as free.
   */
  function EffectiveParty(adults: nat, children: seq<nat>, fpn: nat, family: Option<Family>): (p: Pricing.Party)
    ensures PartyFrom(adults, children, fpn, family, p)
    ensures Guests.Sorted(p.children)
    ensures p.adults + |p.children| + p.freeKids == adults + |children|
    ensures p.adults >= adults && (p.adults > adults ==> p.adults <= fpn)
    ensures multiset(p.children) <= multiset(children)
    ensures family.None? ==> p.freeKids == 0
  {
    var sorted := Guests.SortAges(children);
    var promoted := PromotedGuests(adults, sorted, fpn);
    Guests.SortedPrefix(sorted, |promoted.1|);
    PrefixSubset(sorted, |promoted.1|);
    FamilyParty(promoted.0, promoted.1, family)
  }

  /** The Rates of a room type, as match_rates reads them. */
  function LoadRates(plan: Element, code: string): (r: Result<seq<Rates.Rate>>)
    ensures r.Ok? ==> Pricing.RatesShaped(r.value)
    ensures r.Ok? ==> Rates.GetStaticData(plan).Ok? && Rates.FindRatesByCode(plan, code).Ok?
  {
    var sd :- Rates.GetStaticData(plan);
    var list :- Rates.FindRatesByCode(plan, code);
    var rates :- Rates.GetRates(list, sd);
    Ok(rates)
  }

  predicate OnCentGrid(x: real) {
    (x * 100.0).Floor as real == x * 100.0
  }

  datatype RoomOutcome = Quoted(amount: real) | Skipped(reason: Skip)

  /** The party the Rates are matched with. */
  function PartyOf(job: Jobs.Job, io: Guests.InvOcc, discount: Discount): (p: Pricing.Party)
    requires Guests.InvOccOk(io)
    ensures PartyFrom(job.adults, job.children, Guests.FullPayersNeeded(io), discount.family, p)
    ensures Guests.Sorted(p.children)
  {
    EffectiveParty(job.adults, job.children, Guests.FullPayersNeeded(io), discount.family)
  }

  /** Steps 0 to 1b: the room type has an occupancy row, and the guests and the stay pass the first Offer. */
  function Gate(job: Jobs.Job, code: string, discount: Discount): (s: Option<Skip>)
    requires Jobs.JobShaped(job)
    ensures s.None? <==> (code in job.invOcc &&
      Admits(job.adults, job.children, job.invOcc[code], discount.restrictions) &&
      OfferRuleBlock(job.arrival, job.departure, discount.restrictions).None?)
    ensures code !in job.invOcc ==> s == Some(NoInventory)
  {
    if code !in job.invOcc then Some(NoInventory)
    else
      var screen := Screen(job.adults, job.children, job.invOcc[code], discount.restrictions);
      if screen.Some? then screen
      else
        var offer := OfferRuleBlock(job.arrival, job.departure, discount.restrictions);
        if offer.Some? then Some(ByOffer(offer.value)) else None
  }

  /**
   * Step 4b once the Rates are matched: an unmatched night skips the room
   * type; otherwise the mandatory Supplements are priced over the nights
   * the match left paid, and the stay costs the Rates' total plus theirs,
   * rounded to cents; a Supplement that cannot be priced is thrown.
   */
  function QuoteMatch(m: Pricing.RateMatch, supps: Result<seq<Result<Supplements.Merged>>>, code: string, pax: nat,
                      arr: Date, dep: Date): (r: Result<RoomOutcome>)
    requires Valid(arr) && Valid(dep) && Diff(arr, dep) >= 1 && (supps.Ok? ==> Pricing.GroupsOk(supps.value))
    ensures m.NoMatch? ==> r == Ok(Skipped(Unmatched(m.date, m.miss)))
    ensures m.Matched? ==>
      var s := Pricing.SuppCharges(supps, code, m.free, pax, arr, dep);
      && (s.Ok? ==> r == Ok(Quoted(Pricing.Round2(m.total + s.value))))
      && (s.Err? ==> r == Err(s.error))
    ensures r.Ok? && r.value.Quoted? ==>
      var s := Pricing.SuppCharges(supps, code, m.free, pax, arr, dep);
      m.Matched? && s.Ok? && OnCentGrid(r.value.amount) &&
      -0.005 <= r.value.amount - (m.total + s.value) <= 0.005
  {
    if m.NoMatch? then Ok(Skipped(Unmatched(m.date, m.miss)))
    else
      var s := Pricing.SuppCharges(supps, code, m.free, pax, arr, dep);
      if s.Err? then Err(s.error) else Ok(Quoted(Pricing.Round2(m.total + s.value)))
  }

  /**
   * Step 4b: the cost of the stay from the room type's Rates and the
   * mandatory Supplements, rounded to cents; Skipped when some night has
   * no Rate that prices it.
   */
  function QuoteRates(rates: seq<Rates.Rate>, supps: Result<seq<Result<Supplements.Merged>>>, code: string,
                      party: Pricing.Party, std: nat, free: Option<FreeNights>, arr: Date, dep: Date): (r: Result<RoomOutcome>)
    requires Pricing.RatesShaped(rates) && Valid(arr) && Valid(dep) && Diff(arr, dep) >= 1
    requires Guests.Sorted(party.children) && (supps.Ok? ==> Pricing.GroupsOk(supps.value))
    ensures Pricing.MatchRates(rates, party, std, free, arr, dep).NoMatch? ==> r.Ok? && r.value.Skipped?
    ensures r.Ok? && r.value.Quoted? ==>
      var m := Pricing.MatchRates(rates, party, std, free, arr, dep);
      var s := Pricing.SuppCharges(supps, code, m.free, party.adults + |party.children|, arr, dep);
      m.Matched? && s.Ok? && OnCentGrid(r.value.amount) &&
      -0.005 <= r.value.amount - (m.total + s.value) <= 0.005
    ensures Pricing.MatchRates(rates, party, std, free, arr, dep).Matched? ==>
      var m := Pricing.MatchRates(rates, party, std, free, arr, dep);
      var s := Pricing.SuppCharges(supps, code, m.free, party.adults + |party.children|, arr, dep);
      && (s.Ok? ==> r.Ok? && r.value.Quoted?)
      && (s.Err? ==> r == Err(s.error))
  {
    QuoteMatch(Pricing.MatchRates(rates, party, std, free, arr, dep), supps, code, party.adults + |party.children|, arr, dep)
  }

  /**
   * What the matching pass reads for one room type, loaded up front: its
   * BookingRules and its Rates, each with the error loading it throws.
   */
  datatype RoomLoad = RoomLoad(rules: Result<seq<Rules.BookingRule>>, rates: Result<seq<Rates.Rate>>)

  predicate RoomLoadOk(l: RoomLoad) {
    (l.rules.Ok? ==> RulesOk(l.rules.value)) && (l.rates.Ok? ==> Pricing.RatesShaped(l.rates.value))
  }

  function LoadRoom(plan: Element, code: string): (l: RoomLoad)
    ensures RoomLoadOk(l)
    ensures l.rules == LoadRules(plan, code) && l.rates == LoadRates(plan, code)
  {
    RoomLoad(LoadRules(plan, code), LoadRates(plan, code))
  }

  /**
   * One pass of the loop over the InvTypeCodes of a RatePlan: the cost of
   * the stay in room type `code`, or why it is skipped. The rules are read
   * only once the gate is passed, and the Rates only once the rules allow
   * the stay, so a load error surfaces exactly where engine.js meets it.
   */
  function PriceRoom(job: Jobs.Job, code: string, room: RoomLoad, supps: Result<seq<Result<Supplements.Merged>>>,
                     discount: Discount): (r: Result<RoomOutcome>)
    requires Jobs.JobShaped(job) && RoomLoadOk(room) && (supps.Ok? ==> Pricing.GroupsOk(supps.value))
    ensures Gate(job, code, discount).Some? ==> r == Ok(Skipped(Gate(job, code, discount).value))
    ensures Gate(job, code, discount).None? && room.rules.Err? ==> r == Err(room.rules.error)
    ensures r.Ok? && r.value.Quoted? ==>
      Gate(job, code, discount).None? && room.rules.Ok? && room.rates.Ok? &&
      StayAllowed(room.rules.value, job.arrival, job.departure) && OnCentGrid(r.value.amount)
    ensures (Gate(job, code, discount).None? && room.rules.Ok? && room.rates.Ok? &&
      StayAllowed(room.rules.value, job.arrival, job.departure) && job.departure != MaxDate) ==>
      var io := job.invOcc[code];
      r == QuoteRates(room.rates.value, supps, code, PartyOf(job, io, discount), io.std, discount.freeNights,
                      job.arrival, job.departure)
    ensures Gate(job, code, discount).None? && room.rules.Ok? ==>
      var v := RulesVerdict(room.rules.value, job.arrival, job.departure);
      && (v.Err? ==> r == Err(v.error))
      && (v.Ok? && v.value.Some? ==> r == Ok(Skipped(ByRules(v.value.value))))
      && (v.Ok? && v.value.None? && room.rates.Err? ==> r == Err(room.rates.error))
  {
    var gate := Gate(job, code, discount);
    if gate.Some? then Ok(Skipped(gate.value))
    else
      var rules :- room.rules;
      var block :- RulesVerdict(rules, job.arrival, job.departure);
      if block.Some? then Ok(Skipped(ByRules(block.value)))
      else
        var rates :- room.rates;
        var io := job.invOcc[code];
        QuoteRates(rates, supps, code, PartyOf(job, io, discount), io.std, discount.freeNights, job.arrival, job.departure)
  }

  type Quote = (string, RoomOutcome)

  /** Every quoted room type has an inventory occupancy row and a price in whole cents. */
  predicate QuotesSound(keys: set<string>, qs: seq<Quote>) {
    forall q :: q in qs && q.1.Quoted? ==> q.0 in keys && OnCentGrid(q.1.amount)
  }

  /** What the matching pass reads of one validated RatePlan: its Offers, its room types with their loads, and its Supplements. */
  datatype PlanData = PlanData(discount: Discount, codes: seq<string>, rooms: seq<RoomLoad>,
                               supps: Result<seq<Result<Supplements.Merged>>>)

  predicate PlanDataOk(d: PlanData) {
    |d.rooms| == |d.codes| && (forall i :: 0 <= i < |d.rooms| ==> RoomLoadOk(d.rooms[i])) &&
    (d.supps.Ok? ==> Pricing.GroupsOk(d.supps.value))
  }

  /** The loads of a RatePlan whose rate codes are known, each room type's in code order. */
  function LoadPlan(plan: Element, discount: Discount): (d: PlanData)
    requires Rates.GetUniqueRateCodes(plan).Ok?
    ensures PlanDataOk(d) && d.discount == discount && d.codes == Rates.GetUniqueRateCodes(plan).value
    ensures forall i :: 0 <= i < |d.rooms| ==>
      d.rooms[i].rules == LoadRules(plan, d.codes[i]) && d.rooms[i].rates == LoadRates(plan, d.codes[i])
    ensures d.supps == Pricing.LoadSupps(plan)
  {
    var codes := Rates.GetUniqueRateCodes(plan).value;
    PlanData(discount, codes, seq(|codes|, i requires 0 <= i < |codes| => LoadRoom(plan, codes[i])), Pricing.LoadSupps(plan))
  }

  /** One pass of the room-type loop, paired with its InvTypeCode. */
  function QuoteRoom(job: Jobs.Job, d: PlanData, i: nat): (r: Result<Quote>)
    requires Jobs.JobShaped(job) && PlanDataOk(d) && i < |d.codes|
    ensures r.Ok? ==> r.value.0 == d.codes[i] && (r.value.1.Quoted? ==> r.value.0 in job.invOcc && OnCentGrid(r.value.1.amount))
  {
    var out :- PriceRoom(job, d.codes[i], d.rooms[i], d.supps, d.discount);
    Ok((d.codes[i], out))
  }

  function RoomQuotes(job: Jobs.Job, d: PlanData): (rs: seq<Result<Quote>>)
    requires Jobs.JobShaped(job) && PlanDataOk(d)
    ensures |rs| == |d.codes| && forall i :: 0 <= i < |rs| ==> rs[i] == QuoteRoom(job, d, i)
  {
    seq(|d.codes|, i requires 0 <= i < |d.codes| => QuoteRoom(job, d, i))
  }

  /**
   * The loop over the InvTypeCodes of one RatePlan: the outcome of every
   * room type, in order, each paired with its code; the first room type
   * whose pricing throws ends the pass with that error.
   */
  function PlanQuotes(job: Jobs.Job, d: PlanData): (r: Result<seq<Quote>>)
    requires Jobs.JobShaped(job) && PlanDataOk(d)
    ensures r.Ok? ==> |r.value| == |d.codes| && QuotesSound(job.invOcc.Keys, r.value)
    ensures r.Ok? ==> forall i :: 0 <= i < |d.codes| ==> r.value[i].0 == d.codes[i]
  {
    var rs := RoomQuotes(job, d);
    var r := Collect(rs);
    assert r.Ok? ==> forall q :: q in r.value ==> exists i :: 0 <= i < |rs| && q == rs[i].value;
    r
  }

  /** The pass over a RatePlan's room types succeeds exactly when no room type's pricing throws, and then pairs each code with its outcome. */
  lemma PlanQuotesPointwise(job: Jobs.Job, d: PlanData)
    requires Jobs.JobShaped(job) && PlanDataOk(d)
    ensures PlanQuotes(job, d).Ok? <==>
      forall i :: 0 <= i < |d.codes| ==> PriceRoom(job, d.codes[i], d.rooms[i], d.supps, d.discount).Ok?
    ensures PlanQuotes(job, d).Ok? ==> forall i :: 0 <= i < |d.codes| ==>
      PlanQuotes(job, d).value[i] == (d.codes[i], PriceRoom(job, d.codes[i], d.rooms[i], d.supps, d.discount).value)
  {
    var rs := RoomQuotes(job, d);
    assert forall i :: 0 <= i < |d.codes| ==> (rs[i].Ok? <==> PriceRoom(job, d.codes[i], d.rooms[i], d.supps, d.discount).Ok?);
  }

  /** A pass that throws fails with the error of the first room type whose pricing throws. */
  lemma PlanQuotesFirstErr(job: Jobs.Job, d: PlanData)
    requires Jobs.JobShaped(job) && PlanDataOk(d)
    ensures PlanQuotes(job, d).Err? ==> exists k :: (0 <= k < |d.codes| &&
      PriceRoom(job, d.codes[k], d.rooms[k], d.supps, d.discount) == Err(PlanQuotes(job, d).error) &&
      forall i :: 0 <= i < k ==> PriceRoom(job, d.codes[i], d.rooms[i], d.supps, d.discount).Ok?)
  {
    var rs := RoomQuotes(job, d);
    if PlanQuotes(job, d).Err? {
      var k :| FirstErr(rs, k) && PlanQuotes(job, d).error == rs[k].error;
      forall i | 0 <= i < k
        ensures PriceRoom(job, d.codes[i], d.rooms[i], d.supps, d.discount).Ok?
      {
        assert rs[i].Ok?;
      }
      assert rs[k] == QuoteRoom(job, d, k);
    }
  }

  // ------------------------------------------------------------ validation

  /** One room type of the validation pass: its Rates load and do not overlap. */
  function CheckRateCode(plan: Element, sd: Rates.StaticData, code: string): Result<seq<Rates.Rate>> {
    var list :- Rates.FindRatesByCode(plan, code);
    Rates.CheckRatesOverlap(list, sd)
  }

  /** One BookingRule code (or the generic rules) of the validation pass. */
  function CheckRuleCode(plan: Element, code: Option<string>): Result<seq<Rules.BookingRule>> {
    var list :- Rules.FindRulesByCode(plan, code);
    Rules.CheckRulesOverlap(list)
  }

  /** The validation pass over the Rates of one RatePlan: the static Rate, then every room type's Rates. */
  function ValidateRates(plan: Element): (r: Outcome)
    ensures r.Pass? <==> (Rates.GetStaticData(plan).Ok? && Rates.GetUniqueRateCodes(plan).Ok? &&
      forall c :: c in Rates.GetUniqueRateCodes(plan).value ==> CheckRateCode(plan, Rates.GetStaticData(plan).value, c).Ok?)
  {
    var sd := Rates.GetStaticData(plan);
    if sd.Err? then Fail(sd.error)
    else
      var codes := Rates.GetUniqueRateCodes(plan);
      if codes.Err? then Fail(codes.error)
      else
        var r := Each(codes.value, c => CheckRateCode(plan, sd.value, c));
        assert forall c :: c in codes.value ==> exists i :: 0 <= i < |codes.value| && codes.value[i] == c;
        r
  }

  /** The validation pass over the BookingRules of one RatePlan: every Code's rules, and the generic ones. */
  function ValidateRules(plan: Element): (r: Outcome)
    ensures r.Pass? <==> (Rules.GetUniqueRuleCodes(plan).Ok? &&
      forall c :: c in Rules.GetUniqueRuleCodes(plan).value ==> CheckRuleCode(plan, c).Ok?)
  {
    var codes := Rules.GetUniqueRuleCodes(plan);
    if codes.Err? then Fail(codes.error)
    else
      var r := Each(codes.value, c => CheckRuleCode(plan, c));
      assert forall c :: c in codes.value ==> exists i :: 0 <= i < |codes.value| && codes.value[i] == c;
      r
  }

  /** The validation pass over the Supplements of one RatePlan: every InvCode merges. */
  function ValidateSupps(plan: Element): (r: Outcome)
    ensures r.Pass? <==> (Supplements.GetUniqueSuppCodes(plan).Ok? &&
      forall c :: c in Supplements.GetUniqueSuppCodes(plan).value ==> Supplements.GetMergedSupp(plan, c).Ok?)
  {
    var codes := Supplements.GetUniqueSuppCodes(plan);
    if codes.Err? then Fail(codes.error)
    else
      var r := Each(codes.value, c => Supplements.GetMergedSupp(plan, c));
      assert forall c :: c in codes.value ==> exists i :: 0 <= i < |codes.value| && codes.value[i] == c;
      r
  }

  /** The validation pass over one RatePlan: Rates, BookingRules, Supplements, then the Offers. */
  function ValidatePlan(plan: Element): (r: Result<Discount>)
    ensures r.Ok? <==> (ValidateRates(plan).Pass? && ValidateRules(plan).Pass? && ValidateSupps(plan).Pass? &&
      GetDiscount(plan).Ok?)
    ensures r.Ok? ==> r == GetDiscount(plan) && DiscountOk(r.value)
  {
    var rates := ValidateRates(plan);
    if rates.Fail? then Err(rates.error) else
    :- ValidateRules(plan);
    :- ValidateSupps(plan);
    GetDiscount(plan)
  }

  /** A validated RatePlan's room types load their Rates without error in the matching pass. */
  lemma ValidatedRatesLoad(plan: Element, code: string)
    requires ValidateRates(plan).Pass? && code in Rates.GetUniqueRateCodes(plan).value
    ensures LoadRates(plan, code).Ok?
    ensures Rates.Disjoint(LoadRates(plan, code).value)
  {
    assert CheckRateCode(plan, Rates.GetStaticData(plan).value, code).Ok?;
  }

  // ---------------------------------------------------------- accumulation

  /** The quotes of all RatePlans, in order. */
  function Concat(qss: seq<seq<Quote>>): (r: seq<Quote>)
    ensures forall q :: q in r <==> exists i :: 0 <= i < |qss| && q in qss[i]
  {
    if |qss| == 0 then []
    else
      var n := |qss| - 1;
      var prefix := Concat(qss[..n]);
      assert forall i :: 0 <= i < n ==> qss[..n][i] == qss[i];
      prefix + qss[n]
  }

  /** match_accum: each quoted room type mapped to its cost, a later quote overwriting an earlier one. */
  function Accumulate(qs: seq<Quote>): (m: map<string, real>)
  {
    if |qs| == 0 then map[]
    else
      var acc := Accumulate(qs[..|qs| - 1]);
      var q := qs[|qs| - 1];
      if q.1.Quoted? then acc[q.0 := q.1.amount] else acc
  }

  /** `qs[i]` is the last quote for room type `k`. */
  predicate LastQuote(qs: seq<Quote>, k: string, i: int) {
    0 <= i < |qs| && qs[i].0 == k && qs[i].1.Quoted? &&
    forall j :: i < j < |qs| ==> !(qs[j].0 == k && qs[j].1.Quoted?)
  }

  /** The result holds exactly the quoted room types, each with the cost of its last quote. */
  lemma {:induction false} AccumulateLastWins(qs: seq<Quote>)
    ensures forall k :: k in Accumulate(qs) <==> exists i :: 0 <= i < |qs| && qs[i].0 == k && qs[i].1.Quoted?
    ensures forall k :: k in Accumulate(qs) ==> exists i :: LastQuote(qs, k, i) && Accumulate(qs)[k] == qs[i].1.amount
  {
    if |qs| > 0 {
      var n := |qs| - 1;
      var prefix := qs[..n];
      AccumulateLastWins(prefix);
      assert forall i :: 0 <= i < n ==> prefix[i] == qs[i];
      var m := Accumulate(qs);
      forall k | k in m
        ensures exists i :: LastQuote(qs, k, i) && m[k] == qs[i].1.amount
      {
        if qs[n].0 == k && qs[n].1.Quoted? {
          assert LastQuote(qs, k, n);
        } else {
          assert k in Accumulate(prefix) && m[k] == Accumulate(prefix)[k];
          var i :| LastQuote(prefix, k, i) && Accumulate(prefix)[k] == prefix[i].1.amount;
          assert LastQuote(qs, k, i);
        }
      }
    }
  }

  /** Accumulating a longer list is accumulating its two parts, the later part overwriting the earlier. */
  lemma {:induction false} AccumulateAppend(a: seq<Quote>, b: seq<Quote>)
    ensures Accumulate(a + b) == Accumulate(a) + Accumulate(b)
  {
    if |b| == 0 {
      assert a + b == a;
    } else {
      var n := |b| - 1;
      AccumulateAppend(a, b[..n]);
      assert (a + b)[..|a + b| - 1] == a + b[..n];
      assert (a + b)[|a + b| - 1] == b[n];
      var q := b[n];
      if q.1.Quoted? {
        assert Accumulate(a + b) == (Accumulate(a) + Accumulate(b[..n]))[q.0 := q.1.amount];
        assert Accumulate(b) == Accumulate(b[..n])[q.0 := q.1.amount];
      }
    }
  }

  /** Plan `p` is the last of `qss` that quotes room type `k`. */
  predicate LastPlan(qss: seq<seq<Quote>>, k: string, p: int) {
    0 <= p < |qss| && k in Accumulate(qss[p]) &&
    forall j :: p < j < |qss| ==> k !in Accumulate(qss[j])
  }

  /**
   * Accumulating the quotes of all RatePlans: a room type is in the result
   * exactly when some plan quotes it, and its cost is the one the last
   * plan quoting it gives.
   */
  lemma {:induction false} ConcatLastPlanWins(qss: seq<seq<Quote>>)
    ensures forall k :: k in Accumulate(Concat(qss)) <==> exists p :: 0 <= p < |qss| && k in Accumulate(qss[p])
    ensures forall k, p :: LastPlan(qss, k, p) ==> Accumulate(Concat(qss))[k] == Accumulate(qss[p])[k]
  {
    if |qss| > 0 {
      var n := |qss| - 1;
      var prefix := qss[..n];
      ConcatLastPlanWins(prefix);
      assert forall i :: 0 <= i < n ==> prefix[i] == qss[i];
      AccumulateAppend(Concat(prefix), qss[n]);
      forall k, p | LastPlan(qss, k, p)
        ensures Accumulate(Concat(qss))[k] == Accumulate(qss[p])[k]
      {
        if p < n {
          assert LastPlan(prefix, k, p);
        }
      }
    }
  }

  lemma AccumulateSound(keys: set<string>, qs: seq<Quote>)
    requires QuotesSound(keys, qs)
    ensures forall k :: k in Accumulate(qs) ==> k in keys && OnCentGrid(Accumulate(qs)[k])
  {
    AccumulateLastWins(qs);
    forall k | k in Accumulate(qs)
      ensures k in keys && OnCentGrid(Accumulate(qs)[k])
    {
      var i :| LastQuote(qs, k, i) && Accumulate(qs)[k] == qs[i].1.amount;
      assert qs[i] in qs;
    }
  }

  // ------------------------------------------------------------------ run

  /** The validation pass's verdict on each RatePlan, in order. */
  function PlanChecks(plans: seq<Element>): (rs: seq<Result<Discount>>)
    ensures |rs| == |plans| && forall i :: 0 <= i < |rs| ==> rs[i] == ValidatePlan(plans[i])
  {
    seq(|plans|, i requires 0 <= i < |plans| => ValidatePlan(plans[i]))
  }

  /** A RatePlan that passes validation has a list of rate codes for the matching pass to walk. */
  lemma ValidatedCodes(plans: seq<Element>)
    requires Collect(PlanChecks(plans)).Ok?
    ensures forall i :: 0 <= i < |plans| ==> ValidatePlan(plans[i]).Ok? && Rates.GetUniqueRateCodes(plans[i]).Ok?
  {
    forall i | 0 <= i < |plans|
      ensures ValidatePlan(plans[i]).Ok? && Rates.GetUniqueRateCodes(plans[i]).Ok?
    {
      assert PlanChecks(plans)[i].Ok?;
    }
  }

  /** The loads of every validated RatePlan, in plan order. */
  function LoadAll(plans: seq<Element>, discounts: seq<Discount>): (ds: seq<PlanData>)
    requires |discounts| == |plans| && forall i :: 0 <= i < |plans| ==> Rates.GetUniqueRateCodes(plans[i]).Ok?
    ensures |ds| == |plans| && forall i :: 0 <= i < |ds| ==> PlanDataOk(ds[i]) && ds[i].discount == discounts[i]
    ensures forall i :: 0 <= i < |ds| ==>
      ds[i].codes == Rates.GetUniqueRateCodes(plans[i]).value && ds[i].supps == Pricing.LoadSupps(plans[i])
  {
    seq(|plans|, i requires 0 <= i < |plans| => LoadPlan(plans[i], discounts[i]))
  }

  function PlanQuoteLists(job: Jobs.Job, ds: seq<PlanData>): (rs: seq<Result<seq<Quote>>>)
    requires Jobs.JobShaped(job) && forall i :: 0 <= i < |ds| ==> PlanDataOk(ds[i])
    ensures |rs| == |ds| && forall i :: 0 <= i < |rs| ==> rs[i] == PlanQuotes(job, ds[i])
  {
    seq(|ds|, i requires 0 <= i < |ds| => PlanQuotes(job, ds[i]))
  }

  /** Part 2 of run: the quotes of every RatePlan, in plan order, or the first error. */
  function AllQuotes(job: Jobs.Job, ds: seq<PlanData>): (r: Result<seq<Quote>>)
    requires Jobs.JobShaped(job) && forall i :: 0 <= i < |ds| ==> PlanDataOk(ds[i])
    ensures r.Ok? <==> forall i :: 0 <= i < |ds| ==> PlanQuotes(job, ds[i]).Ok?
    ensures r.Ok? ==> QuotesSound(job.invOcc.Keys, r.value)
    ensures r.Ok? ==> forall q :: q in r.value <==> exists i :: 0 <= i < |ds| && q in PlanQuotes(job, ds[i]).value
  {
    var qss :- Collect(PlanQuoteLists(job, ds));
    Ok(Concat(qss))
  }

  /**
   * The matching pass accumulated, given the quote list of each RatePlan:
   * a room type has a cost exactly when some RatePlan quotes it, and the
   * cost is the one of the last RatePlan that quotes it.
   */
  lemma AllQuotesLastPlanWins(job: Jobs.Job, ds: seq<PlanData>, lists: seq<seq<Quote>>)
    requires Jobs.JobShaped(job) && forall i :: 0 <= i < |ds| ==> PlanDataOk(ds[i])
    requires |lists| == |ds| && forall i :: 0 <= i < |ds| ==> PlanQuotes(job, ds[i]) == Ok(lists[i])
    ensures AllQuotes(job, ds).Ok?
    ensures forall k :: k in Accumulate(AllQuotes(job, ds).value) <==> exists p :: 0 <= p < |lists| && k in Accumulate(lists[p])
    ensures forall k, p :: LastPlan(lists, k, p) ==> Accumulate(AllQuotes(job, ds).value)[k] == Accumulate(lists[p])[k]
  {
    var qss := Collect(PlanQuoteLists(job, ds)).value;
    assert qss == lists;
    ConcatLastPlanWins(lists);
  }

  /**
   * Part 2 of run and match_accum: the matching pass over every validated
   * RatePlan, then each quoted room type mapped to its cost, a later
   * RatePlan's quote overwriting an earlier one.
   */
  method MatchPlans(job: Jobs.Job, plans: seq<Element>, discounts: seq<Discount>) returns (r: Result<map<string, real>>)
    requires Jobs.JobShaped(job) && |discounts| == |plans|
    requires forall i :: 0 <= i < |plans| ==> Rates.GetUniqueRateCodes(plans[i]).Ok?
    ensures AllQuotes(job, LoadAll(plans, discounts)).Err? ==> r == Err(AllQuotes(job, LoadAll(plans, discounts)).error)
    ensures AllQuotes(job, LoadAll(plans, discounts)).Ok? ==> r == Ok(Accumulate(AllQuotes(job, LoadAll(plans, discounts)).value))
    ensures r.Ok? ==> forall k :: k in r.value ==> k in job.invOcc && OnCentGrid(r.value[k])
  {
    var quotes := AllQuotes(job, LoadAll(plans, discounts));
    if quotes.Err? {
      return Err(quotes.error);
    }
    AccumulateSound(job.invOcc.Keys, quotes.value);
    return Ok(Accumulate(quotes.value));
  }

  /**
   * run: the job is validated before the message is looked at; every
   * RatePlan is validated, in order, before any is matched; the result maps
   * each room type to the cost of the stay in whole cents.
   */
  method Run(input: Jobs.JobInput, root: Option<Element>) returns (r: Result<map<string, real>>)
    ensures !Jobs.JobOk(input) ==> r == Err(Jobs.ValidateJob(input).error)
    ensures Jobs.JobOk(input) && Jobs.FindPlans(root).Err? ==> r == Err(Jobs.FindPlans(root).error)
    ensures (Jobs.JobOk(input) && Jobs.FindPlans(root).Ok? && Collect(PlanChecks(Jobs.FindPlans(root).value)).Err?) ==>
      r == Err(Collect(PlanChecks(Jobs.FindPlans(root).value)).error)
    ensures r.Ok? ==> Jobs.JobOk(input) && Jobs.FindPlans(root).Ok? && Collect(PlanChecks(Jobs.FindPlans(root).value)).Ok?
    ensures r.Ok? ==> forall k :: k in r.value ==> k in Jobs.ValidateJob(input).value.invOcc && OnCentGrid(r.value[k])
  {
    var job := Jobs.ValidateJob(input);
    if job.Err? {
      return Err(job.error);
    }
    var plans := Jobs.FindPlans(root);
    if plans.Err? {
      return Err(plans.error);
    }
    var discounts := Collect(PlanChecks(plans.value));
    if discounts.Err? {
      return Err(discounts.error);
    }
    ValidatedCodes(plans.value);
    r := MatchPlans(job.value, plans.value, discounts.value);
  }
}
