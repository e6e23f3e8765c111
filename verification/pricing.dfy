/**
 * The cost computation of lib/engine.js: match_rates walks the nights of
 * the stay in chunks priced by the first Rate that contains them, and
 * match_supps adds the mandatory supplements day by day. Amounts are exact
 * reals; round2/round3 are the decimal rounding of `toFixed`.
 */
module Pricing {
  import opened Wrappers
  import opened Errors
  import opened Text
  import opened Dates
  import opened Rates
  import opened Discounts
  import Supplements
  import Tree
  import Guests

  // ------------------------------------------------------------- rounding

  /** The integer nearest to `y`, ties away from zero. */
  function HalfAway(y: real): (n: int)
    ensures y >= 0.0 ==> y - 0.5 < n as real <= y + 0.5
    ensures y < 0.0 ==> y - 0.5 <= n as real < y + 0.5
  {
    if y < 0.0 then -((-y) + 0.5).Floor else (y + 0.5).Floor
  }

  /** round3: `toFixed(3)` on the exact value, the nearest multiple of 0.001 (ties away from zero). */
  function Round3(x: real): (r: real)
    ensures (r * 1000.0).Floor as real == r * 1000.0
    ensures -0.0005 <= r - x <= 0.0005
  {
    HalfAway(x * 1000.0) as real / 1000.0
  }

  /** round2: `toFixed(2)` on the exact value, the nearest multiple of 0.01 (ties away from zero). */
  function Round2(x: real): (r: real)
    ensures (r * 100.0).Floor as real == r * 100.0
    ensures -0.005 <= r - x <= 0.005
  {
    HalfAway(x * 100.0) as real / 100.0
  }

  /** A value already on the grid of 0.001 is not changed by round3. */
  lemma Round3OnGrid(n: int)
    ensures Round3(n as real / 1000.0) == n as real / 1000.0
  {
    assert n as real / 1000.0 * 1000.0 == n as real;
    HalfAwayInt(n);
  }

  lemma HalfAwayInt(n: int)
    ensures HalfAway(n as real) == n
  {
    if n < 0 {
      assert (-(n as real) + 0.5).Floor == -n;
    } else {
      assert (n as real + 0.5).Floor == n;
    }
  }

  /** Rounding to three places and then to two, as the totals of a stay are, stays within 0.0055 of the exact sum. */
  lemma RoundTwiceBound(x: real)
    ensures -0.0055 <= Round2(Round3(x)) - x <= 0.0055
  {
  }

  // ----------------------------------------------------------- the guests

  /** The guests priced for one room type: effective adults and (sorted) children, and the children a family offer lets stay free. */
  datatype Party = Party(adults: nat, children: seq<nat>, freeKids: nat)

  function Min(a: int, b: int): int {
    if a < b then a else b
  }

  // ------------------------------------------------------ one rate, one chunk

  /** Why a night of the stay cannot be priced. */
  datatype Miss = NoRate | NoBaseAmount(guests: nat) | NoAdultAmount | NoChildAmount(age: nat)

  datatype Charge = Priced(amount: real) | Unpriced(miss: Miss)

  /** A validated Rate as match_rates uses it: the night count is positive and the amounts are per person (7) or per room (25). */
  predicate RateShaped(r: Rate) {
    RateOk(r) && Priceable(r)
  }

  /** What pricing a chunk needs of a rate: a positive night count and a known base type. */
  predicate Priceable(r: Rate) {
    r.nightCnt >= 1 && (r.baseType == "7" || r.baseType == "25")
  }

  predicate RatesShaped(rates: seq<Rate>) {
    forall i :: 0 <= i < |rates| ==> RateShaped(rates[i])
  }

  /**
   * Part (a) of a full chunk, the base. For the per-person type 7 the
   * stored amount (the price per person times the guests) of the entry for
   * the whole party, capped at std, is split per head and only the adults'
   * shares are charged; for the per-room type 25 the amount of the entry
   * for min(adults, std) guests is charged.
   */
  function BaseCharge(rate: Rate, party: Party, std: nat): (c: Charge)
    requires rate.baseType == "7" || rate.baseType == "25"
    ensures c.Unpriced? ==> c.miss.NoBaseAmount?
    ensures Min(party.adults, std) == 0 ==> c == Priced(0.0)
    ensures rate.baseType == "25" && Min(party.adults, std) > 0 ==>
      (c.Priced? <==> NatToString(Min(party.adults, std)) in rate.baseAmt)
    ensures rate.baseType == "7" && Min(party.adults, std) > 0 ==>
      (c.Priced? <==> NatToString(Min(party.adults + |party.children| + party.freeKids, std)) in rate.baseAmt)
  {
    var baseAdults := Min(party.adults, std);
    if baseAdults == 0 then Priced(0.0)
    else if rate.baseType == "7" then
      var guests := Min(party.adults + |party.children| + party.freeKids, std);
      var key := NatToString(guests);
      if key in rate.baseAmt then Priced(Times(baseAdults, rate.baseAmt[key] / guests as real))
      else Unpriced(NoBaseAmount(guests))
    else
      var key := NatToString(baseAdults);
      if key in rate.baseAmt then Priced(rate.baseAmt[key]) else Unpriced(NoBaseAmount(baseAdults))
  }

  /** With only adults, none beyond std, a per-person rate charges exactly the stored amount for that many guests. */
  lemma PerPersonAdultsOnly(rate: Rate, adults: nat, std: nat)
    requires rate.baseType == "7" && 1 <= adults <= std
    requires NatToString(adults) in rate.baseAmt
    ensures BaseCharge(rate, Party(adults, [], 0), std) == Priced(rate.baseAmt[NatToString(adults)])
  {
    var p := Party(adults, [], 0);
    assert Min(p.adults + |p.children| + p.freeKids, std) == adults;
    TimesShare(adults, rate.baseAmt[NatToString(adults)]);
  }

  /**
   * A per-person rate charges each adult, up to std, the AmountAfterTax of
   * the BaseByGuestAmt `e` for the whole party (capped at std); `e` is
   * stored as Rates.BaseAmounts stores it.
   */
  lemma PerPersonBase(rate: Rate, party: Party, std: nat, e: Tree.Element)
    requires rate.baseType == "7" && Min(party.adults, std) > 0
    requires BaseEntryOk(e) && GuestKey(e) == NatToString(Min(party.adults + |party.children| + party.freeKids, std))
    requires GuestKey(e) in rate.baseAmt && rate.baseAmt[GuestKey(e)] == Rates.BaseCharge(e, "7")
    ensures BaseCharge(rate, party, std) ==
      Priced(Times(Min(party.adults, std), DecimalValue(Tree.Attr(e, "AmountAfterTax").value)))
  {
    var guests := Min(party.adults + |party.children| + party.freeKids, std);
    PerHead(rate.baseAmt[GuestKey(e)], DecimalValue(Tree.Attr(e, "AmountAfterTax").value), guests);
  }

  /** An amount of `p` per guest for `guests` guests, split per head, is `p` a head. */
  lemma PerHead(stored: real, p: real, guests: nat)
    requires guests >= 1 && stored == Times(guests, p)
    ensures stored / guests as real == p
  {
    TimesIsProduct(guests, p);
  }

  /** A per-room rate charges the AmountAfterTax of the BaseByGuestAmt `e` for min(adults, std) guests. */
  lemma PerRoomBase(rate: Rate, party: Party, std: nat, e: Tree.Element)
    requires rate.baseType == "25" && Min(party.adults, std) > 0
    requires BaseEntryOk(e) && GuestKey(e) == NatToString(Min(party.adults, std))
    requires GuestKey(e) in rate.baseAmt && rate.baseAmt[GuestKey(e)] == Rates.BaseCharge(e, "25")
    ensures BaseCharge(rate, party, std) == Priced(DecimalValue(Tree.Attr(e, "AmountAfterTax").value))
  {
  }

  lemma MulDiv(a: real, k: real)
    requires k != 0.0
    ensures a * k / k == a && k * (a / k) == a
  {
  }

  /** The amount of the first AdditionalGuestAmount for adults (AgeQualifyingCode 10). */
  function AdultAmount(add: seq<AddAmount>): (r: Option<real>)
    ensures r.None? <==> forall k :: 0 <= k < |add| ==> add[k].ageCode != "10"
    ensures r.Some? ==> exists k :: 0 <= k < |add| && add[k].ageCode == "10" && add[k].amount == r.value
  {
    if |add| == 0 then None
    else if add[0].ageCode == "10" then Some(add[0].amount)
    else
      var r := AdultAmount(add[1..]);
      assert forall k :: 1 <= k < |add| ==> add[k] == add[1..][k - 1];
      r
  }

  /** Part (b): each adult beyond std pays the extra-adult amount; without one the rate is unusable. */
  function ExtraAdultCharge(add: seq<AddAmount>, extra: nat): (c: Charge)
    ensures c.Unpriced? <==> extra > 0 && AdultAmount(add).None?
    ensures c.Unpriced? ==> c.miss == NoAdultAmount
    ensures c.Priced? ==> c.amount == Times(extra, AdultAmount(add).GetOr(0.0))
  {
    if extra == 0 then Priced(0.0)
    else
      match AdultAmount(add)
      case None => Unpriced(NoAdultAmount)
      case Some(a) => Priced(Times(extra, a))
  }

  /** The amount of the first child bracket (AgeQualifyingCode 8) whose MinAge <= age < MaxAge. */
  function ChildAmount(add: seq<AddAmount>, age: nat): (r: Option<real>)
    ensures r.None? <==> forall k :: 0 <= k < |add| ==> !Covers(add[k], age)
    ensures r.Some? ==> exists k :: 0 <= k < |add| && Covers(add[k], age) && add[k].amount == r.value
  {
    if |add| == 0 then None
    else if Covers(add[0], age) then Some(add[0].amount)
    else
      var r := ChildAmount(add[1..], age);
      assert forall k :: 1 <= k < |add| ==> add[k] == add[1..][k - 1];
      r
  }

  /** In a validated rate the bracket of a child is unique, so the first match is the only one. */
  lemma ChildAmountUnique(rate: Rate, age: nat, k: nat)
    requires RateOk(rate) && k < |rate.addAmt| && Covers(rate.addAmt[k], age)
    ensures ChildAmount(rate.addAmt, age) == Some(rate.addAmt[k].amount)
  {
    BracketsUnique(rate.addAmt, age);
    var r := ChildAmount(rate.addAmt, age);
    var j :| 0 <= j < |rate.addAmt| && Covers(rate.addAmt[j], age) && rate.addAmt[j].amount == r.value;
    if j != k {
      TwoCovering(rate.addAmt, age, j, k);
    }
  }

  /** Two distinct covering brackets make the covering count at least two. */
  lemma {:induction false} TwoCovering(add: seq<AddAmount>, age: nat, j: nat, k: nat)
    requires j < |add| && k < |add| && j != k && Covers(add[j], age) && Covers(add[k], age)
    ensures CoveringCount(add, age) >= 2
    decreases |add|
  {
    if j > 0 && k > 0 {
      TwoCovering(add[1..], age, j - 1, k - 1);
    } else {
      var other := if j == 0 then k else j;
      assert Covers(add[1..][other - 1], age);
    }
  }

  /** The bracket amounts of the children added up, a child without a bracket adding nothing. */
  function ChildrenSum(add: seq<AddAmount>, ages: seq<nat>): real {
    if |ages| == 0 then 0.0 else ChildAmount(add, ages[0]).GetOr(0.0) + ChildrenSum(add, ages[1..])
  }

  /** Part (c): every child is charged by its bracket; the first child without one makes the rate unusable. */
  function ChildrenCharge(add: seq<AddAmount>, ages: seq<nat>): (c: Charge)
    ensures c.Priced? <==> forall j :: 0 <= j < |ages| ==> ChildAmount(add, ages[j]).Some?
    ensures c.Priced? ==> c.amount == ChildrenSum(add, ages)
    ensures c.Unpriced? ==> exists j :: (0 <= j < |ages| && c.miss == NoChildAmount(ages[j]) &&
      ChildAmount(add, ages[j]).None? && forall i :: 0 <= i < j ==> ChildAmount(add, ages[i]).Some?)
  {
    if |ages| == 0 then Priced(0.0)
    else
      var rest := ChildrenCharge(add, ages[1..]);
      assert forall j :: 1 <= j < |ages| ==> ages[j] == ages[1..][j - 1];
      match ChildAmount(add, ages[0])
      case None => Unpriced(NoChildAmount(ages[0]))
      case Some(a) =>
        if rest.Priced? then Priced(a + rest.amount)
        else
          var j :| 0 <= j < |ages[1..]| && rest.miss == NoChildAmount(ages[1..][j]) &&
            ChildAmount(add, ages[1..][j]).None? && forall i :: 0 <= i < j ==> ChildAmount(add, ages[1..][i]).Some?;
          assert forall i :: 0 <= i < j + 1 ==> i == 0 || ages[i] == ages[1..][i - 1];
          rest
  }

  /** The parts of a chunk in order: the first unusable part decides, otherwise the parts add up. */
  function Combine(base: Charge, adults: Charge, children: Charge): Charge {
    if base.Unpriced? then base
    else if adults.Unpriced? then adults
    else if children.Unpriced? then children
    else Priced(base.amount + adults.amount + children.amount)
  }

  /** The price of a full chunk of UnitMultiplier nights: base, extra adults, children, in this order. */
  function FullCharge(rate: Rate, party: Party, std: nat): (c: Charge)
    requires Priceable(rate)
    ensures c.Unpriced? ==> !c.miss.NoRate?
    ensures c.Priced? <==>
      BaseCharge(rate, party, std).Priced? &&
      (party.adults > std ==> AdultAmount(rate.addAmt).Some?) &&
      (forall j :: 0 <= j < |party.children| ==> ChildAmount(rate.addAmt, party.children[j]).Some?)
    ensures c.Priced? ==>
      c.amount == BaseCharge(rate, party, std).amount +
        Times(party.adults - Min(party.adults, std), AdultAmount(rate.addAmt).GetOr(0.0)) +
        ChildrenSum(rate.addAmt, party.children)
  {
    Combine(BaseCharge(rate, party, std),
            ExtraAdultCharge(rate.addAmt, party.adults - Min(party.adults, std)),
            ChildrenCharge(rate.addAmt, party.children))
  }

  /**
   * The cost of a chunk of `nights` nights under `rate`: the full-chunk
   * price weighted by nights / UnitMultiplier. match_rates weights each of
   * the three parts before adding them up; over exact reals that is the
   * same amount (PartsWeighted).
   */
  function ChunkCharge(rate: Rate, party: Party, std: nat, nights: nat): (c: Charge)
    requires Priceable(rate)
    ensures c.Unpriced? ==> !c.miss.NoRate?
    ensures c.Priced? <==> FullCharge(rate, party, std).Priced?
    ensures nights == rate.nightCnt ==> c == FullCharge(rate, party, std)
  {
    Weighted(FullCharge(rate, party, std), nights, rate.nightCnt)
  }

  /** `nights` nights' worth of a charge quoted per `count` nights: each night costs amount / count. */
  function Weighted(c: Charge, nights: nat, count: nat): (r: Charge)
    requires count >= 1
    ensures r.Priced? <==> c.Priced?
    ensures r.Unpriced? ==> r == c
    ensures nights == count ==> r == c
  {
    if c.Priced? then
      if nights == count then TimesShare(count, c.amount); Priced(Times(nights, c.amount / count as real))
      else Priced(Times(nights, c.amount / count as real))
    else c
  }

  /** Weighting the sum is weighting each part and adding the weighted parts, as match_rates does. */
  lemma PartsWeighted(base: Charge, adults: Charge, children: Charge, nights: nat, count: nat)
    requires count >= 1
    ensures Weighted(Combine(base, adults, children), nights, count) ==
      Combine(Weighted(base, nights, count), Weighted(adults, nights, count), Weighted(children, nights, count))
  {
    if base.Priced? && adults.Priced? && children.Priced? {
      var k := count as real;
      var x, y, z := base.amount, adults.amount, children.amount;
      assert (x + y + z) / k == x / k + y / k + z / k;
      TimesAdd(nights, x / k, y / k);
      TimesAdd(nights, x / k + y / k, z / k);
    }
  }

  /** A chunk's cost is linear in its nights: `n` nights cost `n` times one night, and either both are priced or neither. */
  lemma ChunkLinear(rate: Rate, party: Party, std: nat, n: nat)
    requires Priceable(rate)
    ensures ChunkCharge(rate, party, std, n).Priced? <==> ChunkCharge(rate, party, std, 1).Priced?
    ensures ChunkCharge(rate, party, std, n).Priced? ==>
      ChunkCharge(rate, party, std, n).amount == Times(n, ChunkCharge(rate, party, std, 1).amount)
  {
    var full := FullCharge(rate, party, std);
    if full.Priced? {
      assert Times(1, full.amount / rate.nightCnt as real) == full.amount / rate.nightCnt as real;
    }
  }

  // ------------------------------------------------------------- the walk

  /** Rate `r` contains day `d`. */
  predicate Contains(r: Rate, d: Date)
    requires RateOk(r) && Valid(d)
  {
    Between(r.start, r.end, d)
  }

  /** The index of the first rate that contains `d`. */
  function FirstCovering(rates: seq<Rate>, d: Date): (r: Option<nat>)
    requires RatesShaped(rates) && Valid(d)
    ensures r.None? <==> forall i :: 0 <= i < |rates| ==> !Contains(rates[i], d)
    ensures r.Some? ==> (r.value < |rates| && Contains(rates[r.value], d) &&
      forall i :: 0 <= i < r.value ==> !Contains(rates[i], d))
  {
    FirstCoveringFrom(rates, d, 0)
  }

  /** The scan of the rates from index `k` on. */
  function FirstCoveringFrom(rates: seq<Rate>, d: Date, k: nat): (r: Option<nat>)
    requires RatesShaped(rates) && Valid(d) && k <= |rates|
    ensures r.None? <==> forall i :: k <= i < |rates| ==> !Contains(rates[i], d)
    ensures r.Some? ==> (k <= r.value < |rates| && Contains(rates[r.value], d) &&
      forall i :: k <= i < r.value ==> !Contains(rates[i], d))
    decreases |rates| - k
  {
    if k == |rates| then None
    else if Contains(rates[k], d) then Some(k)
    else FirstCoveringFrom(rates, d, k + 1)
  }

  /**
   * Whether the single night `d` is made free by a free-nights discount:
   * the stay has at least NightsRequired nights, and with a pattern the
   * night's position in its block of NightsRequired nights is in the
   * discounted tail; without one the night is among the last
   * NightsDiscounted of the stay.
   */
  predicate FreeNight(free: Option<FreeNights>, arr: Date, dep: Date, d: Date, nights: nat)
    requires Valid(arr) && Valid(dep) && Valid(d) && Diff(arr, d) >= 0
  {
    free.Some? && free.value.required >= 1 && Diff(arr, dep) >= free.value.required && nights == 1 &&
    if free.value.pattern.Some? then Diff(arr, d) % free.value.required >= free.value.required - free.value.discounted
    else Diff(d, dep) <= free.value.discounted
  }

  /** With a DiscountPattern, exactly the nights whose position in the pattern reads 1 are free. */
  lemma FreeNightFollowsPattern(free: FreeNights, arr: Date, dep: Date, d: Date)
    requires FreeNightsOk(free) && free.pattern.Some?
    requires Valid(arr) && Valid(dep) && Valid(d) && Diff(arr, d) >= 0 && Diff(arr, dep) >= free.required
    ensures var pos := Diff(arr, d) % free.required;
      pos < |free.pattern.value| &&
      (FreeNight(Some(free), arr, dep, d, 1) <==> free.pattern.value[pos] == '1')
  {
  }

  /** One matched chunk: its first night, its length, the rate that priced it, its cost and whether it was free. */
  datatype Step = Step(start: Date, nights: nat, rate: nat, cost: real, free: bool)

  datatype Walk = Walked(steps: seq<Step>) | Stuck(date: Date, miss: Miss)

  /** The steps lie end to end from day number `from` to day number `to`, each at least one night long. */
  ghost predicate Tiles(steps: seq<Step>, from: int, to: int)
    decreases |steps|
  {
    if |steps| == 0 then from == to
    else (Valid(steps[0].start) && DayNumber(steps[0].start) == from && steps[0].nights >= 1 &&
      Tiles(steps[1..], from + steps[0].nights, to))
  }

  /** The step lies inside the rate that priced it, which contains its first night; a free step is a single night. */
  predicate StepInRate(step: Step, rates: seq<Rate>)
    requires RatesShaped(rates)
  {
    Valid(step.start) && step.rate < |rates| && Contains(rates[step.rate], step.start) &&
    step.nights <= rates[step.rate].nightCnt && step.nights <= Diff(step.start, rates[step.rate].end) + 1 &&
    (step.free ==> step.nights == 1)
  }

  predicate StepsInRates(steps: seq<Step>, rates: seq<Rate>)
    requires RatesShaped(rates)
  {
    forall k :: 0 <= k < |steps| ==> StepInRate(steps[k], rates)
  }

  /** The day `n` days after `dt`, which exists while it is not past `dep`. */
  function Advance(dt: Date, n: nat, dep: Date): (r: Date)
    requires Valid(dt) && Valid(dep) && n <= Diff(dt, dep)
    ensures Valid(r) && DayNumber(r) == DayNumber(dt) + n
  {
    MinMaxBound(dep);
    AddDays(dt, n).value
  }

  /** The length of the chunk that `rate` prices from `dt`: the nights left in the stay, in the rate, and its UnitMultiplier. */
  function ChunkNights(rate: Rate, dt: Date, dep: Date): (n: nat)
    requires RateShaped(rate) && Valid(dt) && Valid(dep) && Diff(dt, dep) > 0 && Contains(rate, dt)
    ensures 1 <= n <= Diff(dt, dep) && n <= rate.nightCnt && n <= Diff(dt, rate.end) + 1
    ensures n == Diff(dt, dep) || n == Diff(dt, rate.end) + 1 || n == rate.nightCnt
  {
    Min(Min(Diff(dt, dep), Diff(dt, rate.end) + 1), rate.nightCnt)
  }

  /** The while loop of match_rates from day `dt` to the departure. */
  function RateWalk(rates: seq<Rate>, party: Party, std: nat, free: Option<FreeNights>,
                    arr: Date, dep: Date, dt: Date): (w: Walk)
    requires RatesShaped(rates) && Valid(arr) && Valid(dep) && Valid(dt)
    requires Diff(arr, dt) >= 0 && Diff(dt, dep) >= 0
    ensures Diff(dt, dep) == 0 ==> w == Walked([])
    decreases Diff(dt, dep)
  {
    if Diff(dt, dep) == 0 then Walked([])
    else
      var first := FirstCovering(rates, dt);
      if first.None? then Stuck(dt, NoRate)
      else
        var rate := rates[first.value];
        var nights := ChunkNights(rate, dt, dep);
        var charge := ChunkCharge(rate, party, std, nights);
        if charge.Unpriced? then Stuck(dt, charge.miss)
        else
          var next := Advance(dt, nights, dep);
          var rest := RateWalk(rates, party, std, free, arr, dep, next);
          if rest.Stuck? then rest
          else
            var step := Step(dt, nights, first.value, charge.amount, FreeNight(free, arr, dep, dt, nights));
            Walked([step] + rest.steps)
  }

  /** A completed walk covers the nights from `dt` to the departure exactly once, chunk after chunk. */
  lemma {:induction false} WalkTiles(rates: seq<Rate>, party: Party, std: nat, free: Option<FreeNights>,
                                     arr: Date, dep: Date, dt: Date)
    requires RatesShaped(rates) && Valid(arr) && Valid(dep) && Valid(dt)
    requires Diff(arr, dt) >= 0 && Diff(dt, dep) >= 0
    ensures var w := RateWalk(rates, party, std, free, arr, dep, dt);
      w.Walked? ==> Tiles(w.steps, DayNumber(dt), DayNumber(dep))
    decreases Diff(dt, dep)
  {
    if Diff(dt, dep) > 0 && FirstCovering(rates, dt).Some? {
      var i := FirstCovering(rates, dt).value;
      var nights := ChunkNights(rates[i], dt, dep);
      var charge := ChunkCharge(rates[i], party, std, nights);
      var next := Advance(dt, nights, dep);
      var rest := RateWalk(rates, party, std, free, arr, dep, next);
      if charge.Priced? && rest.Walked? {
        WalkTiles(rates, party, std, free, arr, dep, next);
        var step := Step(dt, nights, i, charge.amount, FreeNight(free, arr, dep, dt, nights));
        assert RateWalk(rates, party, std, free, arr, dep, dt) == Walked([step] + rest.steps);
        TilesCons(step, rest.steps, DayNumber(dt), DayNumber(next), DayNumber(dep));
      }
    }
  }

  lemma TilesCons(step: Step, rest: seq<Step>, from: int, mid: int, to: int)
    requires Valid(step.start) && DayNumber(step.start) == from && step.nights >= 1
    requires mid == from + step.nights && Tiles(rest, mid, to)
    ensures Tiles([step] + rest, from, to)
  {
    assert ([step] + rest)[1..] == rest;
  }

  /** Every chunk lies inside the rate that priced it, and only single-night chunks are free. */
  lemma {:induction false} WalkInRates(rates: seq<Rate>, party: Party, std: nat, free: Option<FreeNights>,
                                       arr: Date, dep: Date, dt: Date)
    requires RatesShaped(rates) && Valid(arr) && Valid(dep) && Valid(dt)
    requires Diff(arr, dt) >= 0 && Diff(dt, dep) >= 0
    ensures var w := RateWalk(rates, party, std, free, arr, dep, dt);
      w.Walked? ==> StepsInRates(w.steps, rates)
    decreases Diff(dt, dep)
  {
    if Diff(dt, dep) > 0 && FirstCovering(rates, dt).Some? {
      var i := FirstCovering(rates, dt).value;
      var nights := ChunkNights(rates[i], dt, dep);
      var charge := ChunkCharge(rates[i], party, std, nights);
      var next := Advance(dt, nights, dep);
      var rest := RateWalk(rates, party, std, free, arr, dep, next);
      if charge.Priced? && rest.Walked? {
        WalkInRates(rates, party, std, free, arr, dep, next);
        var step := Step(dt, nights, i, charge.amount, FreeNight(free, arr, dep, dt, nights));
        var steps := [step] + rest.steps;
        assert RateWalk(rates, party, std, free, arr, dep, dt) == Walked(steps);
        assert StepInRate(step, rates);
        StepsInRatesCons(step, rest.steps, rates);
      }
    }
  }

  lemma StepsInRatesCons(step: Step, steps: seq<Step>, rates: seq<Rate>)
    requires RatesShaped(rates) && StepInRate(step, rates) && StepsInRates(steps, rates)
    ensures StepsInRates([step] + steps, rates)
  {
    assert forall k :: 1 <= k < |steps| + 1 ==> ([step] + steps)[k] == steps[k - 1];
  }

  /**
   * A step as match_rates makes it: its first night lies in the stay, its
   * rate is the first one containing that night, it is as long as that rate
   * allows, it costs that chunk's price under that rate, and it is free
   * exactly when the free-nights discount says so.
   */
  predicate StepPriced(step: Step, rates: seq<Rate>, party: Party, std: nat, free: Option<FreeNights>, arr: Date, dep: Date)
    requires RatesShaped(rates) && Valid(arr) && Valid(dep)
  {
    Valid(step.start) && Diff(arr, step.start) >= 0 && Diff(step.start, dep) > 0 &&
    FirstCovering(rates, step.start) == Some(step.rate) &&
    step.nights == ChunkNights(rates[step.rate], step.start, dep) &&
    ChunkCharge(rates[step.rate], party, std, step.nights) == Priced(step.cost) &&
    step.free == FreeNight(free, arr, dep, step.start, step.nights)
  }

  /** Every step of a completed walk is priced as match_rates prices it. */
  lemma {:induction false} WalkPriced(rates: seq<Rate>, party: Party, std: nat, free: Option<FreeNights>,
                                      arr: Date, dep: Date, dt: Date)
    requires RatesShaped(rates) && Valid(arr) && Valid(dep) && Valid(dt)
    requires Diff(arr, dt) >= 0 && Diff(dt, dep) >= 0
    ensures var w := RateWalk(rates, party, std, free, arr, dep, dt);
      w.Walked? ==> StepsPriced(w.steps, rates, party, std, free, arr, dep)
    decreases Diff(dt, dep)
  {
    if Diff(dt, dep) > 0 && FirstCovering(rates, dt).Some? {
      var i := FirstCovering(rates, dt).value;
      var nights := ChunkNights(rates[i], dt, dep);
      var charge := ChunkCharge(rates[i], party, std, nights);
      var next := Advance(dt, nights, dep);
      var rest := RateWalk(rates, party, std, free, arr, dep, next);
      if charge.Priced? && rest.Walked? {
        assert Diff(arr, next) >= 0;
        WalkPriced(rates, party, std, free, arr, dep, next);
        var step := Step(dt, nights, i, charge.amount, FreeNight(free, arr, dep, dt, nights));
        assert RateWalk(rates, party, std, free, arr, dep, dt) == Walked([step] + rest.steps);
        assert StepPriced(step, rates, party, std, free, arr, dep);
        StepsPricedCons(step, rest.steps, rates, party, std, free, arr, dep);
      }
    }
  }

  predicate StepsPriced(steps: seq<Step>, rates: seq<Rate>, party: Party, std: nat, free: Option<FreeNights>, arr: Date, dep: Date)
    requires RatesShaped(rates) && Valid(arr) && Valid(dep)
  {
    forall k :: 0 <= k < |steps| ==> StepPriced(steps[k], rates, party, std, free, arr, dep)
  }

  lemma StepsPricedCons(step: Step, steps: seq<Step>, rates: seq<Rate>, party: Party, std: nat,
                        free: Option<FreeNights>, arr: Date, dep: Date)
    requires RatesShaped(rates) && Valid(arr) && Valid(dep)
    requires StepPriced(step, rates, party, std, free, arr, dep) && StepsPriced(steps, rates, party, std, free, arr, dep)
    ensures StepsPriced([step] + steps, rates, party, std, free, arr, dep)
  {
    var all := [step] + steps;
    forall k | 0 <= k < |all|
      ensures StepPriced(all[k], rates, party, std, free, arr, dep)
    {
      if k > 0 {
        assert all[k] == steps[k - 1];
      }
    }
  }

  /** A night the walk cannot price lies in the stay, and a NoRate miss means no rate contains it. */
  lemma {:induction false} WalkStuck(rates: seq<Rate>, party: Party, std: nat, free: Option<FreeNights>,
                                     arr: Date, dep: Date, dt: Date)
    requires RatesShaped(rates) && Valid(arr) && Valid(dep) && Valid(dt)
    requires Diff(arr, dt) >= 0 && Diff(dt, dep) >= 0
    ensures var w := RateWalk(rates, party, std, free, arr, dep, dt);
      w.Stuck? ==> (Valid(w.date) && Diff(dt, w.date) >= 0 && Diff(w.date, dep) > 0 &&
        (w.miss == NoRate ==> forall i :: 0 <= i < |rates| ==> !Contains(rates[i], w.date)))
    decreases Diff(dt, dep)
  {
    if Diff(dt, dep) > 0 {
      var first := FirstCovering(rates, dt);
      if first.Some? {
        var rate := rates[first.value];
        var nights := ChunkNights(rate, dt, dep);
        if ChunkCharge(rate, party, std, nights).Priced? {
          var next := Advance(dt, nights, dep);
          WalkStuck(rates, party, std, free, arr, dep, next);
          assert Diff(dt, next) >= 0;
        }
      }
    }
  }

  /** The nights of the steps together are the stay. */
  lemma {:induction false} TilesCount(steps: seq<Step>, from: int, to: int)
    requires Tiles(steps, from, to)
    ensures to - from == Nights(steps)
    decreases |steps|
  {
    if |steps| > 0 {
      TilesCount(steps[1..], from + steps[0].nights, to);
    }
  }

  function Nights(steps: seq<Step>): nat {
    if |steps| == 0 then 0 else steps[0].nights + Nights(steps[1..])
  }

  /** The cost of the steps that were not made free. */
  function Total(steps: seq<Step>): real {
    if |steps| == 0 then 0.0 else (if steps[0].free then 0.0 else steps[0].cost) + Total(steps[1..])
  }

  /** The first nights of the free steps (fn_hash). */
  function FreeDates(steps: seq<Step>): (r: set<Date>)
    ensures forall d :: d in r <==> exists k :: 0 <= k < |steps| && steps[k].free && steps[k].start == d
  {
    if |steps| == 0 then {}
    else
      var rest := FreeDates(steps[1..]);
      assert forall k :: 1 <= k < |steps| ==> steps[k] == steps[1..][k - 1];
      (if steps[0].free then {steps[0].start} else {}) + rest
  }

  /** Every step of the walk is a single night, as when every matched Rate has UnitMultiplier 1. */
  predicate SingleNights(steps: seq<Step>) {
    forall k :: 0 <= k < |steps| ==> steps[k].nights == 1
  }

  /** Night `d`, from `from` on, is among the last NightsDiscounted of a stay long enough for the discount. */
  predicate EndNight(f: FreeNights, arr: Date, dep: Date, from: Date, d: Date)
    requires Valid(arr) && Valid(dep) && Valid(from)
  {
    Diff(arr, dep) >= f.required && Valid(d) && Diff(from, d) >= 0 && 0 < Diff(d, dep) <= f.discounted
  }

  /**
   * Without a DiscountPattern the discount applies once, at the end of the
   * stay: in a walk of single nights from `dt`, the free nights are exactly
   * the nights from `dt` on among the last NightsDiscounted of the stay
   * (all of them when the stay is shorter), and none at all when the stay
   * has fewer than NightsRequired nights.
   */
  lemma {:induction false} FreeNightsAtEnd(rates: seq<Rate>, party: Party, std: nat, f: FreeNights,
                                           arr: Date, dep: Date, dt: Date)
    requires RatesShaped(rates) && Valid(arr) && Valid(dep) && Valid(dt)
    requires Diff(arr, dt) >= 0 && Diff(dt, dep) >= 0
    requires f.pattern.None? && f.required >= 1
    ensures var w := RateWalk(rates, party, std, Some(f), arr, dep, dt);
      w.Walked? && SingleNights(w.steps) ==> forall d :: d in FreeDates(w.steps) <==> EndNight(f, arr, dep, dt, d)
    decreases Diff(dt, dep)
  {
    if Diff(dt, dep) == 0 {
      forall d | EndNight(f, arr, dep, dt, d) ensures false { }
    } else if FirstCovering(rates, dt).Some? {
      var i := FirstCovering(rates, dt).value;
      var nights := ChunkNights(rates[i], dt, dep);
      var charge := ChunkCharge(rates[i], party, std, nights);
      var next := Advance(dt, nights, dep);
      var rest := RateWalk(rates, party, std, Some(f), arr, dep, next);
      if charge.Priced? && rest.Walked? {
        assert Diff(arr, next) >= 0;
        FreeNightsAtEnd(rates, party, std, f, arr, dep, next);
        var step := Step(dt, nights, i, charge.amount, FreeNight(Some(f), arr, dep, dt, nights));
        var steps := [step] + rest.steps;
        assert RateWalk(rates, party, std, Some(f), arr, dep, dt) == Walked(steps);
        if SingleNights(steps) {
          SingleNightsTail(step, rest.steps);
          FreeDatesCons(step, rest.steps);
          FreeEndStep(f, arr, dep, dt, next, step.free, FreeDates(rest.steps));
        }
      }
    }
  }

  lemma SingleNightsTail(step: Step, rest: seq<Step>)
    requires SingleNights([step] + rest)
    ensures step.nights == 1 && SingleNights(rest)
  {
    assert ([step] + rest)[0] == step;
    assert forall k :: 0 <= k < |rest| ==> rest[k] == ([step] + rest)[k + 1];
  }

  lemma FreeDatesCons(step: Step, rest: seq<Step>)
    ensures FreeDates([step] + rest) == (if step.free then {step.start} else {}) + FreeDates(rest)
  {
    assert ([step] + rest)[1..] == rest;
  }

  /** One night of the walk: the free set from `dt` is the night itself, when free, and the free set from the next day. */
  lemma FreeEndStep(f: FreeNights, arr: Date, dep: Date, dt: Date, next: Date, free: bool, later: set<Date>)
    requires Valid(arr) && Valid(dep) && Valid(dt) && Valid(next) && f.pattern.None? && f.required >= 1
    requires Diff(arr, dt) >= 0 && DayNumber(next) == DayNumber(dt) + 1 && Diff(next, dep) >= 0
    requires free == FreeNight(Some(f), arr, dep, dt, 1)
    requires forall d :: d in later <==> EndNight(f, arr, dep, next, d)
    ensures forall d :: d in (if free then {dt} else {}) + later <==> EndNight(f, arr, dep, dt, d)
  {
    forall d ensures d in (if free then {dt} else {}) + later <==> EndNight(f, arr, dep, dt, d) {
      if Valid(d) {
        DiffProperties(dt, d, 0);
      }
    }
  }

  /** A walk over Rates that all have UnitMultiplier 1 is made of single nights. */
  lemma WalkSingleNights(rates: seq<Rate>, party: Party, std: nat, free: Option<FreeNights>, arr: Date, dep: Date)
    requires RatesShaped(rates) && Valid(arr) && Valid(dep) && Diff(arr, dep) >= 0
    requires forall i :: 0 <= i < |rates| ==> rates[i].nightCnt == 1
    ensures var w := RateWalk(rates, party, std, free, arr, dep, arr);
      w.Walked? ==> SingleNights(w.steps)
  {
    WalkInRates(rates, party, std, free, arr, dep, arr);
    WalkTiles(rates, party, std, free, arr, dep, arr);
    var w := RateWalk(rates, party, std, free, arr, dep, arr);
    if w.Walked? {
      TilesPositive(w.steps, DayNumber(arr), DayNumber(dep));
    }
  }

  lemma {:induction false} TilesPositive(steps: seq<Step>, from: int, to: int)
    requires Tiles(steps, from, to)
    ensures forall k :: 0 <= k < |steps| ==> steps[k].nights >= 1
    decreases |steps|
  {
    if |steps| > 0 {
      TilesPositive(steps[1..], from + steps[0].nights, to);
      assert forall k :: 1 <= k < |steps| ==> steps[k] == steps[1..][k - 1];
    }
  }

  datatype RateMatch = Matched(total: real, free: set<Date>) | NoMatch(date: Date, miss: Miss)

  /**
   * match_rates: the cost of the stay from the rates of one room type, or
   * the first night no rate can price.
   */
  function MatchRates(rates: seq<Rate>, party: Party, std: nat, free: Option<FreeNights>, arr: Date, dep: Date): (r: RateMatch)
    requires RatesShaped(rates) && Valid(arr) && Valid(dep) && Diff(arr, dep) >= 0
    requires Guests.Sorted(party.children)
    ensures r.Matched? <==> RateWalk(rates, party, std, free, arr, dep, arr).Walked?
    ensures r.Matched? ==>
      var steps := RateWalk(rates, party, std, free, arr, dep, arr).steps;
      Nights(steps) == Diff(arr, dep) && r.total == Round3(Total(steps)) && r.free == FreeDates(steps)
    ensures r.NoMatch? ==> Valid(r.date) && Diff(arr, r.date) >= 0 && Diff(r.date, dep) > 0
  {
    var w := RateWalk(rates, party, std, free, arr, dep, arr);
    WalkStuck(rates, party, std, free, arr, dep, arr);
    WalkTiles(rates, party, std, free, arr, dep, arr);
    if w.Stuck? then NoMatch(w.date, w.miss)
    else
      TilesCount(w.steps, DayNumber(arr), DayNumber(dep));
      Matched(Round3(Total(w.steps)), FreeDates(w.steps))
  }

  /**
   * fn_hash without a DiscountPattern, when every Rate has UnitMultiplier 1:
   * the free nights are the last NightsDiscounted nights of a stay of at
   * least NightsRequired nights (every night when NightsDiscounted is at
   * least the stay's length), and none otherwise.
   */
  lemma MatchRatesFreeAtEnd(rates: seq<Rate>, party: Party, std: nat, f: FreeNights, arr: Date, dep: Date)
    requires RatesShaped(rates) && Valid(arr) && Valid(dep) && Diff(arr, dep) >= 0
    requires Guests.Sorted(party.children)
    requires f.pattern.None? && f.required >= 1
    requires forall i :: 0 <= i < |rates| ==> rates[i].nightCnt == 1
    ensures var r := MatchRates(rates, party, std, Some(f), arr, dep);
      r.Matched? ==> forall d :: d in r.free <==> EndNight(f, arr, dep, arr, d)
  {
    WalkSingleNights(rates, party, std, Some(f), arr, dep);
    FreeNightsAtEnd(rates, party, std, f, arr, dep, arr);
  }

  // --------------------------------------------------------- supplements

  /** `date_dow(d) - 1`, wrapped to 0..6: Monday 0, ..., Sunday 6, as the ALPINEBITSDOW pattern counts. */
  function DowIndex(d: Date): (i: nat)
    requires Valid(d)
    ensures i < 7 && i == (Weekday(d) + 6) % 7
  {
    var k := Dow(d) - 1;
    if k < 0 then k + 7 else k
  }

  /** Charge type 12/18 and 20 are per stay, spread evenly over the nights. */
  predicate PerStay(ctc: string) {
    ctc == "12" || ctc == "18" || ctc == "20"
  }

  /** Charge types 1/19 and 21 are per night and waived on a free night. */
  predicate PerNight(ctc: string) {
    ctc == "1" || ctc == "19" || ctc == "21"
  }

  /**
   * One day of a supplement group: None when the day is excluded by the
   * group's ALPINEBITSDOW pattern or no dynamic record covers it for the
   * room type; otherwise the amount as the charge type demands.
   */
  function DayCharge(m: Supplements.Merged, d: Date, room: string, freeDates: set<Date>, nights: nat, pax: nat): (r: Option<real>)
    requires m.Merged? && Supplements.MergedOk(m) && Valid(d) && nights >= 1
    ensures r.Some? ==> m.preDow[DowIndex(d)] == '1' && Supplements.DayAmount(m.dyn, d, room).Some?
    ensures r.Some? && PerNight(m.ctc) && d in freeDates ==> r.value == 0.0
    ensures m.preDow[DowIndex(d)] == '1' && Supplements.DayAmount(m.dyn, d, room).Some? ==> r.Some?
  {
    if m.preDow[DowIndex(d)] != '1' then None
    else
      match Supplements.DayAmount(m.dyn, d, room)
      case None => None
      case Some(a) =>
        Some(
          if m.ctc == "1" || m.ctc == "19" then (if d in freeDates then 0.0 else a)
          else if m.ctc == "12" || m.ctc == "18" then a / nights as real
          else if m.ctc == "20" then Times(pax, a / nights as real)
          else if m.ctc == "21" then (if d in freeDates then 0.0 else Times(pax, a))
          else a)
  }

  /**
   * The while loop of match_supps for a group that is not an item: every
   * day from `dt` up to the departure adds its charge, or nothing when the
   * day is not charged.
   */
  function SpreadSum(m: Supplements.Merged, room: string, freeDates: set<Date>, nights: nat, pax: nat,
                     dt: Date, dep: Date): (r: real)
    requires m.Merged? && Supplements.MergedOk(m) && Valid(dt) && Valid(dep) && nights >= 1
    requires Diff(dt, dep) >= 0
    ensures Diff(dt, dep) == 0 ==> r == 0.0
    decreases Diff(dt, dep)
  {
    if Diff(dt, dep) == 0 then 0.0
    else
      var next := AddDays(dt, 1).value;
      DayCharge(m, dt, room, freeDates, nights, pax).GetOr(0.0) + SpreadSum(m, room, freeDates, nights, pax, next, dep)
  }

  /** One day of the walk: the day's charge plus the rest of the stretch. */
  lemma SpreadStep(m: Supplements.Merged, room: string, freeDates: set<Date>, nights: nat, pax: nat, dt: Date, dep: Date)
    requires m.Merged? && Supplements.MergedOk(m) && Valid(dt) && Valid(dep) && nights >= 1
    requires Diff(dt, dep) > 0
    ensures Valid(AddDays(dt, 1).value) && Diff(AddDays(dt, 1).value, dep) >= 0
    ensures SpreadSum(m, room, freeDates, nights, pax, dt, dep) ==
      DayCharge(m, dt, room, freeDates, nights, pax).GetOr(0.0) + SpreadSum(m, room, freeDates, nights, pax, AddDays(dt, 1).value, dep)
  {
  }

  /** Charge type 21 is charge type 19 for every person: over any stretch of days it charges pax times as much. */
  lemma {:induction false} PerPersonNightly(m: Supplements.Merged, room: string, freeDates: set<Date>, nights: nat, pax: nat,
                                            dt: Date, dep: Date)
    requires m.Merged? && Supplements.MergedOk(m) && m.ctc == "19" && Valid(dt) && Valid(dep) && nights >= 1
    requires Diff(dt, dep) >= 0
    ensures Supplements.MergedOk(m.(ctc := "21"))
    ensures SpreadSum(m.(ctc := "21"), room, freeDates, nights, pax, dt, dep) ==
      Times(pax, SpreadSum(m, room, freeDates, nights, pax, dt, dep))
    decreases Diff(dt, dep)
  {
    var m21 := m.(ctc := "21");
    assert m21.ctc == Supplements.ChargeTypes[5];
    if Diff(dt, dep) > 0 {
      var next := AddDays(dt, 1).value;
      PerPersonNightly(m, room, freeDates, nights, pax, next, dep);
      NightlyDay(m, dt, room, freeDates, nights, pax);
      SpreadStep(m, room, freeDates, nights, pax, dt, dep);
      SpreadStep(m21, room, freeDates, nights, pax, dt, dep);
      ScaleStep(pax, SpreadSum(m, room, freeDates, nights, pax, dt, dep),
                DayCharge(m, dt, room, freeDates, nights, pax).GetOr(0.0), SpreadSum(m, room, freeDates, nights, pax, next, dep),
                SpreadSum(m21, room, freeDates, nights, pax, dt, dep),
                DayCharge(m21, dt, room, freeDates, nights, pax).GetOr(0.0), SpreadSum(m21, room, freeDates, nights, pax, next, dep));
    } else {
      TimesZero(pax);
    }
  }

  /** Charge type 20 is charge type 12 for every person: over any stretch of days it charges pax times as much. */
  lemma {:induction false} PerPersonPerStay(m: Supplements.Merged, room: string, freeDates: set<Date>, nights: nat, pax: nat,
                                            dt: Date, dep: Date)
    requires m.Merged? && Supplements.MergedOk(m) && m.ctc == "12" && Valid(dt) && Valid(dep) && nights >= 1
    requires Diff(dt, dep) >= 0
    ensures Supplements.MergedOk(m.(ctc := "20"))
    ensures SpreadSum(m.(ctc := "20"), room, freeDates, nights, pax, dt, dep) ==
      Times(pax, SpreadSum(m, room, freeDates, nights, pax, dt, dep))
    decreases Diff(dt, dep)
  {
    var m20 := m.(ctc := "20");
    assert m20.ctc == Supplements.ChargeTypes[4];
    if Diff(dt, dep) > 0 {
      var next := AddDays(dt, 1).value;
      PerPersonPerStay(m, room, freeDates, nights, pax, next, dep);
      PerStayPersonDay(m, dt, room, freeDates, nights, pax);
      SpreadStep(m, room, freeDates, nights, pax, dt, dep);
      SpreadStep(m20, room, freeDates, nights, pax, dt, dep);
      ScaleStep(pax, SpreadSum(m, room, freeDates, nights, pax, dt, dep),
                DayCharge(m, dt, room, freeDates, nights, pax).GetOr(0.0), SpreadSum(m, room, freeDates, nights, pax, next, dep),
                SpreadSum(m20, room, freeDates, nights, pax, dt, dep),
                DayCharge(m20, dt, room, freeDates, nights, pax).GetOr(0.0), SpreadSum(m20, room, freeDates, nights, pax, next, dep));
    } else {
      TimesZero(pax);
    }
  }

  /** A stretch of days scales by `pax` when its first day and the rest both do. */
  lemma ScaleStep(pax: nat, sum: real, day: real, rest: real, sum2: real, day2: real, rest2: real)
    requires sum == day + rest && sum2 == day2 + rest2
    requires day2 == Times(pax, day) && rest2 == Times(pax, rest)
    ensures sum2 == Times(pax, sum)
  {
    TimesAdd(pax, day, rest);
  }

  /** Under a per-night charge type ("1" or "19") a covered day that is not free costs the day's amount. */
  lemma PerNightDay(m: Supplements.Merged, d: Date, room: string, freeDates: set<Date>, nights: nat, pax: nat, a: real)
    requires m.Merged? && Supplements.MergedOk(m) && Valid(d) && nights >= 1 && (m.ctc == "1" || m.ctc == "19")
    requires m.preDow[DowIndex(d)] == '1' && Supplements.DayAmount(m.dyn, d, room) == Some(a) && d !in freeDates
    ensures DayCharge(m, d, room, freeDates, nights, pax) == Some(a)
  {
  }

  /** On any one day, charge type 21 charges pax times what charge type 19 charges for the same group. */
  lemma NightlyDay(m: Supplements.Merged, d: Date, room: string, freeDates: set<Date>, nights: nat, pax: nat)
    requires m.Merged? && Supplements.MergedOk(m) && m.ctc == "19" && Valid(d) && nights >= 1
    requires Supplements.MergedOk(m.(ctc := "21"))
    ensures DayCharge(m.(ctc := "21"), d, room, freeDates, nights, pax).GetOr(0.0) ==
      Times(pax, DayCharge(m, d, room, freeDates, nights, pax).GetOr(0.0))
  {
    TimesZero(pax);
  }

  /** On any one day, charge type 20 charges pax times what charge type 12 charges for the same group. */
  lemma PerStayPersonDay(m: Supplements.Merged, d: Date, room: string, freeDates: set<Date>, nights: nat, pax: nat)
    requires m.Merged? && Supplements.MergedOk(m) && m.ctc == "12" && Valid(d) && nights >= 1
    requires Supplements.MergedOk(m.(ctc := "20"))
    ensures DayCharge(m.(ctc := "20"), d, room, freeDates, nights, pax).GetOr(0.0) ==
      Times(pax, DayCharge(m, d, room, freeDates, nights, pax).GetOr(0.0))
  {
    TimesZero(pax);
  }

  /**
   * The same loop for an item (charge type 24): the first charged day from
   * `dt` on, with its charge; the loop stops there.
   */
  function FirstCharge(m: Supplements.Merged, room: string, freeDates: set<Date>, nights: nat, pax: nat,
                       dt: Date, dep: Date): (r: Option<(Date, real)>)
    requires m.Merged? && Supplements.MergedOk(m) && Valid(dt) && Valid(dep) && nights >= 1
    requires Diff(dt, dep) >= 0
    ensures r.Some? ==> Valid(r.value.0)
    decreases Diff(dt, dep)
  {
    if Diff(dt, dep) == 0 then None
    else
      var c := DayCharge(m, dt, room, freeDates, nights, pax);
      if c.Some? then Some((dt, c.value))
      else FirstCharge(m, room, freeDates, nights, pax, AddDays(dt, 1).value, dep)
  }

  /**
   * One mandatory group over the stay from `dt`: an item ends the group on
   * its first charged day, and the loop then steps past the departure,
   * which fails when the departure is 9999-12-31; every other charge type
   * adds up its days.
   */
  function SuppWalk(m: Supplements.Merged, room: string, freeDates: set<Date>, nights: nat, pax: nat,
                    dt: Date, dep: Date): (r: Result<real>)
    requires m.Merged? && Supplements.MergedOk(m) && Valid(dt) && Valid(dep) && nights >= 1
    requires Diff(dt, dep) >= 0
    ensures m.ctc != "24" ==> r == Ok(SpreadSum(m, room, freeDates, nights, pax, dt, dep))
    ensures r.Err? <==> m.ctc == "24" && FirstCharge(m, room, freeDates, nights, pax, dt, dep).Some? && dep == MaxDate
    ensures r.Err? ==> r.error == DateErr(OutOfRange)
    ensures m.ctc == "24" && r.Ok? ==>
      var f := FirstCharge(m, room, freeDates, nights, pax, dt, dep);
      r.value == if f.Some? then f.value.1 else 0.0
  {
    if m.ctc == "24" then
      match FirstCharge(m, room, freeDates, nights, pax, dt, dep)
      case None => Ok(0.0)
      case Some((_, v)) =>
        MinMaxBound(dep);
        var past :- AddDays(dep, 1);
        Ok(v)
    else Ok(SpreadSum(m, room, freeDates, nights, pax, dt, dep))
  }

  /** The item is charged on a day of the stay, and no earlier day of the stay carries a charge. */
  lemma {:induction false} FirstChargeIsFirst(m: Supplements.Merged, room: string, freeDates: set<Date>, nights: nat, pax: nat,
                                              dt: Date, dep: Date)
    requires m.Merged? && Supplements.MergedOk(m) && Valid(dt) && Valid(dep) && nights >= 1
    requires Diff(dt, dep) >= 0
    ensures var f := FirstCharge(m, room, freeDates, nights, pax, dt, dep);
      (f.Some? ==> Diff(dt, f.value.0) >= 0 && Diff(f.value.0, dep) > 0 &&
                   DayCharge(m, f.value.0, room, freeDates, nights, pax) == Some(f.value.1)) &&
      forall d :: (Valid(d) && Diff(dt, d) >= 0 && Diff(d, dep) > 0 && (f.None? || Diff(d, f.value.0) > 0)) ==>
        DayCharge(m, d, room, freeDates, nights, pax).None?
    decreases Diff(dt, dep)
  {
    var f := FirstCharge(m, room, freeDates, nights, pax, dt, dep);
    if Diff(dt, dep) > 0 {
      var c := DayCharge(m, dt, room, freeDates, nights, pax);
      if c.None? {
        var next := AddDays(dt, 1).value;
        assert f == FirstCharge(m, room, freeDates, nights, pax, next, dep);
        FirstChargeIsFirst(m, room, freeDates, nights, pax, next, dep);
        forall d | Valid(d) && Diff(dt, d) >= 0 && Diff(d, dep) > 0 && (f.None? || Diff(d, f.value.0) > 0)
          ensures DayCharge(m, d, room, freeDates, nights, pax).None?
        {
          if Diff(next, d) < 0 {
            DiffProperties(dt, d, 0);
          }
        }
      } else {
        assert f == Some((dt, c.value));
      }
    }
  }

  /** A day covered by amount `a` contributes a 1/nights share of it under a per-stay charge type. */
  lemma PerStayDay(m: Supplements.Merged, d: Date, room: string, freeDates: set<Date>, nights: nat, pax: nat, a: real)
    requires m.Merged? && Supplements.MergedOk(m) && Valid(d) && nights >= 1 && (m.ctc == "12" || m.ctc == "18")
    requires m.preDow[DowIndex(d)] == '1' && Supplements.DayAmount(m.dyn, d, room) == Some(a)
    ensures DayCharge(m, d, room, freeDates, nights, pax) == Some(a / nights as real)
  {
  }

  /** When every day from `dt` to the departure charges the same `q`, the group adds up to one `q` per day. */
  lemma {:induction false} SpreadUniform(m: Supplements.Merged, room: string, freeDates: set<Date>, nights: nat, pax: nat,
                                         dt: Date, dep: Date, q: real)
    requires m.Merged? && Supplements.MergedOk(m) && Valid(dt) && Valid(dep) && nights >= 1
    requires Diff(dt, dep) >= 0
    requires forall d :: Valid(d) && Diff(dt, d) >= 0 && Diff(d, dep) > 0 ==>
      DayCharge(m, d, room, freeDates, nights, pax) == Some(q)
    ensures SpreadSum(m, room, freeDates, nights, pax, dt, dep) == Times(Diff(dt, dep), q)
    decreases Diff(dt, dep)
  {
    if Diff(dt, dep) > 0 {
      assert Diff(dt, dt) >= 0;
      var next := AddDays(dt, 1).value;
      forall d | Valid(d) && Diff(next, d) >= 0 && Diff(d, dep) > 0
        ensures DayCharge(m, d, room, freeDates, nights, pax) == Some(q)
      {
        assert Diff(dt, d) >= 0;
      }
      SpreadUniform(m, room, freeDates, nights, pax, next, dep, q);
      assert Diff(next, dep) == Diff(dt, dep) - 1;
    }
  }

  /** `n` shares of `a / n` add up to `a`. */
  lemma TimesShare(n: nat, a: real)
    requires n >= 1
    ensures Times(n, a / n as real) == a
  {
    TimesIsProduct(n, a / n as real);
    MulDiv(a, n as real);
  }

  /** Over a stay of `nights` nights fully covered by amount `a`, a per-stay supplement costs `a`. */
  lemma PerStayOnce(m: Supplements.Merged, room: string, freeDates: set<Date>, pax: nat, arr: Date, dep: Date, a: real)
    requires m.Merged? && Supplements.MergedOk(m) && Valid(arr) && Valid(dep) && Diff(arr, dep) >= 1
    requires m.ctc == "12" || m.ctc == "18"
    requires forall d :: Valid(d) && Diff(arr, d) >= 0 && Diff(d, dep) > 0 ==>
      m.preDow[DowIndex(d)] == '1' && Supplements.DayAmount(m.dyn, d, room) == Some(a)
    ensures SuppWalk(m, room, freeDates, Diff(arr, dep), pax, arr, dep) == Ok(a)
  {
    var n := Diff(arr, dep);
    forall d | Valid(d) && Diff(arr, d) >= 0 && Diff(d, dep) > 0
      ensures DayCharge(m, d, room, freeDates, n, pax) == Some(a / n as real)
    {
      PerStayDay(m, d, room, freeDates, n, pax, a);
    }
    SpreadUniform(m, room, freeDates, n, pax, arr, dep, a / n as real);
    TimesShare(n, a);
  }

  /** The contribution of one merged group: nothing unless the group exists and is mandatory. */
  function MergedCharge(m: Supplements.Merged, room: string, freeDates: set<Date>, pax: nat, arr: Date, dep: Date): (r: Result<real>)
    requires Supplements.MergedOk(m) && Valid(arr) && Valid(dep) && Diff(arr, dep) >= 1
    ensures m.NoSupplements? || !m.mandatory ==> r == Ok(0.0)
    ensures r.Err? ==> m.Merged? && m.mandatory && m.ctc == "24" && dep == MaxDate && r.error == DateErr(OutOfRange)
  {
    if m.NoSupplements? || !m.mandatory then Ok(0.0)
    else SuppWalk(m, room, freeDates, Diff(arr, dep), pax, arr, dep)
  }

  /** The contribution of one supplement code, given what loading its group yielded. */
  function LoadedCharge(g: Result<Supplements.Merged>, room: string, freeDates: set<Date>, pax: nat, arr: Date, dep: Date): (r: Result<real>)
    requires g.Ok? ==> Supplements.MergedOk(g.value)
    requires Valid(arr) && Valid(dep) && Diff(arr, dep) >= 1
    ensures g.Err? ==> r == Err(g.error)
  {
    var m :- g;
    MergedCharge(m, room, freeDates, pax, arr, dep)
  }

  /** The contribution of one supplement code: nothing unless the group exists and is mandatory. */
  function GroupCharge(plan: Tree.Element, code: string, room: string, freeDates: set<Date>, pax: nat,
                       arr: Date, dep: Date): (r: Result<real>)
    requires Valid(arr) && Valid(dep) && Diff(arr, dep) >= 1
    ensures Supplements.GetMergedSupp(plan, code).Err? ==> r == Err(Supplements.GetMergedSupp(plan, code).error)
    ensures Supplements.GetMergedSupp(plan, code).Ok? ==>
      var m := Supplements.GetMergedSupp(plan, code).value;
      (m.NoSupplements? || !m.mandatory ==> r == Ok(0.0)) &&
      (m.Merged? && m.mandatory ==> r == SuppWalk(m, room, freeDates, Diff(arr, dep), pax, arr, dep))
  {
    LoadedCharge(Supplements.GetMergedSupp(plan, code), room, freeDates, pax, arr, dep)
  }

  /** The contribution of every supplement code, in order. */
  function GroupCharges(plan: Tree.Element, codes: seq<string>, room: string, freeDates: set<Date>, pax: nat,
                        arr: Date, dep: Date): (r: seq<Result<real>>)
    requires Valid(arr) && Valid(dep) && Diff(arr, dep) >= 1
    ensures |r| == |codes| && forall i :: 0 <= i < |codes| ==> r[i] == GroupCharge(plan, codes[i], room, freeDates, pax, arr, dep)
  {
    seq(|codes|, i requires 0 <= i < |codes| => GroupCharge(plan, codes[i], room, freeDates, pax, arr, dep))
  }

  function Sum(xs: seq<real>): real {
    if |xs| == 0 then 0.0 else xs[0] + Sum(xs[1..])
  }

  /** match_supps: the mandatory supplements of the stay for one room type, rounded to three places. */
  function MatchSupps(plan: Tree.Element, arr: Date, dep: Date, pax: nat, freeDates: set<Date>, room: string): (r: Result<real>)
    requires Valid(arr) && Valid(dep) && Diff(arr, dep) >= 1
    ensures Supplements.GetUniqueSuppCodes(plan).Err? ==> r == Err(Supplements.GetUniqueSuppCodes(plan).error)
    ensures Supplements.GetUniqueSuppCodes(plan).Ok? ==>
      var charges := GroupCharges(plan, Supplements.GetUniqueSuppCodes(plan).value, room, freeDates, pax, arr, dep);
      (r.Ok? <==> forall i :: 0 <= i < |charges| ==> charges[i].Ok?) &&
      (r.Ok? ==> r.value == Round3(Sum(Collect(charges).value)))
  {
    var codes :- Supplements.GetUniqueSuppCodes(plan);
    var charges :- Collect(GroupCharges(plan, codes, room, freeDates, pax, arr, dep));
    Ok(Round3(Sum(charges)))
  }

  // ------------------------------------------------- supplements, preloaded

  /** What the supplement groups of a plan load to, each group's load kept with its error. */
  predicate GroupsOk(groups: seq<Result<Supplements.Merged>>) {
    forall i :: 0 <= i < |groups| ==> (groups[i].Ok? ==> Supplements.MergedOk(groups[i].value))
  }

  /** get_unique_codes of the Supplements, then get_merged_supp_by_code of every code, in order. */
  function LoadSupps(plan: Tree.Element): (r: Result<seq<Result<Supplements.Merged>>>)
    ensures Supplements.GetUniqueSuppCodes(plan).Err? ==> r == Err(Supplements.GetUniqueSuppCodes(plan).error)
    ensures r.Ok? ==> GroupsOk(r.value)
    ensures r.Ok? ==> |r.value| == |Supplements.GetUniqueSuppCodes(plan).value|
    ensures r.Ok? ==> forall i :: 0 <= i < |r.value| ==>
      r.value[i] == Supplements.GetMergedSupp(plan, Supplements.GetUniqueSuppCodes(plan).value[i])
  {
    var codes :- Supplements.GetUniqueSuppCodes(plan);
    Ok(seq(|codes|, i requires 0 <= i < |codes| => Supplements.GetMergedSupp(plan, codes[i])))
  }

  /** The charge of every loaded group, in order. */
  function LoadedCharges(groups: seq<Result<Supplements.Merged>>, room: string, freeDates: set<Date>, pax: nat,
                         arr: Date, dep: Date): (r: seq<Result<real>>)
    requires GroupsOk(groups) && Valid(arr) && Valid(dep) && Diff(arr, dep) >= 1
    ensures |r| == |groups| && forall i :: 0 <= i < |groups| ==> r[i] == LoadedCharge(groups[i], room, freeDates, pax, arr, dep)
  {
    seq(|groups|, i requires 0 <= i < |groups| => LoadedCharge(groups[i], room, freeDates, pax, arr, dep))
  }

  /**
   * match_supps over preloaded groups: the first group that failed to load
   * or to price fails the whole; otherwise the sum of the charges, rounded
   * to three places.
   */
  function SuppCharges(loaded: Result<seq<Result<Supplements.Merged>>>, room: string, freeDates: set<Date>, pax: nat,
                       arr: Date, dep: Date): (r: Result<real>)
    requires loaded.Ok? ==> GroupsOk(loaded.value)
    requires Valid(arr) && Valid(dep) && Diff(arr, dep) >= 1
    ensures loaded.Err? ==> r == Err(loaded.error)
    ensures loaded.Ok? ==>
      var charges := LoadedCharges(loaded.value, room, freeDates, pax, arr, dep);
      (r.Ok? <==> forall i :: 0 <= i < |charges| ==> charges[i].Ok?) &&
      (r.Ok? ==> r.value == Round3(Sum(Collect(charges).value)))
  {
    var groups :- loaded;
    var charges :- Collect(LoadedCharges(groups, room, freeDates, pax, arr, dep));
    Ok(Round3(Sum(charges)))
  }

  /** Loading the groups first and pricing them afterwards yields match_supps exactly, errors included. */
  lemma SuppChargesMatch(plan: Tree.Element, arr: Date, dep: Date, pax: nat, freeDates: set<Date>, room: string)
    requires Valid(arr) && Valid(dep) && Diff(arr, dep) >= 1
    ensures SuppCharges(LoadSupps(plan), room, freeDates, pax, arr, dep) == MatchSupps(plan, arr, dep, pax, freeDates, room)
  {
    var codes := Supplements.GetUniqueSuppCodes(plan);
    if codes.Ok? {
      var groups := LoadSupps(plan).value;
      assert LoadedCharges(groups, room, freeDates, pax, arr, dep) ==
             GroupCharges(plan, codes.value, room, freeDates, pax, arr, dep);
    }
  }
}
