/**
 * The Offer elements of a rate plan (lib/utildisc.js). The first Offer
 * carries the restrictions of the plan (length of stay, arrival and
 * departure weekdays, who counts as adult or child and how many of each may
 * stay); every later Offer is a 100% discount, either "free nights" or
 * "family" (some children stay for free).
 *
 * Three comparisons in utildisc.js compare the raw attribute strings, so
 * they follow the lexicographic order of JavaScript strings rather than the
 * numeric one: MinOccupancy against MaxOccupancy, LastQualifyingPosition
 * against MinCount and NightsDiscounted against NightsRequired.
 */
module Discounts {
  import opened Wrappers
  import opened Errors
  import opened Text
  import opened Tree
  import opened StayRules


  const OfferLosMessages := LosMessages(
    OfferErr(OfferManyStays),
    OfferErr(OfferStayNoAttrs),
    OfferErr(OfferBadTime),
    OfferErr(OfferBadUnit),
    OfferErr(OfferTwoMin),
    OfferErr(OfferTwoMax),
    OfferErr(OfferBadType),
    OfferErr(OfferMinAboveMax))

  const OfferDowMessages := DowMessages(
    OfferErr(OfferManyDows),
    OfferErr(OfferManyArrival),
    OfferErr(OfferBadArrival),
    OfferErr(OfferManyDeparture),
    OfferErr(OfferBadDeparture))



  // XML element and attribute names.
  const DOWRestrictionsTag := "DOW_Restrictions"
  const DiscountTag := "Discount"
  const DiscountPatternAttr := "DiscountPattern"
  const FirstQualifyingPositionAttr := "FirstQualifyingPosition"
  const GuestTag := "Guest"
  const GuestsTag := "Guests"
  const LastQualifyingPositionAttr := "LastQualifyingPosition"
  const LengthsOfStayTag := "LengthsOfStay"
  const MaxAgeAttr := "MaxAge"
  const MaxOccupancyAttr := "MaxOccupancy"
  const MinAgeAttr := "MinAge"
  const MinCountAttr := "MinCount"
  const MinOccupancyAttr := "MinOccupancy"
  const NightsDiscountedAttr := "NightsDiscounted"
  const NightsRequiredAttr := "NightsRequired"
  const OccupancyTag := "Occupancy"
  const OfferTag := "Offer"
  const OfferRuleTag := "OfferRule"
  const OfferRulesTag := "OfferRules"
  const OffersTag := "Offers"
  const PercentAttr := "Percent"
  const Hundred := "100"
  const One := "1"

  // ------------------------------------------------------------- records

  /**
   * The restrictions of the first Offer. Guests of adultMinAge or older are
   * adults; children are aged childMinAge <= age < childMaxAge.
   */
  datatype Restrictions = Restrictions(
    los: Los, arrivalDow: seq<bool>, departureDow: seq<bool>,
    adultMinAge: Option<nat>, adultMinOcc: Option<nat>, adultMaxOcc: Option<nat>,
    childSeen: bool, childMinAge: Option<nat>, childMaxAge: Option<nat>,
    childMinOcc: Option<nat>, childMaxOcc: Option<nat>)

  /** Up to `freeCount` children younger than `maxAge` stay free when at least `minCount` of them come. */
  datatype Family = Family(maxAge: nat, minCount: nat, freeCount: nat)

  /** Of every `required` nights the last `discounted` are free; without a pattern only once, at the end of the stay. */
  datatype FreeNights = FreeNights(required: nat, discounted: nat, pattern: Option<string>)

  datatype Discount = Discount(restrictions: Restrictions, freeNights: Option<FreeNights>, family: Option<Family>)

  // ------------------------------------------------------------ occupancy

  const AgeCode := "AgeQualifyingCode"
  const AdultCode := "10"
  const ChildCode := "8"

  /** One Occupancy element after validation. */
  datatype Occ = Occ(minAge: Option<nat>, maxAge: Option<nat>, minOcc: Option<nat>, maxOcc: Option<nat>)

  /** An optional age attribute: absent, or a positive whole number up to 18. */
  predicate AgeOk(v: Option<string>) {
    v.None? || (IsPositiveInt(v.value) && DigitsValue(v.value) <= 18)
  }

  /** An optional occupancy attribute: absent, or a positive whole number up to 99. */
  predicate CountOk(v: Option<string>) {
    v.None? || (IsPositiveInt(v.value) && DigitsValue(v.value) <= 99)
  }

  /** `minocc > maxocc` on the raw strings does not hold. */
  predicate OccOrderOk(x: Element) {
    !(Attr(x, MinOccupancyAttr).Some? && Attr(x, MaxOccupancyAttr).Some? &&
      StrLess(Attr(x, MaxOccupancyAttr).value, Attr(x, MinOccupancyAttr).value))
  }

  /** `Number(v)` of an attribute already known to be digits. */
  function NumOf(v: Option<string>): (r: Option<nat>)
    ensures r.Some? <==> v.Some? && AllDigits(v.value)
  {
    if v.Some? && AllDigits(v.value) then Some(DigitsValue(v.value)) else None
  }

  /** The child MinAge is not at or above the child MaxAge. */
  predicate ChildAgesOrdered(x: Element)
    requires AgeOk(Attr(x, MinAgeAttr)) && AgeOk(Attr(x, MaxAgeAttr))
  {
    !(Attr(x, MinAgeAttr).Some? && Attr(x, MaxAgeAttr).Some? &&
      DigitsValue(Attr(x, MinAgeAttr).value) >= DigitsValue(Attr(x, MaxAgeAttr).value))
  }

  predicate AdultOccOk(x: Element) {
    Attr(x, MaxAgeAttr).None? && AgeOk(Attr(x, MinAgeAttr)) &&
    CountOk(Attr(x, MinOccupancyAttr)) && CountOk(Attr(x, MaxOccupancyAttr)) && OccOrderOk(x)
  }

  predicate ChildOccOk(x: Element) {
    AgeOk(Attr(x, MinAgeAttr)) && AgeOk(Attr(x, MaxAgeAttr)) && ChildAgesOrdered(x) &&
    CountOk(Attr(x, MinOccupancyAttr)) && CountOk(Attr(x, MaxOccupancyAttr)) && OccOrderOk(x)
  }

  /** What the loop demands of one Occupancy element on its own. */
  predicate OccOk(x: Element) {
    HasAttrs(x) &&
    ((Attr(x, AgeCode) == Some(AdultCode) && AdultOccOk(x)) ||
     (Attr(x, AgeCode) == Some(ChildCode) && ChildOccOk(x)))
  }

  /** The record of an Occupancy element. */
  function OccOf(x: Element): Occ {
    Occ(NumOf(Attr(x, MinAgeAttr)), NumOf(Attr(x, MaxAgeAttr)),
        NumOf(Attr(x, MinOccupancyAttr)), NumOf(Attr(x, MaxOccupancyAttr)))
  }

  /** The bounds every validated Occupancy record satisfies. */
  predicate OccBounds(o: Occ) {
    (o.minAge.Some? ==> 1 <= o.minAge.value <= 18) &&
    (o.maxAge.Some? ==> 1 <= o.maxAge.value <= 18) &&
    (o.minOcc.Some? ==> 1 <= o.minOcc.value <= 99) &&
    (o.maxOcc.Some? ==> 1 <= o.maxOcc.value <= 99) &&
    (o.minAge.Some? && o.maxAge.Some? ==> o.minAge.value < o.maxAge.value)
  }

  /** The minimum/maximum occupancy checks shared by both codes. */
  function OccCounts(x: Element, badMin: Error, badMax: Error, badOrder: Error): (r: Outcome)
    ensures r.Pass? <==> CountOk(Attr(x, MinOccupancyAttr)) && CountOk(Attr(x, MaxOccupancyAttr)) && OccOrderOk(x)
  {
    if !CountOk(Attr(x, MinOccupancyAttr)) then Fail(badMin)
    else if !CountOk(Attr(x, MaxOccupancyAttr)) then Fail(badMax)
    else Need(OccOrderOk(x), badOrder)
  }

  /** The checks of one Occupancy element after its repetition check, in the order utildisc.js makes them. */
  function OccEntry(x: Element): (r: Result<Occ>)
    ensures r.Ok? <==> OccOk(x)
    ensures r.Ok? ==> r.value == OccOf(x) && OccBounds(r.value)
    ensures r.Ok? && Attr(x, AgeCode) == Some(AdultCode) ==> r.value.maxAge.None?
  {
    if !HasAttrs(x) then Err(OfferErr(OccNoAttrs))
    else if Attr(x, AgeCode) == Some(AdultCode) then
      if Attr(x, MaxAgeAttr).Some? then Err(OfferErr(AdultMaxAge))
      else if !AgeOk(Attr(x, MinAgeAttr)) then Err(OfferErr(AdultMinAge))
      else
        :- OccCounts(x, OfferErr(AdultMinOcc), OfferErr(AdultMaxOcc), OfferErr(AdultOccOrder));
        Ok(OccOf(x))
    else if Attr(x, AgeCode) == Some(ChildCode) then
      if !AgeOk(Attr(x, MinAgeAttr)) then Err(OfferErr(ChildMinAge))
      else if !AgeOk(Attr(x, MaxAgeAttr)) then Err(OfferErr(ChildMaxAge))
      else if !ChildAgesOrdered(x) then Err(OfferErr(ChildAgeOrder))
      else
        :- OccCounts(x, OfferErr(ChildMinOcc), OfferErr(ChildMaxOcc), OfferErr(ChildOccOrder));
        Ok(OccOf(x))
    else Err(OfferErr(OccBadCode))
  }

  /** Reference definition: the record of the first element carrying `code`. */
  function OccWithCode(occ: seq<Element>, code: string): Option<Occ> {
    if |occ| == 0 then None
    else if HasAttrs(occ[0]) && Attr(occ[0], AgeCode) == Some(code) then Some(OccOf(occ[0]))
    else OccWithCode(occ[1..], code)
  }

  /** The Occupancy elements: one or two valid elements, never two with the same code. */
  predicate OccListOk(occ: seq<Element>) {
    1 <= |occ| <= 2 && (forall i :: 0 <= i < |occ| ==> OccOk(occ[i])) &&
    (|occ| == 2 ==> Attr(occ[0], AgeCode) != Attr(occ[1], AgeCode))
  }

  /** The Occupancy loop: the adult record and the child record, each present when its code is. */
  function OccEntries(occ: seq<Element>): (r: Result<(Option<Occ>, Option<Occ>)>)
    ensures r.Ok? <==> OccListOk(occ)
    ensures r.Ok? ==> r.value.0 == OccWithCode(occ, AdultCode) && r.value.1 == OccWithCode(occ, ChildCode)
    ensures r.Ok? && r.value.0.Some? ==> OccBounds(r.value.0.value) && r.value.0.value.maxAge.None?
    ensures r.Ok? && r.value.1.Some? ==> OccBounds(r.value.1.value)
  {
    if !(1 <= |occ| <= 2) then Err(OfferErr(OccCount))
    else
      var first :- OccEntry(occ[0]);
      var firstAdult := Attr(occ[0], AgeCode) == Some(AdultCode);
      if |occ| == 1 then
        if firstAdult then Ok((Some(first), None)) else Ok((None, Some(first)))
      else if !HasAttrs(occ[1]) then Err(OfferErr(OccNoAttrs))
      else if Attr(occ[1], AgeCode) == Attr(occ[0], AgeCode) then
        if firstAdult then Err(OfferErr(AdultRepeated)) else Err(OfferErr(ChildRepeated))
      else
        var second :- OccEntry(occ[1]);
        assert occ[1..][0] == occ[1];
        if firstAdult then Ok((Some(first), Some(second))) else Ok((Some(second), Some(first)))
  }

  /** The cross-checks between the adult and the child Occupancy. */
  predicate OccCrossOk(adult: Occ, child: Option<Occ>) {
    (adult.minAge.Some? <==> child.Some?) &&
    (adult.minAge.Some? && child.Some? && child.value.maxAge.Some? ==> child.value.maxAge.value <= adult.minAge.value) &&
    (adult.minAge.Some? && child.Some? && child.value.minAge.Some? ==> child.value.minAge.value < adult.minAge.value)
  }

  function OccCross(adult: Occ, child: Option<Occ>): (r: Outcome)
    ensures r.Pass? <==> OccCrossOk(adult, child)
  {
    if adult.minAge.None? && child.Some? then Fail(OfferErr(ChildWithoutAdultAge))
    else if adult.minAge.Some? && child.None? then Fail(OfferErr(AdultAgeWithoutChild))
    else if adult.minAge.Some? && child.Some? && child.value.maxAge.Some? &&
            child.value.maxAge.value > adult.minAge.value then Fail(OfferErr(ChildMaxAboveAdult))
    else Need(!(adult.minAge.Some? && child.Some? && child.value.minAge.Some? &&
                child.value.minAge.value >= adult.minAge.value), OfferErr(ChildMinAboveAdult))
  }

  // -------------------------------------------------------- restrictions

  /** The invariants of the restrictions get_discount returns. */
  predicate RestrictionsOk(r: Restrictions) {
    (r.los.min.Some? && r.los.max.Some? ==> r.los.min.value <= r.los.max.value) &&
    |r.arrivalDow| == 7 && |r.departureDow| == 7 &&
    (r.adultMinAge.Some? <==> r.childSeen) &&
    (r.adultMinAge.Some? ==> 1 <= r.adultMinAge.value <= 18) &&
    (r.childMinAge.Some? ==> 1 <= r.childMinAge.value <= 18 && r.childSeen) &&
    (r.childMaxAge.Some? ==> 1 <= r.childMaxAge.value <= 18 && r.childSeen) &&
    (r.childMinAge.Some? && r.childMaxAge.Some? ==> r.childMinAge.value < r.childMaxAge.value) &&
    (r.adultMinAge.Some? && r.childMaxAge.Some? ==> r.childMaxAge.value <= r.adultMinAge.value) &&
    (r.adultMinAge.Some? && r.childMinAge.Some? ==> r.childMinAge.value < r.adultMinAge.value) &&
    (r.adultMinOcc.Some? ==> 1 <= r.adultMinOcc.value <= 99) &&
    (r.adultMaxOcc.Some? ==> 1 <= r.adultMaxOcc.value <= 99) &&
    (r.childMinOcc.Some? ==> 1 <= r.childMinOcc.value <= 99) &&
    (r.childMaxOcc.Some? ==> 1 <= r.childMaxOcc.value <= 99)
  }

  /** The single OfferRule of the first Offer, if the structure is as required. */
  function FirstOfferRule(plan: Element): Option<Element> {
    var offers := Children(plan, OffersTag);
    if |offers| != 1 then None
    else
      var offer := Children(offers[0], OfferTag);
      if |offer| < 1 || |Children(offer[0], DiscountTag)| > 0 || |Children(offer[0], GuestTag)| > 0 then None
      else
        var rules := Children(offer[0], OfferRulesTag);
        if |rules| != 1 || |Children(rules[0], OfferRuleTag)| != 1 then None
        else Some(Children(rules[0], OfferRuleTag)[0])
  }

  /** The Offer elements after the first one, when there is exactly one Offers element. */
  function LaterOffers(plan: Element): seq<Element> {
    var offers := Children(plan, OffersTag);
    if |offers| != 1 || |Children(offers[0], OfferTag)| == 0 then []
    else Children(offers[0], OfferTag)[1..]
  }

  /** The structure checks of the Offers: one Offers, a first Offer without Discount or Guest, one OfferRule. */
  function GetFirstOfferRule(plan: Element): (r: Result<Element>)
    ensures r.Ok? <==> FirstOfferRule(plan).Some?
    ensures r.Ok? ==> r.value == FirstOfferRule(plan).value
  {
    var offers := Children(plan, OffersTag);
    :- Need(|offers| == 1, OfferErr(OneOffers));
    var offer := Children(offers[0], OfferTag);
    :- Need(|offer| >= 1, OfferErr(NoOffer));
    :- Need(|Children(offer[0], DiscountTag)| == 0, OfferErr(FirstHasDiscount));
    :- Need(|Children(offer[0], GuestTag)| == 0, OfferErr(FirstHasGuest));
    var rules := Children(offer[0], OfferRulesTag);
    :- Need(|rules| == 1, OfferErr(OneOfferRules));
    var rule := Children(rules[0], OfferRuleTag);
    :- Need(|rule| == 1, OfferErr(OneOfferRule));
    Ok(rule[0])
  }

  function RuleLos(rule: Element): Result<Los> {
    ParseLos(Children(rule, LengthsOfStayTag), OfferLosMessages)
  }

  function RuleDows(rule: Element): Result<(seq<bool>, seq<bool>)> {
    ParseDowRestrictions(Children(rule, DOWRestrictionsTag), OfferDowMessages)
  }

  function RuleOcc(rule: Element): Result<(Option<Occ>, Option<Occ>)> {
    OccEntries(Children(rule, OccupancyTag))
  }

  /** The parsed occupancy has an adult record and passes the cross-checks. */
  predicate OccPairOk(p: (Option<Occ>, Option<Occ>)) {
    p.0.Some? && OccCrossOk(p.0.value, p.1)
  }

  /** The restrictions of the OfferRule: length of stay, weekdays and occupancy. */
  function GetRestrictions(rule: Element): (r: Result<Restrictions>)
    ensures r.Ok? <==> RuleLos(rule).Ok? && RuleDows(rule).Ok? && RuleOcc(rule).Ok? && OccPairOk(RuleOcc(rule).value)
    ensures r.Ok? ==> RestrictionsOk(r.value)
    ensures r.Ok? ==>
      r.value.los == RuleLos(rule).value &&
      (r.value.arrivalDow, r.value.departureDow) == RuleDows(rule).value &&
      Some(Occ(r.value.adultMinAge, None, r.value.adultMinOcc, r.value.adultMaxOcc)) == RuleOcc(rule).value.0 &&
      (r.value.childSeen <==> RuleOcc(rule).value.1.Some?) &&
      (r.value.childSeen ==> Some(Occ(r.value.childMinAge, r.value.childMaxAge, r.value.childMinOcc, r.value.childMaxOcc)) == RuleOcc(rule).value.1)
  {
    var los :- RuleLos(rule);
    var dows :- RuleDows(rule);
    var occ :- RuleOcc(rule);
    if occ.0.None? then Err(OfferErr(NoAdultOcc))
    else
      var adult, child := occ.0.value, occ.1;
      :- OccCross(adult, child);
      var c := child.GetOr(Occ(None, None, None, None));
      Ok(Restrictions(los, dows.0, dows.1,
        adult.minAge, adult.minOcc, adult.maxOcc,
        child.Some?, c.minAge, c.maxAge, c.minOcc, c.maxOcc))
  }

  // ------------------------------------------------------------ discounts

  /** The DiscountPattern the nights imply: (required - discounted) '0's, then discounted '1's. */
  function NightsPattern(required: nat, discounted: nat): (p: string)
    ensures |p| == (if required >= discounted then required else discounted)
    ensures forall i :: 0 <= i < |p| ==> (p[i] == '1' <==> i >= required - discounted)
    ensures forall i :: 0 <= i < |p| ==> p[i] == '0' || p[i] == '1'
  {
    var z := if required >= discounted then required - discounted else 0;
    seq(z, _ => '0') + seq(discounted, _ => '1')
  }

  /** Which of the two kinds a later Offer is. */
  datatype Kind = FamilyKind(family: Family) | FreeNightsKind(free: FreeNights)

  /** The Guest of a family discount: code "8", MaxAge > 0, MinCount >= 0, positions 1..LastQualifyingPosition. */
  predicate FamilyGuestOk(g: Element) {
    HasAttrs(g) &&
    Attr(g, AgeCode) == Some(ChildCode) &&
    Attr(g, MaxAgeAttr).Some? && IsPositiveInt(Attr(g, MaxAgeAttr).value) &&
    Attr(g, MinCountAttr).Some? && IsNonNegInt(Attr(g, MinCountAttr).value) &&
    Attr(g, FirstQualifyingPositionAttr) == Some(One) &&
    Attr(g, LastQualifyingPositionAttr).Some? && IsPositiveInt(Attr(g, LastQualifyingPositionAttr).value) &&
    !StrLess(Attr(g, MinCountAttr).value, Attr(g, LastQualifyingPositionAttr).value)
  }

  predicate FamilyOk(f: Family) {
    f.maxAge >= 1 && f.freeCount >= 1
  }

  /** The family discount of an Offer: one Guests with one Guest, which must be acceptable. */
  function GetFamily(offer: Element): (r: Result<Family>)
    ensures r.Ok? <==>
      |Children(offer, GuestsTag)| == 1 && |Children(Children(offer, GuestsTag)[0], GuestTag)| == 1 &&
      FamilyGuestOk(Children(Children(offer, GuestsTag)[0], GuestTag)[0])
    ensures r.Ok? ==>
      var g := Children(Children(offer, GuestsTag)[0], GuestTag)[0];
      r.value == Family(DigitsValue(Attr(g, MaxAgeAttr).value), DigitsValue(Attr(g, MinCountAttr).value),
                        DigitsValue(Attr(g, LastQualifyingPositionAttr).value))
    ensures r.Ok? ==> FamilyOk(r.value)
  {
    var guests := Children(offer, GuestsTag);
    :- Need(|guests| > 0, OfferErr(NoGuests));
    :- Need(|guests| == 1, OfferErr(ManyGuests));
    var guest := Children(guests[0], GuestTag);
    :- Need(|guest| > 0, OfferErr(NoGuest));
    :- Need(|guest| == 1, OfferErr(ManyGuest));
    var g := guest[0];
    :- Need(HasAttrs(g), TypeError);
    :- Need(Attr(g, AgeCode) == Some(ChildCode), OfferErr(GuestBadCode));
    var maxAge, minCount, last := Attr(g, MaxAgeAttr), Attr(g, MinCountAttr), Attr(g, LastQualifyingPositionAttr);
    :- Need(maxAge.Some? && IsPositiveInt(maxAge.value), OfferErr(GuestBadMaxAge));
    :- Need(minCount.Some? && IsNonNegInt(minCount.value), OfferErr(GuestBadMinCount));
    :- Need(Attr(g, FirstQualifyingPositionAttr) == Some(One), OfferErr(GuestBadFirst));
    :- Need(last.Some? && IsPositiveInt(last.value), OfferErr(GuestBadLast));
    :- Need(!StrLess(minCount.value, last.value), OfferErr(GuestLastAboveMin));
    Ok(Family(DigitsValue(maxAge.value), DigitsValue(minCount.value), DigitsValue(last.value)))
  }

  /** A NightsRequired or NightsDiscounted value: a positive whole number up to 365. */
  predicate NightsOk(v: Option<string>) {
    v.Some? && IsPositiveInt(v.value) && DigitsValue(v.value) <= 365
  }

  /** The invariants of a free-nights discount. */
  predicate FreeNightsOk(n: FreeNights) {
    1 <= n.required <= 365 && 1 <= n.discounted <= 365 &&
    (n.pattern.Some? ==> n.pattern.value == NightsPattern(n.required, n.discounted))
  }

  /** The free-nights discount of a Discount element that has both night counts. */
  function GetFreeNights(d: Element): (r: Result<FreeNights>)
    ensures r.Ok? <==>
      NightsOk(Attr(d, NightsRequiredAttr)) && NightsOk(Attr(d, NightsDiscountedAttr)) &&
      (Attr(d, DiscountPatternAttr).Some? ==>
        Attr(d, DiscountPatternAttr).value ==
          NightsPattern(DigitsValue(Attr(d, NightsRequiredAttr).value), DigitsValue(Attr(d, NightsDiscountedAttr).value))) &&
      !StrLess(Attr(d, NightsRequiredAttr).value, Attr(d, NightsDiscountedAttr).value)
    ensures r.Ok? ==>
      r.value == FreeNights(DigitsValue(Attr(d, NightsRequiredAttr).value), DigitsValue(Attr(d, NightsDiscountedAttr).value),
                            Attr(d, DiscountPatternAttr))
    ensures r.Ok? ==> FreeNightsOk(r.value)
  {
    var nreq, ndis, patt := Attr(d, NightsRequiredAttr), Attr(d, NightsDiscountedAttr), Attr(d, DiscountPatternAttr);
    :- Need(NightsOk(nreq), OfferErr(BadRequired));
    :- Need(NightsOk(ndis), OfferErr(BadDiscounted));
    var required, discounted := DigitsValue(nreq.value), DigitsValue(ndis.value);
    :- Need(patt.None? || patt.value == NightsPattern(required, discounted), OfferErr(BadPattern));
    :- Need(!StrLess(nreq.value, ndis.value), OfferErr(DiscountedAboveRequired));
    Ok(FreeNights(required, discounted, patt))
  }

  /** The single Discount element of a later Offer, with Percent "100". */
  function OfferDiscount(offer: Element): (r: Result<Element>)
    ensures r.Ok? <==>
      |Children(offer, DiscountTag)| == 1 && HasAttrs(Children(offer, DiscountTag)[0]) &&
      Attr(Children(offer, DiscountTag)[0], PercentAttr) == Some(Hundred)
    ensures r.Ok? ==> r.value == Children(offer, DiscountTag)[0]
  {
    var disc := Children(offer, DiscountTag);
    :- Need(|disc| > 0, OfferErr(NoDiscount));
    :- Need(|disc| == 1, OfferErr(ManyDiscounts));
    :- Need(HasAttrs(disc[0]), OfferErr(DiscountNoAttrs));
    :- Need(Attr(disc[0], PercentAttr) == Some(Hundred), OfferErr(BadPercent));
    Ok(disc[0])
  }

  /** A family discount names no nights and no pattern. */
  predicate LooksFamily(d: Element) {
    !Truthy(Attr(d, NightsRequiredAttr)) && !Truthy(Attr(d, NightsDiscountedAttr)) && !Truthy(Attr(d, DiscountPatternAttr))
  }

  /** A free-nights discount names both night counts. */
  predicate LooksFreeNights(d: Element) {
    Truthy(Attr(d, NightsRequiredAttr)) && Truthy(Attr(d, NightsDiscountedAttr))
  }

  predicate KindOk(k: Kind) {
    match k
    case FamilyKind(f) => FamilyOk(f)
    case FreeNightsKind(n) => FreeNightsOk(n)
  }

  /** One later Offer: a family or a free-nights discount, told apart by the Discount attributes. */
  function OfferKind(offer: Element): (r: Result<Kind>)
    ensures r.Ok? ==> OfferDiscount(offer).Ok? && KindOk(r.value)
    ensures r.Ok? && r.value.FamilyKind? <==>
      OfferDiscount(offer).Ok? && LooksFamily(OfferDiscount(offer).value) && GetFamily(offer).Ok?
    ensures r.Ok? && r.value.FreeNightsKind? <==>
      OfferDiscount(offer).Ok? && !LooksFamily(OfferDiscount(offer).value) &&
      LooksFreeNights(OfferDiscount(offer).value) && GetFreeNights(OfferDiscount(offer).value).Ok?
    ensures r.Ok? && r.value.FamilyKind? ==> r.value.family == GetFamily(offer).value
    ensures r.Ok? && r.value.FreeNightsKind? ==> r.value.free == GetFreeNights(OfferDiscount(offer).value).value
  {
    var d :- OfferDiscount(offer);
    if LooksFamily(d) then
      var f :- GetFamily(offer);
      Ok(FamilyKind(f))
    else if LooksFreeNights(d) then
      var n :- GetFreeNights(d);
      Ok(FreeNightsKind(n))
    else Err(OfferErr(UnknownDiscount))
  }

  function OfferKindEach(offers: seq<Element>): (r: seq<Result<Kind>>)
    ensures |r| == |offers| && forall i :: 0 <= i < |offers| ==> r[i] == OfferKind(offers[i])
  {
    seq(|offers|, i requires 0 <= i < |offers| => OfferKind(offers[i]))
  }

  predicate IsFamily(k: Result<Kind>) { k.Ok? && k.value.FamilyKind? }

  predicate IsFreeNights(k: Result<Kind>) { k.Ok? && k.value.FreeNightsKind? }

  /** How many of the offers are of each kind. */
  function FamilyCount(ks: seq<Result<Kind>>): nat {
    if |ks| == 0 then 0 else FamilyCount(ks[..|ks| - 1]) + (if IsFamily(ks[|ks| - 1]) then 1 else 0)
  }

  function FreeNightsCount(ks: seq<Result<Kind>>): nat {
    if |ks| == 0 then 0 else FreeNightsCount(ks[..|ks| - 1]) + (if IsFreeNights(ks[|ks| - 1]) then 1 else 0)
  }

  /** The loop over the later Offers: each one valid, and at most one discount of each kind. */
  function OfferKinds(ks: seq<Result<Kind>>): (r: Result<(Option<FreeNights>, Option<Family>)>)
    ensures r.Ok? <==>
      (forall i :: 0 <= i < |ks| ==> ks[i].Ok?) && FamilyCount(ks) <= 1 && FreeNightsCount(ks) <= 1
    ensures r.Ok? ==> (r.value.0.Some? <==> FreeNightsCount(ks) == 1)
    ensures r.Ok? ==> (r.value.1.Some? <==> FamilyCount(ks) == 1)
    ensures r.Ok? && r.value.0.Some? ==> Ok(FreeNightsKind(r.value.0.value)) in ks
    ensures r.Ok? && r.value.1.Some? ==> Ok(FamilyKind(r.value.1.value)) in ks
  {
    if |ks| == 0 then Ok((None, None))
    else
      var prefix := ks[..|ks| - 1];
      assert forall i :: 0 <= i < |prefix| ==> prefix[i] == ks[i];
      var acc :- OfferKinds(prefix);
      var k :- ks[|ks| - 1];
      if k.FamilyKind? then
        if acc.1.Some? then Err(OfferErr(ManyFamily))
        else Ok((acc.0, Some(k.family)))
      else
        if acc.0.Some? then Err(OfferErr(ManyFreeNights))
        else Ok((Some(k.free), acc.1))
  }

  /** The invariants of a discount description. */
  predicate DiscountOk(d: Discount) {
    RestrictionsOk(d.restrictions) &&
    (d.freeNights.Some? ==> FreeNightsOk(d.freeNights.value)) &&
    (d.family.Some? ==> FamilyOk(d.family.value))
  }

  /** The discounts of the later Offers. */
  function LaterKinds(plan: Element): (r: Result<(Option<FreeNights>, Option<Family>)>)
    ensures r == OfferKinds(OfferKindEach(LaterOffers(plan)))
    ensures r.Ok? && r.value.0.Some? ==> FreeNightsOk(r.value.0.value)
    ensures r.Ok? && r.value.1.Some? ==> FamilyOk(r.value.1.value)
  {
    var ks := OfferKindEach(LaterOffers(plan));
    if OfferKinds(ks).Ok? then KindsOk(ks); OfferKinds(ks) else OfferKinds(ks)
  }

  /** get_discount: the restrictions of the first Offer and the discounts of the later ones. */
  function GetDiscount(plan: Element): (r: Result<Discount>)
    ensures r.Ok? <==>
      FirstOfferRule(plan).Some? && GetRestrictions(FirstOfferRule(plan).value).Ok? && LaterKinds(plan).Ok?
    ensures r.Ok? ==> DiscountOk(r.value)
    ensures r.Ok? ==>
      r.value.restrictions == GetRestrictions(FirstOfferRule(plan).value).value &&
      (r.value.freeNights, r.value.family) == LaterKinds(plan).value
  {
    var rule :- GetFirstOfferRule(plan);
    var restrictions :- GetRestrictions(rule);
    var kinds :- LaterKinds(plan);
    Ok(Discount(restrictions, kinds.0, kinds.1))
  }

  /** The discounts the loop keeps satisfy their invariants. */
  lemma KindsOk(ks: seq<Result<Kind>>)
    requires forall i :: 0 <= i < |ks| ==> ks[i].Ok? ==> KindOk(ks[i].value)
    requires OfferKinds(ks).Ok?
    ensures OfferKinds(ks).value.0.Some? ==> FreeNightsOk(OfferKinds(ks).value.0.value)
    ensures OfferKinds(ks).value.1.Some? ==> FamilyOk(OfferKinds(ks).value.1.value)
  {
    var v := OfferKinds(ks).value;
    if v.0.Some? {
      assert KindOk(FreeNightsKind(v.0.value));
    }
    if v.1.Some? {
      assert KindOk(FamilyKind(v.1.value));
    }
  }
}
