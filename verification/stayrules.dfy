/**
 * The length-of-stay and day-of-week restrictions that BookingRule and the
 * first OfferRule express in the same way (lib/utilrule.js and
 * lib/utildisc.js repeat the code; only the error texts differ, so they
 * are parameters here).
 */
module StayRules {
  import opened Wrappers
  import opened Errors
  import opened Text
  import opened Tree
  import opened Dates

  // ------------------------------------------------------ length of stay

  /** Minimum and maximum length of stay in nights; None is unlimited. */
  datatype Los = Los(min: Option<nat>, max: Option<nat>)

  datatype LosMessages = LosMessages(
    manyStays: Error, noAttrs: Error, badTime: Error, badUnit: Error,
    twoMin: Error, twoMax: Error, badType: Error, minAboveMax: Error)

  const MinMaxType := "MinMaxMessageType"
  const SetMin := "SetMinLOS"
  const SetMax := "SetMaxLOS"

  /** A LengthOfStay element that is acceptable on its own. */
  predicate LosEntryShape(e: Element) {
    HasAttrs(e) &&
    Attr(e, "Time").Some? && IsNonNegInt(Attr(e, "Time").value) &&
    Attr(e, "TimeUnit") == Some("Day") &&
    (Attr(e, MinMaxType) == Some(SetMin) || Attr(e, MinMaxType) == Some(SetMax))
  }

  predicate AllLosEntries(stay: seq<Element>) {
    forall x :: x in stay ==> LosEntryShape(x)
  }

  /** The LengthOfStay elements of type `t`. */
  function OfType(stay: seq<Element>, t: string): seq<Element> {
    WithAttr(stay, MinMaxType, Some(t))
  }

  /** The Time, in nights, of a well-formed LengthOfStay element. */
  function TimeOf(e: Element): nat
    requires LosEntryShape(e)
  {
    DigitsValue(Attr(e, "Time").value)
  }

  /** The Time of the single LengthOfStay element of type `t`. */
  function TimeOfType(stay: seq<Element>, t: string): nat
    requires |OfType(stay, t)| == 1
    requires AllLosEntries(stay)
  {
    var e := OfType(stay, t)[0];
    assert e in OfType(stay, t);
    TimeOf(e)
  }

  /** Appending a LengthOfStay element that has type `t` to a list with none. */
  lemma TimeOfTypeNew(prefix: seq<Element>, e: Element, t: string)
    requires AllLosEntries(prefix) && LosEntryShape(e)
    requires |OfType(prefix, t)| == 0 && Attr(e, MinMaxType) == Some(t)
    ensures AllLosEntries(prefix + [e])
    ensures OfType(prefix + [e], t) == [e] && TimeOfType(prefix + [e], t) == TimeOf(e)
  {
    WithAttrAppend(prefix, e, MinMaxType, Some(t));
  }

  /** Appending a LengthOfStay element of another type. */
  lemma TimeOfTypeKept(prefix: seq<Element>, e: Element, t: string)
    requires AllLosEntries(prefix) && LosEntryShape(e)
    requires Attr(e, MinMaxType) != Some(t)
    ensures AllLosEntries(prefix + [e])
    ensures OfType(prefix + [e], t) == OfType(prefix, t)
    ensures |OfType(prefix, t)| == 1 ==> TimeOfType(prefix + [e], t) == TimeOfType(prefix, t)
  {
    WithAttrAppend(prefix, e, MinMaxType, Some(t));
  }

  /** The loop over the LengthOfStay elements, left to right. */
  function LosEntries(stay: seq<Element>, m: LosMessages): (r: Result<Los>)
    ensures r.Ok? <==>
      AllLosEntries(stay) && |OfType(stay, SetMin)| <= 1 && |OfType(stay, SetMax)| <= 1
    ensures r.Ok? ==> (r.value.min.Some? <==> |OfType(stay, SetMin)| == 1)
    ensures r.Ok? ==> (r.value.max.Some? <==> |OfType(stay, SetMax)| == 1)
    ensures r.Ok? && r.value.min.Some? ==> r.value.min.value == TimeOfType(stay, SetMin)
    ensures r.Ok? && r.value.max.Some? ==> r.value.max.value == TimeOfType(stay, SetMax)
    decreases |stay|
  {
    if |stay| == 0 then Ok(Los(None, None))
    else
      var prefix, e := stay[..|stay| - 1], stay[|stay| - 1];
      assert stay == prefix + [e];
      assert AllLosEntries(stay) <==> AllLosEntries(prefix) && LosEntryShape(e) by {
        assert e in stay;
        assert forall x :: x in stay <==> x in prefix || x == e;
      }
      WithAttrAppend(prefix, e, MinMaxType, Some(SetMin));
      WithAttrAppend(prefix, e, MinMaxType, Some(SetMax));
      var acc := LosEntries(prefix, m);
      var t := Attr(e, "Time");
      var mmt := Attr(e, MinMaxType);
      if acc.Err? then acc
      else if !HasAttrs(e) then Err(m.noAttrs)
      else if !(t.Some? && IsNonNegInt(t.value)) then Err(m.badTime)
      else if Attr(e, "TimeUnit") != Some("Day") then Err(m.badUnit)
      else if mmt == Some(SetMin) then
        if acc.value.min.Some? then Err(m.twoMin)
        else
          TimeOfTypeNew(prefix, e, SetMin);
          TimeOfTypeKept(prefix, e, SetMax);
          Ok(acc.value.(min := Some(TimeOf(e))))
      else if mmt == Some(SetMax) then
        if acc.value.max.Some? then Err(m.twoMax)
        else
          TimeOfTypeNew(prefix, e, SetMax);
          TimeOfTypeKept(prefix, e, SetMin);
          Ok(acc.value.(max := Some(TimeOf(e))))
      else Err(m.badType)
  }

  /**
   * The LengthsOfStay element (at most one) of a rule: each LengthOfStay is a
   * Time in days of type SetMinLOS or SetMaxLOS, each type at most once, and
   * the minimum does not exceed the maximum.
   */
  function ParseLos(stays: seq<Element>, m: LosMessages): (r: Result<Los>)
    ensures |stays| > 1 ==> r == Err(m.manyStays)
    ensures |stays| == 0 ==> r == Ok(Los(None, None))
    ensures |stays| == 1 ==>
      var stay := Children(stays[0], "LengthOfStay");
      (r.Ok? <==>
        AllLosEntries(stay) &&
        |OfType(stay, SetMin)| <= 1 && |OfType(stay, SetMax)| <= 1 &&
        (|OfType(stay, SetMin)| == 1 && |OfType(stay, SetMax)| == 1 ==>
          TimeOfType(stay, SetMin) <= TimeOfType(stay, SetMax))) &&
      (r.Ok? ==>
        (r.value.min.Some? <==> |OfType(stay, SetMin)| == 1) &&
        (r.value.max.Some? <==> |OfType(stay, SetMax)| == 1) &&
        (r.value.min.Some? ==> r.value.min.value == TimeOfType(stay, SetMin)) &&
        (r.value.max.Some? ==> r.value.max.value == TimeOfType(stay, SetMax)))
    ensures r.Ok? && r.value.min.Some? && r.value.max.Some? ==> r.value.min.value <= r.value.max.value
  {
    if |stays| > 1 then Err(m.manyStays) else
    var stay := if |stays| == 1 then Children(stays[0], "LengthOfStay") else [];
    if |stay| == 0 then Ok(Los(None, None))
    else
      var los :- LosEntries(stay, m);
      :- Need(!(los.min.Some? && los.max.Some? && los.min.value > los.max.value), m.minAboveMax);
      Ok(los)
  }

  /** The length of stay `n` is within the bounds. */
  predicate LosAllows(los: Los, n: int) {
    (los.min.None? || n >= los.min.value) && (los.max.None? || n <= los.max.value)
  }

  // ------------------------------------------------------- days of week

  /** Attribute names of the days, index 0 = Sunday. */
  const DayNames: seq<string> := ["Sun", "Mon", "Tue", "Weds", "Thur", "Fri", "Sat"]

  const AllDays: seq<bool> := [true, true, true, true, true, true, true]

  /** A day attribute is absent or empty (ignored), or a 1/true or 0/false flag. */
  predicate DayValueOk(v: Option<string>) {
    !Truthy(v) || IsTrueFlag(v.value) || IsFalseFlag(v.value)
  }

  /** Only an explicit 0/false forbids a day. */
  predicate DayAllowed(v: Option<string>) {
    !(Truthy(v) && IsFalseFlag(v.value))
  }

  lemma FlagsExclusive(s: string)
    ensures !(IsTrueFlag(s) && IsFalseFlag(s))
  {
    if s == "1" {
      assert Lower(s) == "1";
    } else if s == "0" {
      assert Lower(s) == "0";
    }
  }

  /** The loop over the first `n` day attributes of a days-of-week element. */
  function MaskPrefix(e: Element, n: nat, invalid: Error): (r: Result<seq<bool>>)
    requires n <= 7
    ensures r.Ok? <==> forall k :: 0 <= k < n ==> DayValueOk(Attr(e, DayNames[k]))
    ensures r.Ok? ==> |r.value| == n
    ensures r.Ok? ==> forall k :: 0 <= k < n ==> (r.value[k] <==> DayAllowed(Attr(e, DayNames[k])))
  {
    if n == 0 then Ok([])
    else
      var mask :- MaskPrefix(e, n - 1, invalid);
      var v := Attr(e, DayNames[n - 1]);
      if Truthy(v) then
        if IsTrueFlag(v.value) then FlagsExclusive(v.value); Ok(mask + [true])
        else if IsFalseFlag(v.value) then Ok(mask + [false])
        else Err(invalid)
      else Ok(mask + [true])
  }

  /** An ArrivalDaysOfWeek or DepartureDaysOfWeek list (at most one element). */
  function ParseDowMask(list: seq<Element>, many: Error, invalid: Error): (r: Result<seq<bool>>)
    ensures |list| == 0 ==> r == Ok(AllDays)
    ensures |list| > 1 ==> r == Err(many)
    ensures |list| == 1 ==> (r.Ok? <==> forall k :: 0 <= k < 7 ==> DayValueOk(Attr(list[0], DayNames[k])))
    ensures r.Ok? ==> |r.value| == 7
    ensures r.Ok? && |list| == 1 ==>
      forall k :: 0 <= k < 7 ==> (r.value[k] <==> DayAllowed(Attr(list[0], DayNames[k])))
  {
    if |list| == 0 then Ok(AllDays)
    else if |list| > 1 then Err(many)
    else MaskPrefix(list[0], 7, invalid)
  }

  datatype DowMessages = DowMessages(
    manyDows: Error, manyArrival: Error, badArrival: Error, manyDeparture: Error, badDeparture: Error)

  /** The DOW_Restrictions element (at most one): arrival and departure masks, all-true by default. */
  function ParseDowRestrictions(dows: seq<Element>, m: DowMessages): (r: Result<(seq<bool>, seq<bool>)>)
    ensures |dows| > 1 ==> r == Err(m.manyDows)
    ensures |dows| == 0 ==> r == Ok((AllDays, AllDays))
    ensures |dows| == 1 ==>
      (r.Ok? <==>
        ParseDowMask(Children(dows[0], "ArrivalDaysOfWeek"), m.manyArrival, m.badArrival).Ok? &&
        ParseDowMask(Children(dows[0], "DepartureDaysOfWeek"), m.manyDeparture, m.badDeparture).Ok?)
    ensures r.Ok? ==> |r.value.0| == 7 && |r.value.1| == 7
  {
    if |dows| > 1 then Err(m.manyDows) else
    var adow := if |dows| == 1 then Children(dows[0], "ArrivalDaysOfWeek") else [];
    var ddow := if |dows| == 1 then Children(dows[0], "DepartureDaysOfWeek") else [];
    var a :- ParseDowMask(adow, m.manyArrival, m.badArrival);
    var d :- ParseDowMask(ddow, m.manyDeparture, m.badDeparture);
    Ok((a, d))
  }

  /**
   * `mask[date_dow(d)] === true`: a day index outside 0..6, which date_dow
   * returns for some Saturdays, reads `undefined` and so is never allowed.
   */
  predicate MaskAllows(mask: seq<bool>, dow: int) {
    0 <= dow < |mask| && mask[dow]
  }

  /** A mask lookup reads the entry of the true weekday, except on the Saturdays where date_dow is -1. */
  lemma MaskAllowsWeekday(mask: seq<bool>, d: Date)
    requires |mask| == 7 && Valid(d)
    ensures Dow(d) != -1 ==> (MaskAllows(mask, Dow(d)) <==> mask[Weekday(d)])
    ensures Dow(d) == -1 ==> !MaskAllows(mask, Dow(d)) && Weekday(d) == 6
  {
  }

  /** The all-true mask still rejects 1984-01-07. */
  lemma AllDaysRejects1984()
    ensures Valid(Date(1984, 1, 7)) && !MaskAllows(AllDays, Dow(Date(1984, 1, 7)))
  {
    Dow1984();
  }
}
