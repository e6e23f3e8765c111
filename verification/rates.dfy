/**
 * The Rate elements of a rate plan (lib/utilrate.js): the "static" first
 * Rate, the code-indexed Rates that follow it, and their validation into
 * flat records.
 */
module Rates {
  import opened Wrappers
  import opened Errors
  import opened Text
  import opened Tree
  import opened Dates


  // --------------------------------------------------------- static data

  /** What the first, "static" Rate fixes for every other Rate of the plan. */
  datatype StaticData = StaticData(unitMultiplier: nat, baseType: string)

  /** The first Rate of the plan's single Rates element, if there is one. */
  function StaticRate(plan: Element): Option<Element> {
    var rates := Children(plan, "Rates");
    if |rates| == 1 && |Children(rates[0], "Rate")| >= 1 then Some(Children(rates[0], "Rate")[0])
    else None
  }

  /** The single BaseByGuestAmt of the static Rate, if it has exactly one. */
  function StaticBase(first: Element): Option<Element> {
    var bases := Children(first, "BaseByGuestAmts");
    if |bases| == 1 && |Children(bases[0], "BaseByGuestAmt")| == 1 then Some(Children(bases[0], "BaseByGuestAmt")[0])
    else None
  }

  /**
   * The static Rate has no InvTypeCode, Start or End; when it has attributes
   * at all, RateTimeUnit is "Day" and UnitMultiplier a whole number 1..365;
   * it has one BaseByGuestAmt of Type "7" (per person) or "25" (per room).
   */
  predicate StaticRateOk(first: Element) {
    Attr(first, "InvTypeCode").None? && Attr(first, "Start").None? && Attr(first, "End").None? &&
    (HasAttrs(first) ==>
      Attr(first, "RateTimeUnit") == Some("Day") &&
      Attr(first, "UnitMultiplier").Some? && IsPositiveInt(Attr(first, "UnitMultiplier").value) &&
      DigitsValue(Attr(first, "UnitMultiplier").value) <= 365) &&
    StaticBase(first).Some? &&
    (Attr(StaticBase(first).value, "Type") == Some("7") || Attr(StaticBase(first).value, "Type") == Some("25"))
  }

  /** get_static_data */
  function GetStaticData(plan: Element): (r: Result<StaticData>)
    ensures r.Ok? <==> StaticRate(plan).Some? && StaticRateOk(StaticRate(plan).value)
    ensures r.Ok? ==> 1 <= r.value.unitMultiplier <= 365
    ensures r.Ok? ==> r.value.baseType == "7" || r.value.baseType == "25"
    ensures r.Ok? ==>
      var first := StaticRate(plan).value;
      (!HasAttrs(first) ==> r.value.unitMultiplier == 1) &&
      (HasAttrs(first) ==> r.value.unitMultiplier == DigitsValue(Attr(first, "UnitMultiplier").value)) &&
      Attr(StaticBase(first).value, "Type") == Some(r.value.baseType)
  {
    var rates := Children(plan, "Rates");
    :- Need(|rates| == 1, RateErr(NoRates));
    var rate := Children(rates[0], "Rate");
    :- Need(|rate| >= 1, RateErr(NoStaticRate));
    var first := rate[0];
    :- Need(Attr(first, "InvTypeCode").None? && Attr(first, "Start").None? && Attr(first, "End").None?,
            RateErr(StaticPlaced));
    var um :- StaticUnit(first);
    var bases := Children(first, "BaseByGuestAmts");
    :- Need(|bases| == 1, RateErr(StaticBases));
    var base := Children(bases[0], "BaseByGuestAmt");
    :- Need(|base| == 1, RateErr(StaticBase1));
    var t := Attr(base[0], "Type");
    :- Need(t.Some?, RateErr(StaticNoType));
    :- Need(t.value == "7" || t.value == "25", RateErr(StaticBadType));
    Ok(StaticData(um, t.value))
  }

  /** RateTimeUnit and UnitMultiplier of the static Rate: none or both, "Day" and 1..365. */
  function StaticUnit(first: Element): (r: Result<nat>)
    ensures r.Ok? <==>
      (HasAttrs(first) ==>
        Attr(first, "RateTimeUnit") == Some("Day") &&
        Attr(first, "UnitMultiplier").Some? && IsPositiveInt(Attr(first, "UnitMultiplier").value) &&
        DigitsValue(Attr(first, "UnitMultiplier").value) <= 365)
    ensures r.Ok? && !HasAttrs(first) ==> r.value == 1
    ensures r.Ok? && HasAttrs(first) ==> r.value == DigitsValue(Attr(first, "UnitMultiplier").value)
  {
    if !HasAttrs(first) then Ok(1)
    else
      var rtu, um := Attr(first, "RateTimeUnit"), Attr(first, "UnitMultiplier");
      if rtu.None? != um.None? then
        Err(RateErr(StaticUnitPair))
      else if rtu != Some("Day") then Err(RateErr(StaticUnitDay))
      else if !IsPositiveInt(um.value) then
        Err(RateErr(StaticUnitInt))
      else if DigitsValue(um.value) > 365 then
        Err(RateErr(StaticUnitLarge))
      else Ok(DigitsValue(um.value))
  }

  // ------------------------------------------------------ codes and lookup

  /** The Rates after the static one, in document order ([] without a single Rates element). */
  function CodedRates(plan: Element): seq<Element> {
    var rates := Children(plan, "Rates");
    if |rates| >= 1 && |Children(rates[0], "Rate")| >= 1 then Children(rates[0], "Rate")[1..] else []
  }


  /** get_unique_codes: the distinct InvTypeCode values of the non-static Rates, in Object.keys order. */
  function GetUniqueRateCodes(plan: Element): (r: Result<seq<string>>)
    ensures |Children(plan, "Rates")| > 1 ==> r == Err(RateErr(MoreThanOneRates))
    ensures r.Ok? <==>
      |Children(plan, "Rates")| <= 1 && forall x :: x in CodedRates(plan) ==> HasValue(x, "InvTypeCode")
    ensures r.Ok? ==> NoDups(r.value)
    ensures r.Ok? ==> forall c :: c in r.value <==>
      exists x :: x in CodedRates(plan) && Attr(x, "InvTypeCode") == Some(c)
    ensures r.Ok? ==> r.value == ObjectKeys(AttrValues(CodedRates(plan), "InvTypeCode"))
  {
    var rates := Children(plan, "Rates");
    if |rates| == 0 then Ok([])
    else if |rates| > 1 then Err(RateErr(MoreThanOneRates))
    else
      var codes :- RequiredValues(CodedRates(plan), "InvTypeCode", RateErr(RateNoAttrs),
        RateErr(RateNoCode));
      assert codes == AttrValues(CodedRates(plan), "InvTypeCode");
      ObjectKeysOrder(codes);
      assert forall c :: c in codes <==> exists x :: x in CodedRates(plan) && Attr(x, "InvTypeCode") == Some(c) by {
        forall c ensures c in codes ==> exists x :: x in CodedRates(plan) && Attr(x, "InvTypeCode") == Some(c) {
          if c in codes {
            var i :| 0 <= i < |codes| && codes[i] == c;
            assert CodedRates(plan)[i] in CodedRates(plan);
          }
        }
        forall x | x in CodedRates(plan) && Attr(x, "InvTypeCode").Some?
          ensures Attr(x, "InvTypeCode").value in codes
        {
          var i :| 0 <= i < |CodedRates(plan)| && CodedRates(plan)[i] == x;
          assert codes[i] == Attr(x, "InvTypeCode").value;
        }
      }
      Ok(ObjectKeys(codes))
  }

  /** find_rates_by_code: the non-static Rates whose InvTypeCode is `code`, in document order. */
  function FindRatesByCode(plan: Element, code: string): (r: Result<seq<Element>>)
    ensures |Children(plan, "Rates")| == 0 ==> r == Ok([])
    ensures |Children(plan, "Rates")| > 1 ==> r == Err(RateErr(MoreThanOneRates))
    ensures |Children(plan, "Rates")| == 1 && |Children(Children(plan, "Rates")[0], "Rate")| == 0 ==> r == Err(TypeError)
    ensures r.Ok? ==> forall x :: x in CodedRates(plan) ==> HasAttrs(x)
    ensures r.Ok? ==> forall x :: x in r.value <==> x in CodedRates(plan) && Attr(x, "InvTypeCode") == Some(code)
    ensures r.Ok? ==> r.value == WithAttr(CodedRates(plan), "InvTypeCode", Some(code))
  {
    var rates := Children(plan, "Rates");
    if |rates| == 0 then Ok([])
    else if |rates| > 1 then Err(RateErr(MoreThanOneRates))
    else if |Children(rates[0], "Rate")| == 0 then Err(TypeError)
    else Select(CodedRates(plan), "InvTypeCode", Some(code), RateErr(RateNoAttrs))
  }

  /** Every code get_unique_codes lists selects at least one Rate, and every non-static Rate is selected by its own code. */
  lemma CodesCoverRates(plan: Element)
    requires GetUniqueRateCodes(plan).Ok?
    ensures forall c :: c in GetUniqueRateCodes(plan).value ==>
      FindRatesByCode(plan, c).Ok? && |FindRatesByCode(plan, c).value| > 0
    ensures forall x :: x in CodedRates(plan) ==>
      Attr(x, "InvTypeCode").value in GetUniqueRateCodes(plan).value &&
      x in FindRatesByCode(plan, Attr(x, "InvTypeCode").value).value
  {
    var codes := GetUniqueRateCodes(plan).value;
    forall c | c in codes
      ensures FindRatesByCode(plan, c).Ok? && |FindRatesByCode(plan, c).value| > 0
    {
      var x :| x in CodedRates(plan) && Attr(x, "InvTypeCode") == Some(c);
      assert x in FindRatesByCode(plan, c).value;
    }
  }

  // ------------------------------------------------------ base amounts

  /** A BaseByGuestAmt: NumberOfGuests a positive integer, AgeQualifyingCode "10", a decimal AmountAfterTax. */
  predicate BaseEntryOk(e: Element) {
    HasAttrs(e) &&
    Attr(e, "NumberOfGuests").Some? && IsPositiveInt(Attr(e, "NumberOfGuests").value) &&
    Attr(e, "AgeQualifyingCode") == Some("10") &&
    Attr(e, "AmountAfterTax").Some? && IsDecimal(Attr(e, "AmountAfterTax").value)
  }

  /** The NumberOfGuests string, the key under which the amount is stored. */
  function GuestKey(e: Element): string
    requires BaseEntryOk(e)
  {
    Attr(e, "NumberOfGuests").value
  }

  /** The stored amount: for the per-person Type "7" the price is multiplied by the guest count. */
  function BaseCharge(e: Element, baseType: string): real
    requires BaseEntryOk(e)
  {
    var amount := DecimalValue(Attr(e, "AmountAfterTax").value);
    if baseType == "7" then Times(DigitsValue(GuestKey(e)), amount) else amount
  }

  /** The checks of one BaseByGuestAmt, in the order they throw. */
  function BaseEntry(x: Element): (r: Outcome)
    ensures r.Pass? <==> BaseEntryOk(x)
  {
    if !HasAttrs(x) then Fail(RateErr(BaseNoAttrs))
    else if !(Attr(x, "NumberOfGuests").Some? && IsPositiveInt(Attr(x, "NumberOfGuests").value)) then
      Fail(RateErr(BaseBadGuests))
    else if Attr(x, "AgeQualifyingCode") != Some("10") then Fail(RateErr(BaseBadAge))
    else if !(Attr(x, "AmountAfterTax").Some? && IsDecimal(Attr(x, "AmountAfterTax").value)) then
      Fail(RateErr(BaseBadAmount))
    else Pass
  }

  predicate DistinctGuestKeys(a: seq<Element>)
    requires forall x :: x in a ==> BaseEntryOk(x)
  {
    forall i, j :: 0 <= i < j < |a| ==> GuestKey(a[i]) != GuestKey(a[j])
  }

  /** The loop over the BaseByGuestAmt elements: a map from NumberOfGuests to the stored amount. */
  function BaseAmounts(a: seq<Element>, baseType: string): (r: Result<map<string, real>>)
    ensures r.Ok? <==> (forall x :: x in a ==> BaseEntryOk(x)) && DistinctGuestKeys(a)
    ensures r.Ok? ==> forall i :: 0 <= i < |a| ==>
      GuestKey(a[i]) in r.value && r.value[GuestKey(a[i])] == BaseCharge(a[i], baseType)
    ensures r.Ok? ==> forall k :: k in r.value ==> exists i :: 0 <= i < |a| && GuestKey(a[i]) == k
  {
    if |a| == 0 then Ok(map[])
    else
      var prefix, x := a[..|a| - 1], a[|a| - 1];
      assert a == prefix + [x];
      var acc := BaseAmounts(prefix, baseType);
      if acc.Err? then
        BaseAmountsPrefix(a);
        acc
      else
        var check := BaseEntry(x);
        if check.Fail? then
          assert x in a;
          Err(check.error)
        else if GuestKey(x) in acc.value then
          var i :| 0 <= i < |prefix| && GuestKey(prefix[i]) == GuestKey(x);
          assert a[i] == prefix[i] && a[|a| - 1] == x;
          Err(RateErr(BaseDuplicate))
        else
          var m := acc.value[GuestKey(x) := BaseCharge(x, baseType)];
          BaseAmountsExtend(prefix, x, baseType, acc.value);
          Ok(m)
  }

  /** A list of BaseByGuestAmt elements that passes the checks has a prefix that passes them too. */
  lemma BaseAmountsPrefix(a: seq<Element>)
    requires |a| > 0
    ensures ((forall y :: y in a ==> BaseEntryOk(y)) && DistinctGuestKeys(a)) ==>
      (forall y :: y in a[..|a| - 1] ==> BaseEntryOk(y)) && DistinctGuestKeys(a[..|a| - 1])
  {
    assert forall y :: y in a[..|a| - 1] ==> y in a;
  }

  /** One more BaseByGuestAmt with a new NumberOfGuests extends the map by its charge. */
  lemma BaseAmountsExtend(prefix: seq<Element>, x: Element, baseType: string, acc: map<string, real>)
    requires (forall y :: y in prefix ==> BaseEntryOk(y)) && DistinctGuestKeys(prefix) && BaseEntryOk(x)
    requires forall i :: 0 <= i < |prefix| ==>
      GuestKey(prefix[i]) in acc && acc[GuestKey(prefix[i])] == BaseCharge(prefix[i], baseType)
    requires forall k :: k in acc ==> exists i :: 0 <= i < |prefix| && GuestKey(prefix[i]) == k
    requires GuestKey(x) !in acc
    ensures var a, m := prefix + [x], acc[GuestKey(x) := BaseCharge(x, baseType)];
      && (forall y :: y in a ==> BaseEntryOk(y)) && DistinctGuestKeys(a)
      && (forall i :: 0 <= i < |a| ==> GuestKey(a[i]) in m && m[GuestKey(a[i])] == BaseCharge(a[i], baseType))
      && (forall k :: k in m ==> exists i :: 0 <= i < |a| && GuestKey(a[i]) == k)
  {
    var a, m := prefix + [x], acc[GuestKey(x) := BaseCharge(x, baseType)];
    assert forall i :: 0 <= i < |prefix| ==> a[i] == prefix[i];
    assert a[|prefix|] == x;
    forall k | k in m ensures exists i :: 0 <= i < |a| && GuestKey(a[i]) == k {
      if k == GuestKey(x) {
        assert GuestKey(a[|prefix|]) == k;
      } else {
        var i :| 0 <= i < |prefix| && GuestKey(prefix[i]) == k;
        assert GuestKey(a[i]) == k;
      }
    }
  }

  // ------------------------------------------------- additional amounts

  /** An AdditionalGuestAmount after validation; ages are None when not given. */
  datatype AddAmount = AddAmount(minAge: Option<nat>, maxAge: Option<nat>, ageCode: string, amount: real)

  /** A MinAge or MaxAge attribute is ignored when empty and must otherwise be a positive integer. */
  predicate AgeAttrOk(v: Option<string>) {
    !Truthy(v) || IsPositiveInt(v.value)
  }

  function AgeOf(v: Option<string>): Option<nat> {
    if Truthy(v) && IsNonNegInt(v.value) then Some(DigitsValue(v.value)) else None
  }

  /**
   * An AdditionalGuestAmount on its own: AgeQualifyingCode "8" (child, with at
   * least one age bound) or "10" (adult, without), a decimal Amount, and
   * positive age bounds with MinAge < MaxAge, none above 21.
   */
  predicate AddEntryOk(e: Element) {
    var code, minAge, maxAge := Attr(e, "AgeQualifyingCode"), AgeOf(Attr(e, "MinAge")), AgeOf(Attr(e, "MaxAge"));
    HasAttrs(e) &&
    (code == Some("8") || code == Some("10")) &&
    Attr(e, "Amount").Some? && IsDecimal(Attr(e, "Amount").value) &&
    AgeAttrOk(Attr(e, "MinAge")) && AgeAttrOk(Attr(e, "MaxAge")) &&
    (code == Some("8") ==> Truthy(Attr(e, "MinAge")) || Truthy(Attr(e, "MaxAge"))) &&
    (code == Some("10") ==> !Truthy(Attr(e, "MinAge")) && !Truthy(Attr(e, "MaxAge"))) &&
    (minAge.Some? && maxAge.Some? ==> minAge.value < maxAge.value) &&
    (minAge.Some? ==> minAge.value <= 21) && (maxAge.Some? ==> maxAge.value <= 21)
  }

  function ParsedAdd(e: Element): AddAmount
    requires AddEntryOk(e)
  {
    AddAmount(AgeOf(Attr(e, "MinAge")), AgeOf(Attr(e, "MaxAge")),
              Attr(e, "AgeQualifyingCode").value, DecimalValue(Attr(e, "Amount").value))
  }

  /** How many AdditionalGuestAmount elements are for adults. */
  function AdultEntries(list: seq<Element>): nat {
    |WithAttr(list, "AgeQualifyingCode", Some("10"))|
  }

  /** The checks of one AdditionalGuestAmount, in the order they throw; `adultSeen` when an earlier one had code "10". */
  function AddEntry(x: Element, adultSeen: bool): (r: Outcome)
    ensures r.Pass? <==> AddEntryOk(x) && !(adultSeen && Attr(x, "AgeQualifyingCode") == Some("10"))
  {
    if !HasAttrs(x) then Fail(RateErr(AddNoAttrs))
    else
      var code, minAge, maxAge := Attr(x, "AgeQualifyingCode"), Attr(x, "MinAge"), Attr(x, "MaxAge");
      if code != Some("8") && code != Some("10") then Fail(RateErr(AddBadAge))
      else if code == Some("10") && adultSeen then Fail(RateErr(AddTwoAdults))
      else if !(Attr(x, "Amount").Some? && IsDecimal(Attr(x, "Amount").value)) then Fail(RateErr(AddBadAmount))
      else if !AgeAttrOk(minAge) then Fail(RateErr(AddBadMinAge))
      else if !AgeAttrOk(maxAge) then Fail(RateErr(AddBadMaxAge))
      else if code == Some("8") && !Truthy(minAge) && !Truthy(maxAge) then Fail(RateErr(AddChildNoBracket))
      else if code == Some("10") && (Truthy(minAge) || Truthy(maxAge)) then Fail(RateErr(AddAdultBracket))
      else if Truthy(minAge) && Truthy(maxAge) && DigitsValue(minAge.value) >= DigitsValue(maxAge.value) then
        Fail(RateErr(AddMinAboveMax))
      else if Truthy(minAge) && DigitsValue(minAge.value) > 21 then Fail(RateErr(AddMinLarge))
      else if Truthy(maxAge) && DigitsValue(maxAge.value) > 21 then Fail(RateErr(AddMaxLarge))
      else Pass
  }

  /** The loop over the AdditionalGuestAmount elements. */
  function AddEntries(list: seq<Element>): (r: Result<seq<AddAmount>>)
    ensures r.Ok? <==> (forall x :: x in list ==> AddEntryOk(x)) && AdultEntries(list) <= 1
    ensures r.Ok? ==> |r.value| == |list| && forall i :: 0 <= i < |list| ==> r.value[i] == ParsedAdd(list[i])
  {
    if |list| == 0 then Ok([])
    else
      var prefix, x := list[..|list| - 1], list[|list| - 1];
      assert list == prefix + [x];
      assert forall y :: y in list <==> y in prefix || y == x;
      WithAttrAppend(prefix, x, "AgeQualifyingCode", Some("10"));
      var acc := AddEntries(prefix);
      if acc.Err? then acc
      else
        var check := AddEntry(x, AdultEntries(prefix) >= 1);
        if check.Fail? then
          assert x in list;
          Err(check.error)
        else Ok(acc.value + [ParsedAdd(x)])
  }

  /** A child (code "8") bracket containing `age`: MinAge <= age < MaxAge. */
  predicate Covers(a: AddAmount, age: int) {
    a.ageCode == "8" && (a.minAge.None? || a.minAge.value <= age) && (a.maxAge.None? || age < a.maxAge.value)
  }

  /** How many child brackets contain `age`. */
  function CoveringCount(add: seq<AddAmount>, age: int): (n: nat)
    ensures n <= |add|
    ensures n == 0 <==> forall k :: 0 <= k < |add| ==> !Covers(add[k], age)
  {
    if |add| == 0 then 0
    else (if Covers(add[0], age) then 1 else 0) + CoveringCount(add[1..], age)
  }


  /** No age from `from` up to 21 is contained in two child brackets. */
  predicate AgesUnique(add: seq<AddAmount>, from: int) {
    forall a :: from <= a <= 21 ==> CoveringCount(add, a) <= 1
  }

  /** `a` is the first age from `from` on that two child brackets contain. */
  predicate FirstAmbiguous(add: seq<AddAmount>, from: int, a: int) {
    from <= a <= 21 && CoveringCount(add, a) > 1 &&
    forall b :: from <= b < a ==> CoveringCount(add, b) <= 1
  }

  /** check_uniqness from `age` on: the first age up to 21 that two brackets contain is reported. */
  function CheckAges(add: seq<AddAmount>, age: int): (r: Outcome)
    requires 0 <= age <= 22
    ensures r.Pass? <==> AgesUnique(add, age)
    ensures r.Fail? ==> exists a :: FirstAmbiguous(add, age, a) && r.error == RateErr(AmbiguousAge(a))
    decreases 22 - age
  {
    if age > 21 then Pass
    else if CoveringCount(add, age) > 1 then
      assert FirstAmbiguous(add, age, age);
      Fail(RateErr(AmbiguousAge(age)))
    else
      var r := CheckAges(add, age + 1);
      assert AgesUnique(add, age) <==> AgesUnique(add, age + 1);
      if r.Fail? then
        var a :| FirstAmbiguous(add, age + 1, a) && r.error == RateErr(AmbiguousAge(a));
        assert FirstAmbiguous(add, age, a);
        r
      else r
  }

  /** Every entry has the shape validation gives it. */
  predicate EntriesShaped(add: seq<AddAmount>) {
    forall k :: 0 <= k < |add| ==> EntryShape(add[k])
  }

  /** Above 21, a bracket that contains an age also contains 21. */
  lemma {:induction false} CoveringAbove21(add: seq<AddAmount>, age: int)
    requires EntriesShaped(add) && age > 21
    ensures CoveringCount(add, age) <= CoveringCount(add, 21)
  {
    if |add| > 0 {
      assert EntriesShaped(add[1..]) by {
        forall k | 0 <= k < |add[1..]| ensures add[1..][k] == add[k + 1] { }
      }
      CoveringAbove21(add[1..], age);
    }
  }

  /**
   * Checking the ages 0..21 is enough: when it passes, no age at all is
   * contained in two child brackets, so the first bracket that matches a
   * child is the only one.
   */
  lemma BracketsUnique(add: seq<AddAmount>, age: nat)
    requires EntriesShaped(add) && AgesUnique(add, 0)
    ensures CoveringCount(add, age) <= 1
  {
    if age > 21 {
      CoveringAbove21(add, age);
    }
  }

  // ---------------------------------------------------------------- Rate

  /** A Rate after validation: get_rate's flat record. */
  datatype Rate = Rate(
    start: Date, end: Date, nightCnt: nat,
    baseAmt: map<string, real>, baseType: string, addAmt: seq<AddAmount>)

  /** The additional amounts of a valid Rate: at most one adult entry, and one whenever any are present; unambiguous child brackets. */
  predicate AddAmountsOk(add: seq<AddAmount>) {
    EntriesShaped(add) &&
    (forall i, j :: 0 <= i < j < |add| && add[i].ageCode == "10" ==> add[j].ageCode != "10") &&
    (|add| > 0 ==> exists k :: 0 <= k < |add| && add[k].ageCode == "10") &&
    AgesUnique(add, 0)
  }

  /** The invariants every Rate that get_rate returns satisfies. */
  predicate RateOk(r: Rate) {
    Valid(r.start) && Valid(r.end) && Diff(r.start, r.end) >= 0 &&
    |r.baseAmt| > 0 && (forall k :: k in r.baseAmt ==> IsPositiveInt(k)) &&
    AddAmountsOk(r.addAmt)
  }

  /** At most one adult entry among validated entries: the count agrees with the parsed list. */
  lemma AdultEntriesParsed(list: seq<Element>, add: seq<AddAmount>)
    requires forall x :: x in list ==> AddEntryOk(x)
    requires |add| == |list| && forall i :: 0 <= i < |list| ==> add[i] == ParsedAdd(list[i])
    requires AdultEntries(list) <= 1
    ensures forall i, j :: 0 <= i < j < |add| && add[i].ageCode == "10" ==> add[j].ageCode != "10"
    ensures AdultEntries(list) == 0 ==> forall k :: 0 <= k < |add| ==> add[k].ageCode != "10"
  {
    forall i, j | 0 <= i < j < |add| && add[i].ageCode == "10"
      ensures add[j].ageCode != "10"
    {
      if add[j].ageCode == "10" {
        assert list[i] in list && list[j] in list;
        AdultPair(list, i, j);
      }
    }
    forall k | 0 <= k < |add| ensures AdultEntries(list) == 0 ==> add[k].ageCode != "10" {
      assert list[k] in list;
      if add[k].ageCode == "10" {
        assert list[k] in WithAttr(list, "AgeQualifyingCode", Some("10"));
      }
    }
  }

  /** Validated entries have codes 8 or 10, bounded brackets for children and none for adults. */
  lemma ParsedAddsShape(list: seq<Element>, add: seq<AddAmount>)
    requires forall x :: x in list ==> AddEntryOk(x)
    requires |add| == |list| && forall i :: 0 <= i < |list| ==> add[i] == ParsedAdd(list[i])
    ensures EntriesShaped(add)
  {
    forall k | 0 <= k < |add| ensures EntryShape(add[k]) {
      assert list[k] in list;
      ParsedAddShape(list[k]);
    }
  }

  /** The shape of one validated entry. */
  predicate EntryShape(a: AddAmount) {
    (a.minAge.Some? ==> 1 <= a.minAge.value <= 21) &&
    (a.maxAge.Some? ==> 1 <= a.maxAge.value <= 21) &&
    (a.minAge.Some? && a.maxAge.Some? ==> a.minAge.value < a.maxAge.value) &&
    (a.ageCode == "8" || a.ageCode == "10") &&
    (a.ageCode == "8" ==> a.minAge.Some? || a.maxAge.Some?) &&
    (a.ageCode == "10" ==> a.minAge.None? && a.maxAge.None?)
  }

  lemma ParsedAddShape(e: Element)
    requires AddEntryOk(e)
    ensures EntryShape(ParsedAdd(e))
  {
  }

  /** An adult element among the validated ones gives an adult entry. */
  lemma AdultPresent(list: seq<Element>, add: seq<AddAmount>)
    requires forall x :: x in list ==> AddEntryOk(x)
    requires |add| == |list| && forall i :: 0 <= i < |list| ==> add[i] == ParsedAdd(list[i])
    requires |add| > 0 ==> AdultEntries(list) > 0
    ensures |add| > 0 ==> exists k :: 0 <= k < |add| && add[k].ageCode == "10"
  {
    if |add| > 0 {
      var w := WithAttr(list, "AgeQualifyingCode", Some("10"))[0];
      assert w in WithAttr(list, "AgeQualifyingCode", Some("10"));
      var k :| 0 <= k < |list| && list[k] == w;
      assert add[k].ageCode == "10";
    }
  }

  /** Two adult entries make two selected elements. */
  lemma {:induction false} AdultPair(list: seq<Element>, i: nat, j: nat)
    requires i < j < |list|
    requires Attr(list[i], "AgeQualifyingCode") == Some("10") && Attr(list[j], "AgeQualifyingCode") == Some("10")
    ensures AdultEntries(list) >= 2
  {
    if i == 0 {
      assert list[1..][j - 1] == list[j];
      assert list[j] in WithAttr(list[1..], "AgeQualifyingCode", Some("10"));
    } else {
      assert list[1..][i - 1] == list[i] && list[1..][j - 1] == list[j];
      AdultPair(list[1..], i - 1, j - 1);
    }
  }

  /** The BaseByGuestAmt elements of a Rate's single BaseByGuestAmts element. */
  function BaseList(rel: Element): seq<Element> {
    var bases := Children(rel, "BaseByGuestAmts");
    if |bases| == 1 then Children(bases[0], "BaseByGuestAmt") else []
  }

  /** The base amounts of a Rate: at least one, keyed by positive NumberOfGuests strings. */
  function RateBaseAmounts(rel: Element, baseType: string): (r: Result<map<string, real>>)
    ensures r.Ok? <==>
      |Children(rel, "BaseByGuestAmts")| == 1 && |BaseList(rel)| > 0 && BaseAmounts(BaseList(rel), baseType).Ok?
    ensures r.Ok? ==> r == BaseAmounts(BaseList(rel), baseType)
    ensures r.Ok? ==> |r.value| > 0 && forall k :: k in r.value ==> IsPositiveInt(k)
  {
    var bases := Children(rel, "BaseByGuestAmts");
    if |bases| == 0 then Err(RateErr(RateNoBases))
    else if |bases| > 1 then Err(RateErr(RateManyBases))
    else
      var a := BaseList(rel);
      if |a| == 0 then Err(RateErr(RateNoBase))
      else
        var baseAmt :- BaseAmounts(a, baseType);
        assert a[0] in a;
        assert GuestKey(a[0]) in baseAmt;
        assert forall k :: k in baseAmt ==> IsPositiveInt(k) by {
          forall k | k in baseAmt ensures IsPositiveInt(k) {
            var i :| 0 <= i < |a| && GuestKey(a[i]) == k;
            assert a[i] in a;
          }
        }
        Ok(baseAmt)
  }

  /** The AdditionalGuestAmount elements of a Rate ([] without an AdditionalGuestAmounts element). */
  function AddList(rel: Element): seq<Element> {
    var adds := Children(rel, "AdditionalGuestAmounts");
    if |adds| == 1 then Children(adds[0], "AdditionalGuestAmount") else []
  }

  /** The additional amounts of a Rate, with check_uniqness and the adult-entry requirement. */
  function RateAddAmounts(rel: Element): (r: Result<seq<AddAmount>>)
    ensures r.Ok? ==> |Children(rel, "AdditionalGuestAmounts")| <= 1 && AddEntries(AddList(rel)) == r
    ensures r.Ok? ==> AddAmountsOk(r.value)
    ensures |Children(rel, "AdditionalGuestAmounts")| <= 1 && AddEntries(AddList(rel)).Ok? ==>
      var add := AddEntries(AddList(rel)).value;
      (r.Ok? <==> AgesUnique(add, 0) && (|add| > 0 ==> exists k :: 0 <= k < |add| && add[k].ageCode == "10"))
  {
    if |Children(rel, "AdditionalGuestAmounts")| > 1 then Err(RateErr(RateManyAdds))
    else
      var list := AddList(rel);
      var add :- AddEntries(list);
      AdultEntriesParsed(list, add);
      ParsedAddsShape(list, add);
      :- CheckAges(add, 0);
      if |add| > 0 && AdultEntries(list) == 0 then Err(RateErr(RateNoAdult))
      else
        AdultPresent(list, add);
        Ok(add)
  }

  /** get_rate: validate a Rate element against the plan's static data. */
  function GetRate(rel: Element, sd: StaticData): (r: Result<Rate>)
    ensures !HasAttrs(rel) ==> r == Err(TypeError)
    ensures HasAttrs(rel) && !DateAttr(rel, "Start") ==> r == Err(RateErr(RateBadStart))
    ensures HasAttrs(rel) && DateAttr(rel, "Start") && !DateAttr(rel, "End") ==> r == Err(RateErr(RateBadEnd))
    ensures HasAttrs(rel) && DateAttr(rel, "Start") && DateAttr(rel, "End") ==>
      var start, end := ParseDate(Attr(rel, "Start").value), ParseDate(Attr(rel, "End").value);
      var base, add := RateBaseAmounts(rel, sd.baseType), RateAddAmounts(rel);
      (Diff(start, end) < 0 ==> r == Err(RateErr(RateStartAfterEnd))) &&
      (Diff(start, end) >= 0 && base.Err? ==> r == Err(base.error)) &&
      (Diff(start, end) >= 0 && base.Ok? && add.Err? ==> r == Err(add.error)) &&
      (Diff(start, end) >= 0 && base.Ok? && add.Ok? ==> r.Ok?)
    ensures r.Ok? ==> RateOk(r.value)
    ensures r.Ok? ==> DateAttr(rel, "Start") && DateAttr(rel, "End")
    ensures r.Ok? ==>
      r.value.start == ParseDate(Attr(rel, "Start").value) && r.value.end == ParseDate(Attr(rel, "End").value)
    ensures r.Ok? ==> r.value.nightCnt == sd.unitMultiplier && r.value.baseType == sd.baseType
    ensures r.Ok? ==> RateBaseAmounts(rel, sd.baseType) == Ok(r.value.baseAmt)
    ensures r.Ok? ==> RateAddAmounts(rel) == Ok(r.value.addAmt)
  {
    if !HasAttrs(rel) then Err(TypeError)
    else if !DateAttr(rel, "Start") then Err(RateErr(RateBadStart))
    else if !DateAttr(rel, "End") then Err(RateErr(RateBadEnd))
    else
      var start, end := ParseDate(Attr(rel, "Start").value), ParseDate(Attr(rel, "End").value);
      if Diff(start, end) < 0 then Err(RateErr(RateStartAfterEnd))
      else
        var baseAmt :- RateBaseAmounts(rel, sd.baseType);
        var add :- RateAddAmounts(rel);
        Ok(Rate(start, end, sd.unitMultiplier, baseAmt, sd.baseType, add))
  }

  // ------------------------------------------------------------ overlap

  /** get_rate of every element of `list`. */
  function GetRateEach(list: seq<Element>, sd: StaticData): (r: seq<Result<Rate>>)
    ensures |r| == |list| && forall i :: 0 <= i < |list| ==> r[i] == GetRate(list[i], sd)
  {
    seq(|list|, i requires 0 <= i < |list| => GetRate(list[i], sd))
  }

  /** The loop `for (x of list) a.push(get_rate(x, sd))`: the validated Rates, or the first error. */
  function GetRates(list: seq<Element>, sd: StaticData): (r: Result<seq<Rate>>)
    ensures r.Ok? <==> forall i :: 0 <= i < |list| ==> GetRate(list[i], sd).Ok?
    ensures r.Ok? ==> |r.value| == |list| && forall i :: 0 <= i < |list| ==> r.value[i] == GetRate(list[i], sd).value
    ensures r.Ok? ==> forall i :: 0 <= i < |r.value| ==>
      RateOk(r.value[i]) && r.value[i].nightCnt == sd.unitMultiplier && r.value[i].baseType == sd.baseType
  {
    Collect(GetRateEach(list, sd))
  }

  /** No two Rates of the list share a day. */
  predicate Disjoint(rates: seq<Rate>) {
    forall i, j :: 0 <= i < j < |rates| && RateOk(rates[i]) && RateOk(rates[j]) ==>
      !Overlaps(rates[i].start, rates[i].end, rates[j].start, rates[j].end)
  }

  /** check_rates_overlap: every Rate validates and no two overlap (returns the validated Rates). */
  function CheckRatesOverlap(list: seq<Element>, sd: StaticData): (r: Result<seq<Rate>>)
    ensures r.Ok? <==> GetRates(list, sd).Ok? && Disjoint(GetRates(list, sd).value)
    ensures GetRates(list, sd).Err? ==> r == GetRates(list, sd)
    ensures GetRates(list, sd).Ok? && !Disjoint(GetRates(list, sd).value) ==> r == Err(RateErr(RateOverlap))
    ensures r.Ok? ==> r.value == GetRates(list, sd).value
  {
    var rates :- GetRates(list, sd);
    :- Need(Disjoint(rates), RateErr(RateOverlap));
    Ok(rates)
  }

  /** A day that lies in a Rate of a disjoint list lies in no other. */
  lemma AtMostOneRateCovers(rates: seq<Rate>, i: nat, j: nat, d: Date)
    requires i < j < |rates| && RateOk(rates[i]) && RateOk(rates[j])
    requires Disjoint(rates) && Valid(d)
    ensures !(Between(rates[i].start, rates[i].end, d) && Between(rates[j].start, rates[j].end, d))
  {
    assert !Overlaps(rates[i].start, rates[i].end, rates[j].start, rates[j].end);
  }
}
