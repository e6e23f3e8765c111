/**
 * The Supplement elements of a rate plan (lib/utilsupp.js). All Supplements
 * with the same InvCode form one group: exactly one "static" element (the
 * one with a ChargeTypeCode) fixes how the group is charged, and one or more
 * "dynamic" elements give the amount for date ranges, optionally only for
 * one room type.
 */
module Supplements {
  import opened Wrappers
  import opened Errors
  import opened Text
  import opened Tree
  import opened Dates


  /** The charge types a static Supplement may have (OpenTravel ChargeTypeCode list). */
  const ChargeTypes: seq<string> := ["1", "12", "18", "19", "20", "21", "24"]

  /** The weekday pattern of a Supplement that has none: every day, Monday first. */
  const EveryDay := "1111111"

  // ------------------------------------------------------------- codes

  /** The Supplement elements of the plan's Supplements element ([] without one). */
  function SuppList(plan: Element): seq<Element> {
    var supps := Children(plan, "Supplements");
    if |supps| >= 1 then Children(supps[0], "Supplement") else []
  }

  /** get_unique_codes: the distinct InvCode values of the Supplements, in Object.keys order. */
  function GetUniqueSuppCodes(plan: Element): (r: Result<seq<string>>)
    ensures |Children(plan, "Supplements")| > 1 ==> r == Err(SuppErr(ManySuppLists))
    ensures r.Ok? <==>
      |Children(plan, "Supplements")| <= 1 && forall x :: x in SuppList(plan) ==> HasValue(x, "InvCode")
    ensures r.Ok? ==> NoDups(r.value)
    ensures r.Ok? ==> forall c :: c in r.value <==> exists x :: x in SuppList(plan) && Attr(x, "InvCode") == Some(c)
    ensures r.Ok? ==> r.value == ObjectKeys(AttrValues(SuppList(plan), "InvCode"))
  {
    if |Children(plan, "Supplements")| > 1 then Err(SuppErr(ManySuppLists)) else
    var codes :- RequiredValues(SuppList(plan), "InvCode", SuppErr(SuppNoAttrs), SuppErr(SuppNoCode));
    assert codes == AttrValues(SuppList(plan), "InvCode");
    ObjectKeysOrder(codes);
    assert forall c :: c in codes <==> exists x :: x in SuppList(plan) && Attr(x, "InvCode") == Some(c) by {
      forall c ensures c in codes ==> exists x :: x in SuppList(plan) && Attr(x, "InvCode") == Some(c) {
        if c in codes {
          var i :| 0 <= i < |codes| && codes[i] == c;
          assert SuppList(plan)[i] in SuppList(plan);
        }
      }
      forall x | x in SuppList(plan) && Attr(x, "InvCode").Some?
        ensures Attr(x, "InvCode").value in codes
      {
        var i :| 0 <= i < |SuppList(plan)| && SuppList(plan)[i] == x;
        assert codes[i] == Attr(x, "InvCode").value;
      }
    }
    Ok(ObjectKeys(codes))
  }

  // ------------------------------------------------------ merged records

  /** The data of the static element of a group. */
  datatype StaticSupp = StaticSupp(ctc: string, mandatory: bool, preDow: string)

  /** A dynamic element: the amount for start..end, for every room (None) or one room type. */
  datatype DynSupp = DynSupp(start: Date, end: Date, amount: real, preRoom: Option<string>)

  /**
   * get_merged_supp_by_code's result: the empty record `{dyn: []}` when the
   * plan has no Supplements element, else the merged group.
   */
  datatype Merged = NoSupplements | Merged(ctc: string, mandatory: bool, preDow: string, dyn: seq<DynSupp>)

  /** What the first pass demands of every Supplement, whatever its code. */
  predicate EntryOk(x: Element) {
    HasAttrs(x) && Attr(x, "InvType") == Some("EXTRA") && Truthy(Attr(x, "InvCode"))
  }

  /** A static element of group `sic`: it has a ChargeTypeCode. */
  predicate IsStaticOf(x: Element, sic: string) {
    Attr(x, "InvCode") == Some(sic) && Truthy(Attr(x, "ChargeTypeCode"))
  }

  /** A dynamic element of group `sic`: it has no ChargeTypeCode. */
  predicate IsDynamicOf(x: Element, sic: string) {
    Attr(x, "InvCode") == Some(sic) && !Truthy(Attr(x, "ChargeTypeCode"))
  }

  function StaticsOf(list: seq<Element>, sic: string): (r: seq<Element>)
    ensures forall x :: x in r <==> x in list && IsStaticOf(x, sic)
  {
    if |list| == 0 then []
    else
      var rest := StaticsOf(list[..|list| - 1], sic);
      assert forall y :: y in list <==> y in list[..|list| - 1] || y == list[|list| - 1];
      if IsStaticOf(list[|list| - 1], sic) then rest + [list[|list| - 1]] else rest
  }

  function DynamicsOf(list: seq<Element>, sic: string): (r: seq<Element>)
    ensures forall x :: x in r <==> x in list && IsDynamicOf(x, sic)
  {
    if |list| == 0 then []
    else
      var rest := DynamicsOf(list[..|list| - 1], sic);
      assert forall y :: y in list <==> y in list[..|list| - 1] || y == list[|list| - 1];
      if IsDynamicOf(list[|list| - 1], sic) then rest + [list[|list| - 1]] else rest
  }

  /** The checks of a static element made before the duplicate check: no dates, a known charge type. */
  function StaticHead(x: Element): (r: Outcome)
    ensures r.Pass? <==>
      Attr(x, "Start").None? && Attr(x, "End").None? &&
      Attr(x, "ChargeTypeCode").Some? && Attr(x, "ChargeTypeCode").value in ChargeTypes
  {
    if Attr(x, "Start").Some? || Attr(x, "End").Some? then Fail(SuppErr(StaticDates))
    else if !(Attr(x, "ChargeTypeCode").Some? && Attr(x, "ChargeTypeCode").value in ChargeTypes) then Fail(SuppErr(StaticBadCtc))
    else Pass
  }

  /** `^[01]{7}$` */
  predicate IsDowPattern(s: string) {
    |s| == 7 && forall i :: 0 <= i < 7 ==> s[i] == '0' || s[i] == '1'
  }

  /** The static PrerequisiteInventory list: absent means every day, else one ALPINEBITSDOW pattern. */
  function StaticPre(pre: seq<Element>): (r: Result<string>)
    ensures |pre| == 0 ==> r == Ok(EveryDay)
    ensures r.Ok? <==> (|pre| == 0 ||
      (|pre| == 1 && HasAttrs(pre[0]) && Attr(pre[0], "InvType") == Some("ALPINEBITSDOW") &&
       Attr(pre[0], "InvCode").Some? && IsDowPattern(Attr(pre[0], "InvCode").value)))
    ensures r.Ok? ==> IsDowPattern(r.value)
    ensures r.Ok? && |pre| == 1 ==> r.value == Attr(pre[0], "InvCode").value
  {
    if |pre| == 0 then Ok(EveryDay)
    else
      :- Need(|pre| == 1, SuppErr(StaticManyPre));
      :- Need(HasAttrs(pre[0]) && Attr(pre[0], "InvType") == Some("ALPINEBITSDOW"), SuppErr(StaticPreType));
      var code := Attr(pre[0], "InvCode");
      :- Need(code.Some? && IsDowPattern(code.value), SuppErr(StaticPreCode));
      Ok(code.value)
  }

  /** The checks of a static element after the duplicate check: AddToBasicRateIndicator, MandatoryIndicator, weekdays. */
  function StaticTail(x: Element): (r: Result<(bool, string)>)
    ensures r.Ok? <==>
      Truthy(Attr(x, "AddToBasicRateIndicator")) && IsTrueFlag(Attr(x, "AddToBasicRateIndicator").value) &&
      Truthy(Attr(x, "MandatoryIndicator")) &&
      (IsTrueFlag(Attr(x, "MandatoryIndicator").value) || IsFalseFlag(Attr(x, "MandatoryIndicator").value)) &&
      StaticPre(Children(x, "PrerequisiteInventory")).Ok?
    ensures r.Ok? ==> (r.value.0 <==> IsTrueFlag(Attr(x, "MandatoryIndicator").value))
    ensures r.Ok? ==> r.value.1 == StaticPre(Children(x, "PrerequisiteInventory")).value
  {
    var add := Attr(x, "AddToBasicRateIndicator");
    :- Need(Truthy(add) && IsTrueFlag(add.value), SuppErr(StaticBadAdd));
    var mnd := Attr(x, "MandatoryIndicator");
    :- Need(Truthy(mnd), SuppErr(StaticNoMandatory));
    :- Need(IsTrueFlag(mnd.value) || IsFalseFlag(mnd.value), SuppErr(StaticBadMandatory));
    var preDow :- StaticPre(Children(x, "PrerequisiteInventory"));
    Ok((IsTrueFlag(mnd.value), preDow))
  }

  /** A static element that passes all its own checks. */
  predicate StaticOk(x: Element) {
    StaticHead(x).Pass? && StaticTail(x).Ok?
  }

  /** The record of a static element that passes its checks. */
  function StaticOf(x: Element): StaticSupp
    requires StaticOk(x)
  {
    StaticSupp(Attr(x, "ChargeTypeCode").value, StaticTail(x).value.0, StaticTail(x).value.1)
  }

  /**
   * The first pass over all Supplements: each must be an EXTRA with an
   * InvCode, and the group `sic` has at most one static element, whose
   * record is returned.
   */
  function StaticPass(list: seq<Element>, sic: string): (r: Result<Option<StaticSupp>>)
    ensures r.Ok? <==>
      (forall x :: x in list ==> EntryOk(x)) &&
      |StaticsOf(list, sic)| <= 1 && (forall x :: x in StaticsOf(list, sic) ==> StaticOk(x))
    ensures r.Ok? ==> (r.value.Some? <==> |StaticsOf(list, sic)| == 1)
    ensures r.Ok? && r.value.Some? ==> StaticOk(StaticsOf(list, sic)[0]) && r.value.value == StaticOf(StaticsOf(list, sic)[0])
  {
    if |list| == 0 then Ok(None)
    else
      var prefix, x := list[..|list| - 1], list[|list| - 1];
      assert list == prefix + [x];
      assert forall y :: y in list <==> y in prefix || y == x;
      var acc :- StaticPass(prefix, sic);
      if !EntryOk(x) then
        assert x in list;
        if !(HasAttrs(x) && Attr(x, "InvType") == Some("EXTRA")) then Err(SuppErr(SuppBadInvType)) else Err(SuppErr(SuppNoCode))
      else if !IsStaticOf(x, sic) then
        assert StaticsOf(list, sic) == StaticsOf(prefix, sic);
        Ok(acc)
      else
        :- StaticHead(x);
        if acc.Some? then
          assert StaticsOf(prefix, sic)[0] in StaticsOf(list, sic);
          Err(SuppErr(DupStatic(sic)))
        else
          var tail :- StaticTail(x);
          assert StaticsOf(list, sic) == [x];
          Ok(Some(StaticSupp(Attr(x, "ChargeTypeCode").value, tail.0, tail.1)))
  }

  /** The PrerequisiteInventory of a dynamic element: none, or one ROOMTYPE with a non-empty InvCode. */
  function DynPre(pre: seq<Element>): (r: Result<Option<string>>)
    ensures |pre| == 0 ==> r == Ok(None)
    ensures |pre| == 1 && !HasAttrs(pre[0]) ==> r == Err(TypeError)
    ensures r.Ok? <==> (|pre| == 0 ||
      (|pre| == 1 && Attr(pre[0], "InvType") == Some("ROOMTYPE") && Truthy(Attr(pre[0], "InvCode"))))
    ensures r.Ok? && |pre| == 1 ==> r.value == Attr(pre[0], "InvCode")
  {
    if |pre| == 0 then Ok(None)
    else
      :- Need(|pre| == 1, SuppErr(DynManyPre));
      :- Need(HasAttrs(pre[0]), TypeError);
      :- Need(Attr(pre[0], "InvType") == Some("ROOMTYPE"), SuppErr(DynPreType));
      var room := Attr(pre[0], "InvCode");
      :- Need(Truthy(room), SuppErr(DynPreCode));
      Ok(room)
  }

  /** The invariants of a dynamic record. */
  predicate DynOk(d: DynSupp) {
    Valid(d.start) && Valid(d.end) && Diff(d.start, d.end) >= 0 && d.amount >= 0.0 &&
    (d.preRoom.Some? ==> d.preRoom.value != "")
  }

  /** One dynamic element of the second pass. */
  function GetDyn(x: Element): (r: Result<DynSupp>)
    ensures r.Ok? <==>
      DateAttr(x, "Start") && DateAttr(x, "End") &&
      Diff(ParseDate(Attr(x, "Start").value), ParseDate(Attr(x, "End").value)) >= 0 &&
      Attr(x, "Amount").Some? && IsDecimal(Attr(x, "Amount").value) &&
      DynPre(Children(x, "PrerequisiteInventory")).Ok?
    ensures r.Ok? ==> DynOk(r.value)
    ensures r.Ok? ==>
      r.value.start == ParseDate(Attr(x, "Start").value) && r.value.end == ParseDate(Attr(x, "End").value) &&
      r.value.amount == DecimalValue(Attr(x, "Amount").value) &&
      r.value.preRoom == DynPre(Children(x, "PrerequisiteInventory")).value
  {
    if !DateAttr(x, "Start") then Err(SuppErr(DynBadStart)) else
    :- Need(DateAttr(x, "End"), SuppErr(DynBadEnd));
    var start, end := ParseDate(Attr(x, "Start").value), ParseDate(Attr(x, "End").value);
    :- Need(Diff(start, end) >= 0, SuppErr(DynStartAfterEnd));
    var amt := Attr(x, "Amount");
    :- Need(amt.Some? && IsDecimal(amt.value), SuppErr(DynBadAmount));
    var room :- DynPre(Children(x, "PrerequisiteInventory"));
    Ok(DynSupp(start, end, DecimalValue(amt.value), room))
  }

  function GetDynEach(list: seq<Element>): (r: seq<Result<DynSupp>>)
    ensures |r| == |list| && forall i :: 0 <= i < |list| ==> r[i] == GetDyn(list[i])
  {
    seq(|list|, i requires 0 <= i < |list| => GetDyn(list[i]))
  }

  /** No two dynamic records for the same room restriction share a day. */
  predicate DynDisjoint(dyn: seq<DynSupp>) {
    forall i, j :: 0 <= i < j < |dyn| && DynOk(dyn[i]) && DynOk(dyn[j]) && dyn[i].preRoom == dyn[j].preRoom ==>
      !Overlaps(dyn[i].start, dyn[i].end, dyn[j].start, dyn[j].end)
  }

  /** The invariants of a merged group. */
  predicate MergedOk(m: Merged) {
    m.Merged? ==>
      m.ctc in ChargeTypes && IsDowPattern(m.preDow) && |m.dyn| > 0 &&
      (forall i :: 0 <= i < |m.dyn| ==> DynOk(m.dyn[i])) && DynDisjoint(m.dyn)
  }

  /**
   * The second pass: the records of the dynamic elements of group `sic`, in
   * document order; at least one, and no two for the same room restriction
   * overlap.
   */
  function DynPass(list: seq<Element>, sic: string): (r: Result<seq<DynSupp>>)
    ensures r.Ok? <==>
      Collect(GetDynEach(DynamicsOf(list, sic))).Ok? &&
      |DynamicsOf(list, sic)| > 0 && DynDisjoint(Collect(GetDynEach(DynamicsOf(list, sic))).value)
    ensures r.Ok? ==> r == Collect(GetDynEach(DynamicsOf(list, sic)))
    ensures r.Ok? ==> |r.value| > 0 && (forall i :: 0 <= i < |r.value| ==> DynOk(r.value[i])) && DynDisjoint(r.value)
  {
    var dyns := DynamicsOf(list, sic);
    var dyn :- Collect(GetDynEach(dyns));
    assert forall i :: 0 <= i < |dyn| ==> DynOk(dyn[i]) by {
      forall i | 0 <= i < |dyn| ensures DynOk(dyn[i]) {
        assert GetDynEach(dyns)[i] == GetDyn(dyns[i]);
      }
    }
    :- Need(|dyn| > 0, SuppErr(NoDynamic(sic)));
    :- Need(DynDisjoint(dyn), SuppErr(Overlay(sic)));
    Ok(dyn)
  }

  /** get_merged_supp_by_code: the static record of group `sic` merged with its dynamic records. */
  function GetMergedSupp(plan: Element, sic: string): (r: Result<Merged>)
    ensures |Children(plan, "Supplements")| == 0 ==> r == Ok(NoSupplements)
    ensures |Children(plan, "Supplements")| > 1 ==> r == Err(SuppErr(ManySuppLists))
    ensures |Children(plan, "Supplements")| == 1 ==>
      (r.Ok? <==>
        |SuppList(plan)| > 0 && StaticPass(SuppList(plan), sic).Ok? &&
        StaticPass(SuppList(plan), sic).value.Some? && DynPass(SuppList(plan), sic).Ok?)
    ensures r.Ok? && r.value.Merged? ==>
      var list := SuppList(plan);
      (forall x :: x in list ==> EntryOk(x)) &&
      |StaticsOf(list, sic)| == 1 && StaticOk(StaticsOf(list, sic)[0]) &&
      StaticOf(StaticsOf(list, sic)[0]) == StaticSupp(r.value.ctc, r.value.mandatory, r.value.preDow) &&
      DynPass(list, sic) == Ok(r.value.dyn)
    ensures r.Ok? ==> MergedOk(r.value)
  {
    var supps := Children(plan, "Supplements");
    if |supps| == 0 then Ok(NoSupplements)
    else
      :- Need(|supps| == 1, SuppErr(ManySuppLists));
      var list := SuppList(plan);
      :- Need(|list| > 0, TypeError);
      var st :- StaticPass(list, sic);
      :- Need(st.Some?, SuppErr(NoStatic(sic)));
      var dyn :- DynPass(list, sic);
      Ok(Merged(st.value.ctc, st.value.mandatory, st.value.preDow, dyn))
  }

  /** A valid dynamic record contains day `d` and applies to room type `room`. */
  predicate Covers(x: DynSupp, d: Date, room: string) {
    DynOk(x) && Valid(d) && Between(x.start, x.end, d) && (x.preRoom.None? || x.preRoom == Some(room))
  }

  /**
   * The inner loop of match_supps: the sum of the amounts of the dynamic
   * records that cover `d` for `room`, undefined (None) when none does.
   */
  function DayAmount(dyn: seq<DynSupp>, d: Date, room: string): (r: Option<real>)
    ensures r.None? <==> forall i :: 0 <= i < |dyn| ==> !Covers(dyn[i], d, room)
    ensures r.GetOr(0.0) == CoveredSum(dyn, d, room)
  {
    if |dyn| == 0 then None
    else
      var prefix, x := dyn[..|dyn| - 1], dyn[|dyn| - 1];
      assert forall i :: 0 <= i < |prefix| ==> prefix[i] == dyn[i];
      assert dyn == prefix + [x];
      CoveredSumSnoc(prefix, x, d, room);
      var acc := DayAmount(prefix, d, room);
      if Covers(x, d, room) then Some(acc.GetOr(0.0) + x.amount) else acc
  }

  /** The sum of the amounts of the records of `dyn` that cover `d` for `room`. */
  function CoveredSum(dyn: seq<DynSupp>, d: Date, room: string): real {
    if |dyn| == 0 then 0.0
    else (if Covers(dyn[0], d, room) then dyn[0].amount else 0.0) + CoveredSum(dyn[1..], d, room)
  }

  lemma {:induction false} CoveredSumSnoc(dyn: seq<DynSupp>, x: DynSupp, d: Date, room: string)
    ensures CoveredSum(dyn + [x], d, room) ==
      CoveredSum(dyn, d, room) + (if Covers(x, d, room) then x.amount else 0.0)
  {
    if |dyn| > 0 {
      assert (dyn + [x])[1..] == dyn[1..] + [x];
      CoveredSumSnoc(dyn[1..], x, d, room);
    }
  }

  /**
   * In a validated group at most two dynamic records contain a given day for
   * a room: the one for every room type and the one for that room type.
   */
  lemma AtMostTwoApply(dyn: seq<DynSupp>, d: Date, room: string, i: nat, j: nat, k: nat)
    requires forall n :: 0 <= n < |dyn| ==> DynOk(dyn[n])
    requires DynDisjoint(dyn) && Valid(d)
    requires i < j < k < |dyn|
    ensures !(Covers(dyn[i], d, room) && Covers(dyn[j], d, room) && Covers(dyn[k], d, room))
  {
    if Between(dyn[i].start, dyn[i].end, d) && Between(dyn[j].start, dyn[j].end, d) &&
       Between(dyn[k].start, dyn[k].end, d) {
      assert Overlaps(dyn[i].start, dyn[i].end, dyn[j].start, dyn[j].end);
      assert Overlaps(dyn[i].start, dyn[i].end, dyn[k].start, dyn[k].end);
      assert Overlaps(dyn[j].start, dyn[j].end, dyn[k].start, dyn[k].end);
    }
  }
}
