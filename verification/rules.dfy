/**
 * The BookingRule elements of a rate plan (lib/utilrule.js): their codes,
 * the lookup by code, validation into flat records and the overlap check.
 *
 * A BookingRule is "specific" when it has a (truthy) Code, which then names
 * a room type, and "generic" otherwise.
 */
module Rules {
  import opened Wrappers
  import opened Errors
  import opened Text
  import opened Tree
  import opened Dates
  import opened StayRules


  const RuleLosMessages := LosMessages(
    RuleErr(RuleManyStays),
    RuleErr(RuleStayNoAttrs),
    RuleErr(RuleBadTime),
    RuleErr(RuleBadUnit),
    RuleErr(RuleTwoMin),
    RuleErr(RuleTwoMax),
    RuleErr(RuleBadType),
    RuleErr(RuleMinAboveMax))

  const RuleDowMessages := DowMessages(
    RuleErr(RuleManyDows),
    RuleErr(RuleManyArrival),
    RuleErr(RuleBadArrival),
    RuleErr(RuleManyDeparture),
    RuleErr(RuleBadDeparture))

  // ------------------------------------------------------------- codes

  /** The BookingRule elements of the plan's BookingRules element ([] without one). */
  function RuleList(plan: Element): seq<Element> {
    var rules := Children(plan, "BookingRules");
    if |rules| >= 1 then Children(rules[0], "BookingRule") else []
  }

  /** A specific rule: its Code is present and not empty. */
  predicate IsSpecific(x: Element) {
    Truthy(Attr(x, "Code"))
  }

  /** What get_unique_codes demands of each rule: attributes, and a ROOMTYPE context when coded. */
  predicate RuleCodeOk(x: Element) {
    HasAttrs(x) && (IsSpecific(x) ==> Attr(x, "CodeContext") == Some("ROOMTYPE"))
  }

  /** `list[k]` is the first rule that get_unique_codes rejects. */
  predicate FirstBadRule(list: seq<Element>, k: int) {
    0 <= k < |list| && !RuleCodeOk(list[k]) && forall j :: 0 <= j < k ==> RuleCodeOk(list[j])
  }

  /** The Code values of the specific rules of `list`, in document order. */
  function SpecificCodes(list: seq<Element>): seq<string> {
    if |list| == 0 then []
    else (if IsSpecific(list[0]) then [Attr(list[0], "Code").value] else []) + SpecificCodes(list[1..])
  }

  lemma {:induction false} SpecificCodesSnoc(list: seq<Element>, x: Element)
    ensures SpecificCodes(list + [x]) ==
      SpecificCodes(list) + (if IsSpecific(x) then [Attr(x, "Code").value] else [])
  {
    if |list| > 0 {
      assert (list + [x])[1..] == list[1..] + [x];
      SpecificCodesSnoc(list[1..], x);
    }
  }

  /**
   * The loop of get_unique_codes: the codes in the order they are met, and
   * whether a rule without a code was seen.
   */
  function RuleCodes(list: seq<Element>): (r: Result<(seq<string>, bool)>)
    ensures r.Ok? <==> forall x :: x in list ==> RuleCodeOk(x)
    ensures r.Ok? ==> forall c :: c in r.value.0 <==> exists x :: x in list && IsSpecific(x) && Attr(x, "Code") == Some(c)
    ensures r.Ok? ==> (r.value.1 <==> exists x :: x in list && !IsSpecific(x))
    ensures r.Ok? ==> r.value.0 == SpecificCodes(list)
    ensures r.Err? ==>
      exists k :: FirstBadRule(list, k) && r.error == (if HasAttrs(list[k]) then RuleErr(RuleBadContext) else RuleErr(RuleNoAttrs))
  {
    if |list| == 0 then Ok(([], false))
    else
      var prefix, x := list[..|list| - 1], list[|list| - 1];
      assert list == prefix + [x];
      assert forall y :: y in list <==> y in prefix || y == x;
      var acc := RuleCodes(prefix);
      SpecificCodesSnoc(prefix, x);
      if acc.Err? then
        var k :| FirstBadRule(prefix, k) && acc.error == (if HasAttrs(prefix[k]) then RuleErr(RuleBadContext) else RuleErr(RuleNoAttrs));
        assert FirstBadRule(list, k);
        acc
      else if !RuleCodeOk(x) then
        assert FirstBadRule(list, |list| - 1);
        if !HasAttrs(x) then Err(RuleErr(RuleNoAttrs)) else Err(RuleErr(RuleBadContext))
      else if IsSpecific(x) then Ok((acc.value.0 + [Attr(x, "Code").value], acc.value.1))
      else Ok((acc.value.0, true))
  }

  /** The keys as defined values, followed by one `undefined` when `undef` is set. */
  function WithUndefined(keys: seq<string>, undef: bool): (r: seq<Option<string>>)
    requires NoDups(keys)
    ensures NoDups(r)
    ensures forall c :: Some(c) in r <==> c in keys
    ensures None in r <==> undef
    ensures forall i :: 0 <= i < |r| - 1 ==> r[i].Some?
  {
    var defined := seq(|keys|, i requires 0 <= i < |keys| => Some(keys[i]));
    var r := defined + (if undef then [None] else []);
    assert forall c :: Some(c) in r <==> c in keys by {
      forall c ensures Some(c) in r <==> c in keys {
        if Some(c) in r {
          var i :| 0 <= i < |r| && r[i] == Some(c);
          assert keys[i] == c;
        }
        if c in keys {
          var i :| 0 <= i < |keys| && keys[i] == c;
          assert r[i] == Some(c);
        }
      }
    }
    assert NoDups(r) by {
      forall i, j | 0 <= i < j < |r| ensures r[i] != r[j] {
        if j < |keys| {
          assert keys[i] != keys[j];
        }
      }
    }
    r
  }

  /**
   * get_unique_codes: the distinct codes of the specific rules in Object.keys
   * order, followed by one `undefined` (None) when some rule has no code.
   */
  function GetUniqueRuleCodes(plan: Element): (r: Result<seq<Option<string>>>)
    ensures |Children(plan, "BookingRules")| > 1 ==> r == Err(RuleErr(ManyRuleLists))
    ensures r.Ok? <==>
      |Children(plan, "BookingRules")| <= 1 && forall x :: x in RuleList(plan) ==> RuleCodeOk(x)
    ensures r.Ok? ==> NoDups(r.value)
    ensures r.Ok? ==> forall c :: Some(c) in r.value <==>
      exists x :: x in RuleList(plan) && IsSpecific(x) && Attr(x, "Code") == Some(c)
    ensures r.Ok? ==> (None in r.value <==> exists x :: x in RuleList(plan) && !IsSpecific(x))
    ensures r.Ok? ==> forall i :: 0 <= i < |r.value| - 1 ==> r.value[i].Some?
    ensures r.Ok? ==> (ObjectKeysOrder(SpecificCodes(RuleList(plan)));
      r.value == WithUndefined(ObjectKeys(SpecificCodes(RuleList(plan))),
        exists x :: x in RuleList(plan) && !IsSpecific(x)))
  {
    var rules := Children(plan, "BookingRules");
    :- Need(|rules| <= 1, RuleErr(ManyRuleLists));
    var found :- RuleCodes(RuleList(plan));
    ObjectKeysOrder(found.0);
    Ok(WithUndefined(ObjectKeys(found.0), found.1))
  }

  /**
   * find_rules_by_code: the rules whose Code attribute is `code` (None: the
   * rules without a Code attribute), in document order. A BookingRules
   * element without any BookingRule crashes the loop.
   */
  function FindRulesByCode(plan: Element, code: Option<string>): (r: Result<seq<Element>>)
    ensures |Children(plan, "BookingRules")| == 0 ==> r == Ok([])
    ensures |Children(plan, "BookingRules")| > 1 ==> r == Err(RuleErr(ManyRuleLists))
    ensures |Children(plan, "BookingRules")| == 1 && |RuleList(plan)| == 0 ==> r == Err(TypeError)
    ensures r.Ok? ==> forall x :: x in RuleList(plan) ==> HasAttrs(x)
    ensures r.Ok? ==> forall x :: x in r.value <==> x in RuleList(plan) && Attr(x, "Code") == code
    ensures r.Ok? ==> r.value == WithAttr(RuleList(plan), "Code", code)
  {
    var rules := Children(plan, "BookingRules");
    if |rules| == 0 then Ok([])
    else if |rules| > 1 then Err(RuleErr(ManyRuleLists))
    else if |RuleList(plan)| == 0 then Err(TypeError)
    else Select(RuleList(plan), "Code", code, RuleErr(RuleNoAttrs))
  }

  /**
   * Every listed code selects at least one rule; `undefined` is listed when a
   * rule has no Code attribute at all.
   */
  lemma CodesSelectRules(plan: Element)
    requires GetUniqueRuleCodes(plan).Ok? && |RuleList(plan)| > 0
    ensures forall c :: Some(c) in GetUniqueRuleCodes(plan).value ==>
      FindRulesByCode(plan, Some(c)).Ok? && |FindRulesByCode(plan, Some(c)).value| > 0
    ensures forall x :: x in RuleList(plan) && Attr(x, "Code").None? ==>
      None in GetUniqueRuleCodes(plan).value && x in FindRulesByCode(plan, None).value
  {
    var list := RuleList(plan);
    assert forall x :: x in list ==> HasAttrs(x);
    forall c | Some(c) in GetUniqueRuleCodes(plan).value
      ensures FindRulesByCode(plan, Some(c)).Ok? && |FindRulesByCode(plan, Some(c)).value| > 0
    {
      var x :| x in list && IsSpecific(x) && Attr(x, "Code") == Some(c);
      assert x in FindRulesByCode(plan, Some(c)).value;
    }
  }

  /**
   * A rule whose Code is the empty string counts as generic for
   * get_unique_codes, yet neither the `undefined` lookup nor any listed code
   * selects it: it is never validated by get_rule nor applied.
   */
  lemma EmptyCodeRuleIgnored(plan: Element, x: Element)
    requires GetUniqueRuleCodes(plan).Ok? && x in RuleList(plan) && Attr(x, "Code") == Some("")
    ensures None in GetUniqueRuleCodes(plan).value
    ensures FindRulesByCode(plan, None).Ok? ==> x !in FindRulesByCode(plan, None).value
    ensures forall c :: Some(c) in GetUniqueRuleCodes(plan).value && FindRulesByCode(plan, Some(c)).Ok? ==>
      x !in FindRulesByCode(plan, Some(c)).value
  {
    forall c | Some(c) in GetUniqueRuleCodes(plan).value
      ensures c != ""
    {
      var y :| y in RuleList(plan) && IsSpecific(y) && Attr(y, "Code") == Some(c);
    }
  }

  // -------------------------------------------------------- the record

  /** A BookingRule after validation: get_rule's flat record; `open` is Status "Open". */
  datatype BookingRule = BookingRule(
    start: Date, end: Date, los: Los, arrivalDow: seq<bool>, departureDow: seq<bool>, open: bool)

  /** The invariants every rule that get_rule returns satisfies. */
  predicate RuleOk(b: BookingRule) {
    Valid(b.start) && Valid(b.end) && Diff(b.start, b.end) >= 0 &&
    (b.los.min.Some? && b.los.max.Some? ==> b.los.min.value <= b.los.max.value) &&
    |b.arrivalDow| == 7 && |b.departureDow| == 7
  }

  /** A RestrictionStatus that get_rule accepts: Restriction "Master", Status "Open" or "Close". */
  predicate StatusOk(e: Element) {
    HasAttrs(e) && Attr(e, "Restriction") == Some("Master") &&
    (Attr(e, "Status") == Some("Open") || Attr(e, "Status") == Some("Close"))
  }

  /** The RestrictionStatus elements of a rule: true for Open, the default. */
  function RuleStatus(rs: seq<Element>): (r: Result<bool>)
    ensures r.Ok? <==> |rs| == 0 || (|rs| == 1 && StatusOk(rs[0]))
    ensures r.Ok? ==> (r.value <==> |rs| == 0 || Attr(rs[0], "Status") == Some("Open"))
  {
    if |rs| == 0 then Ok(true)
    else
      :- Need(|rs| == 1, RuleErr(RuleManyStatus));
      :- Need(HasAttrs(rs[0]), RuleErr(RuleStatusNoAttrs));
      :- Need(Attr(rs[0], "Restriction") == Some("Master"), RuleErr(RuleBadRestriction));
      var st := Attr(rs[0], "Status");
      :- Need(st == Some("Open") || st == Some("Close"), RuleErr(RuleBadStatus));
      Ok(st == Some("Open"))
  }

  function RuleLos(brel: Element): Result<Los> {
    ParseLos(Children(brel, "LengthsOfStay"), RuleLosMessages)
  }

  function RuleDows(brel: Element): Result<(seq<bool>, seq<bool>)> {
    ParseDowRestrictions(Children(brel, "DOW_Restrictions"), RuleDowMessages)
  }

  /** get_rule: validate a BookingRule element. */
  function GetRule(brel: Element): (r: Result<BookingRule>)
    ensures !HasAttrs(brel) ==> r == Err(TypeError)
    ensures r.Ok? <==>
      HasAttrs(brel) && DateAttr(brel, "Start") && DateAttr(brel, "End") &&
      Diff(ParseDate(Attr(brel, "Start").value), ParseDate(Attr(brel, "End").value)) >= 0 &&
      RuleLos(brel).Ok? && RuleDows(brel).Ok? && RuleStatus(Children(brel, "RestrictionStatus")).Ok?
    ensures r.Ok? ==> RuleOk(r.value)
    ensures r.Ok? ==>
      r.value.start == ParseDate(Attr(brel, "Start").value) && r.value.end == ParseDate(Attr(brel, "End").value)
    ensures r.Ok? ==>
      r.value.los == RuleLos(brel).value &&
      (r.value.arrivalDow, r.value.departureDow) == RuleDows(brel).value &&
      r.value.open == RuleStatus(Children(brel, "RestrictionStatus")).value
  {
    if !HasAttrs(brel) then Err(TypeError)
    else if !DateAttr(brel, "Start") then Err(RuleErr(RuleBadStart))
    else if !DateAttr(brel, "End") then Err(RuleErr(RuleBadEnd))
    else
      var start, end := ParseDate(Attr(brel, "Start").value), ParseDate(Attr(brel, "End").value);
      if Diff(start, end) < 0 then Err(RuleErr(RuleStartAfterEnd))
      else
        var los :- RuleLos(brel);
        var dows :- RuleDows(brel);
        var open :- RuleStatus(Children(brel, "RestrictionStatus"));
        Ok(BookingRule(start, end, los, dows.0, dows.1, open))
  }

  // ------------------------------------------------------------ overlap

  /** get_rule of every element of `list`. */
  function GetRuleEach(list: seq<Element>): (r: seq<Result<BookingRule>>)
    ensures |r| == |list| && forall i :: 0 <= i < |list| ==> r[i] == GetRule(list[i])
  {
    seq(|list|, i requires 0 <= i < |list| => GetRule(list[i]))
  }

  /** The loop `for (x of list) a.push(get_rule(x))`: the validated rules, or the first error. */
  function GetRules(list: seq<Element>): (r: Result<seq<BookingRule>>)
    ensures r.Ok? <==> forall i :: 0 <= i < |list| ==> GetRule(list[i]).Ok?
    ensures r.Ok? ==> |r.value| == |list| && forall i :: 0 <= i < |list| ==> r.value[i] == GetRule(list[i]).value
    ensures r.Ok? ==> forall i :: 0 <= i < |r.value| ==> RuleOk(r.value[i])
  {
    Collect(GetRuleEach(list))
  }

  /** No two rules of the list share a day. */
  predicate RulesDisjoint(rules: seq<BookingRule>) {
    forall i, j :: 0 <= i < j < |rules| && RuleOk(rules[i]) && RuleOk(rules[j]) ==>
      !Overlaps(rules[i].start, rules[i].end, rules[j].start, rules[j].end)
  }

  /** check_rules_overlap: every rule validates and no two overlap (returns the validated rules). */
  function CheckRulesOverlap(list: seq<Element>): (r: Result<seq<BookingRule>>)
    ensures r.Ok? <==> GetRules(list).Ok? && RulesDisjoint(GetRules(list).value)
    ensures GetRules(list).Err? ==> r == GetRules(list)
    ensures GetRules(list).Ok? && !RulesDisjoint(GetRules(list).value) ==> r == Err(RuleErr(RuleOverlap))
    ensures r.Ok? ==> r.value == GetRules(list).value && forall i :: 0 <= i < |r.value| ==> RuleOk(r.value[i])
  {
    var rules :- GetRules(list);
    assert forall i :: 0 <= i < |rules| ==> RuleOk(rules[i]) by {
      forall i | 0 <= i < |rules| ensures RuleOk(rules[i]) {
        assert GetRuleEach(list)[i] == GetRule(list[i]);
      }
    }
    :- Need(RulesDisjoint(rules), RuleErr(RuleOverlap));
    Ok(rules)
  }

  /** A day that lies in a rule of a disjoint list lies in no other. */
  lemma AtMostOneRuleCovers(rules: seq<BookingRule>, i: nat, j: nat, d: Date)
    requires i < j < |rules| && RuleOk(rules[i]) && RuleOk(rules[j])
    requires RulesDisjoint(rules) && Valid(d)
    ensures !(Between(rules[i].start, rules[i].end, d) && Between(rules[j].start, rules[j].end, d))
  {
    assert !Overlaps(rules[i].start, rules[i].end, rules[j].start, rules[j].end);
  }
}
