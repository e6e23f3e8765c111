/**
 * The decoded form of the RatePlans message that the interpreters walk.
 *
 * An element is what the XML decoder hands over: its attributes (the `$`
 * object, None when the element has no attributes) and,
 * for every child name, the list of child elements in document order (an
 * absent child name and an empty list are the same thing here, because the
 * decoder never produces empty lists).
 */
module Tree {
  import opened Wrappers
  import opened Errors

  datatype Element = Element(attrs: Option<map<string, string>>, children: map<string, seq<Element>>)

  /** `el.$ !== undefined` */
  predicate HasAttrs(e: Element) {
    e.attrs.Some?
  }

  /** `el.$.name`, undefined when the element has no such attribute. */
  function Attr(e: Element, name: string): (r: Option<string>)
    ensures r.Some? ==> HasAttrs(e)
  {
    if e.attrs.Some? && name in e.attrs.value then Some(e.attrs.value[name]) else None
  }

  /** `el.name`, the list of children with that name ([] when absent). */
  function Children(e: Element, name: string): seq<Element> {
    if name in e.children then e.children[name] else []
  }

  /** JavaScript truthiness of an attribute value: present and not the empty string. */
  predicate Truthy(v: Option<string>) {
    v.Some? && v.value != ""
  }

  /** The elements of `list` whose attribute `name` is `value` (None: absent), in document order. */
  function WithAttr(list: seq<Element>, name: string, value: Option<string>): (r: seq<Element>)
    ensures |r| <= |list|
    ensures forall x :: x in r <==> x in list && Attr(x, name) == value
  {
    if |list| == 0 then []
    else if Attr(list[0], name) == value then [list[0]] + WithAttr(list[1..], name, value)
    else WithAttr(list[1..], name, value)
  }

  lemma WithAttrAppend(list: seq<Element>, x: Element, name: string, value: Option<string>)
    ensures WithAttr(list + [x], name, value) ==
      WithAttr(list, name, value) + (if Attr(x, name) == value then [x] else [])
  {
    if |list| > 0 {
      assert (list + [x])[1..] == list[1..] + [x];
      WithAttrAppend(list[1..], x, name, value);
    } else {
      assert (list + [x])[1..] == [];
    }
  }

  /**
   * The loop `for (x of list) { if (x.$ === undefined) throw noAttrs; if (x.$.name !== value) continue; push(x) }`.
   */
  function Select(list: seq<Element>, name: string, value: Option<string>, noAttrs: Error): (r: Result<seq<Element>>)
    ensures r.Ok? <==> forall x :: x in list ==> HasAttrs(x)
    ensures r.Ok? ==> r.value == WithAttr(list, name, value)
    ensures r.Err? ==> r.error == noAttrs
  {
    if |list| == 0 then Ok([])
    else if !HasAttrs(list[0]) then Err(noAttrs)
    else
      var rest :- Select(list[1..], name, value, noAttrs);
      assert forall x :: x in list <==> x == list[0] || x in list[1..];
      Ok(if Attr(list[0], name) == value then [list[0]] + rest else rest)
  }

  /** An element that carries attributes and a truthy attribute `name`. */
  predicate HasValue(x: Element, name: string) {
    HasAttrs(x) && Truthy(Attr(x, name))
  }

  /** The values of attribute `name` of the elements of `list`, in document order ("" where it is missing). */
  function AttrValues(list: seq<Element>, name: string): seq<string> {
    seq(|list|, i requires 0 <= i < |list| => Attr(list[i], name).GetOr(""))
  }

  /** `list[k]` is the first element lacking a truthy attribute `name`. */
  predicate FirstWithout(list: seq<Element>, name: string, k: int) {
    0 <= k < |list| && !HasValue(list[k], name) &&
    forall j :: 0 <= j < k ==> HasValue(list[j], name)
  }

  /**
   * The values of the mandatory attribute `name` of every element, in order;
   * the first element without attributes throws `noAttrs`, the first one whose
   * value is missing or empty throws `missing`.
   */
  function RequiredValues(list: seq<Element>, name: string, noAttrs: Error, missing: Error): (r: Result<seq<string>>)
    ensures r.Ok? <==> forall x :: x in list ==> HasValue(x, name)
    ensures r.Ok? ==> |r.value| == |list|
    ensures r.Ok? ==> forall i :: 0 <= i < |list| ==> Attr(list[i], name) == Some(r.value[i])
    ensures r.Err? ==>
      exists k :: FirstWithout(list, name, k) && r.error == (if HasAttrs(list[k]) then missing else noAttrs)
  {
    if |list| == 0 then Ok([])
    else
      var prefix, x := list[..|list| - 1], list[|list| - 1];
      assert list == prefix + [x];
      assert forall y :: y in list <==> y in prefix || y == x;
      var acc := RequiredValues(prefix, name, noAttrs, missing);
      if acc.Err? then
        var k :| FirstWithout(prefix, name, k) && acc.error == (if HasAttrs(prefix[k]) then missing else noAttrs);
        assert FirstWithout(list, name, k);
        acc
      else if !HasValue(x, name) then
        assert x in list && FirstWithout(list, name, |list| - 1);
        if !HasAttrs(x) then Err(noAttrs) else Err(missing)
      else Ok(acc.value + [Attr(x, name).value])
  }
}
