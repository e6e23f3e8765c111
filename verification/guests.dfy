/**
 * What the matching pass does to the guests before pricing a room type
 * (lib/engine.js, steps 0, 2 and 3): the number of guests who must pay the
 * full rate, the promotion of the oldest children to adults until that
 * number is reached, and the family discount that lets some of the
 * youngest children stay for free.
 */
module Guests {
  import opened Wrappers
  import opened Discounts

  // ------------------------------------------------------------ occupancy

  /** One row of the job's inventory occupancy table: min, std and max guests, and at most that many children. */
  datatype InvOcc = InvOcc(min: nat, std: nat, max: nat, maxChildren: Option<nat>)

  /** The row passed the job validation: positive min <= std <= max, and the child limit does not exceed max. */
  predicate InvOccOk(io: InvOcc) {
    1 <= io.min <= io.std <= io.max &&
    (io.maxChildren.Some? ==> io.maxChildren.value <= io.max)
  }

  /**
   * full_payers_needed: std without a child limit; otherwise enough adults
   * that a full room holds no more than the allowed children (max - mch),
   * clamped to the range min..std.
   */
  function FullPayersNeeded(io: InvOcc): (n: nat)
    requires InvOccOk(io)
    ensures io.min <= n <= io.std
    ensures io.maxChildren.None? ==> n == io.std
    ensures io.maxChildren.Some? ==>
      var adultsWhenFull := io.max - io.maxChildren.value;
      (adultsWhenFull <= io.min ==> n == io.min) &&
      (adultsWhenFull >= io.std ==> n == io.std) &&
      (io.min <= adultsWhenFull <= io.std ==> n == adultsWhenFull)
  {
    match io.maxChildren
    case None => io.std
    case Some(mch) =>
      var m := if io.max - mch < io.std then io.max - mch else io.std;
      if io.min > m then io.min else m
  }

  // -------------------------------------------------------------- sorting

  predicate Sorted(s: seq<nat>) {
    forall i, j :: 0 <= i < j < |s| ==> s[i] <= s[j]
  }

  function Insert(x: nat, s: seq<nat>): (r: seq<nat>)
    requires Sorted(s)
    ensures Sorted(r)
    ensures multiset(r) == multiset(s) + multiset{x}
    ensures |r| == |s| + 1
    ensures r[0] == x || (|s| > 0 && r[0] == s[0])
  {
    if |s| == 0 then [x]
    else if x <= s[0] then [x] + s
    else
      var rest := Insert(x, s[1..]);
      assert s == [s[0]] + s[1..];
      assert s[0] <= rest[0];
      [s[0]] + rest
  }

  /** The children's ages sorted numerically, ascending. */
  function SortAges(s: seq<nat>): (r: seq<nat>)
    ensures Sorted(r)
    ensures multiset(r) == multiset(s)
    ensures |r| == |s|
  {
    if |s| == 0 then []
    else
      assert s == s[..|s| - 1] + [s[|s| - 1]];
      Insert(s[|s| - 1], SortAges(s[..|s| - 1]))
  }

  /** Any prefix of a sorted list is sorted. */
  lemma SortedPrefix(s: seq<nat>, n: nat)
    requires Sorted(s) && n <= |s|
    ensures Sorted(s[..n])
  {
    assert forall i :: 0 <= i < n ==> s[..n][i] == s[i];
  }

  /** The first element of a sorted sequence is its least element. */
  lemma SortedHead(s: seq<nat>, y: nat)
    requires Sorted(s) && |s| > 0 && y in multiset(s)
    ensures s[0] <= y
  {
    var j :| 0 <= j < |s| && s[j] == y;
  }

  lemma MultisetTail(s: seq<nat>)
    requires |s| > 0
    ensures multiset(s[1..]) == multiset(s) - multiset{s[0]}
  {
    assert s == [s[0]] + s[1..];
  }

  /** A sorted permutation is unique, so every correct sort of the ages yields the same list. */
  lemma {:induction false} SortedUnique(a: seq<nat>, b: seq<nat>)
    requires Sorted(a) && Sorted(b) && multiset(a) == multiset(b)
    ensures a == b
    decreases |a|
  {
    assert |a| == |b| by {
      assert |a| == |multiset(a)|;
      assert |b| == |multiset(b)|;
    }
    if |a| > 0 {
      assert a[0] in multiset(a) && b[0] in multiset(b);
      SortedHead(a, b[0]);
      SortedHead(b, a[0]);
      MultisetTail(a);
      MultisetTail(b);
      assert Sorted(a[1..]);
      assert Sorted(b[1..]);
      SortedUnique(a[1..], b[1..]);
      assert a[0] == b[0];
      assert forall i :: 1 <= i < |a| ==> a[i] == a[1..][i - 1] == b[1..][i - 1] == b[i];
    }
  }

  // ------------------------------------------------------------ promotion

  /**
   * Step 2: while fewer adults than full payers are counted and children
   * remain, the last (oldest) child of the sorted list becomes an adult.
   */
  function Promote(adults: nat, children: seq<nat>, fpn: nat): (r: (nat, seq<nat>))
    ensures r.0 + |r.1| == adults + |children|
    ensures |r.1| <= |children| && r.1 == children[..|r.1|]
    ensures r.0 >= fpn || |r.1| == 0
    ensures r.0 >= adults && (r.0 > adults ==> r.0 <= fpn)
    decreases |children|
  {
    if adults < fpn && |children| > 0 then Promote(adults + 1, children[..|children| - 1], fpn)
    else (adults, children)
  }

  /** Promotion keeps the children sorted and never leaves a child older than a promoted one. */
  lemma PromoteSorted(adults: nat, children: seq<nat>, fpn: nat)
    requires Sorted(children)
    ensures var r := Promote(adults, children, fpn);
      Sorted(r.1) &&
      forall i, j :: 0 <= i < |r.1| <= j < |children| ==> r.1[i] <= children[j]
  {
  }

  /** How many children step 2 promotes: as many as are missing to `fpn`, but no more than there are. */
  function PromotedCount(adults: nat, children: nat, fpn: nat): (n: nat)
    ensures n <= children
  {
    if fpn <= adults then 0 else if children < fpn - adults then children else fpn - adults
  }

  /** Promotion in closed form: exactly PromotedCount of the last children become adults. */
  lemma PromoteCount(adults: nat, children: seq<nat>, fpn: nat)
    ensures var n := PromotedCount(adults, |children|, fpn);
      Promote(adults, children, fpn) == (adults + n, children[..|children| - n])
  {
    var r := Promote(adults, children, fpn);
    assert r.1 == children[..|r.1|];
  }

  // --------------------------------------------------------------- family

  /** How many of the children are younger than `maxAge` (num_to_apply). */
  function CountBelow(s: seq<nat>, maxAge: nat): (n: nat)
    ensures n <= |s|
  {
    if |s| == 0 then 0 else (if s[0] < maxAge then 1 else 0) + CountBelow(s[1..], maxAge)
  }

  /** Removes the first child younger than `maxAge`, if any. */
  function RemoveFirstBelow(s: seq<nat>, maxAge: nat): (r: seq<nat>)
    ensures CountBelow(s, maxAge) > 0 ==> |r| == |s| - 1 && CountBelow(r, maxAge) == CountBelow(s, maxAge) - 1
    ensures CountBelow(s, maxAge) == 0 ==> r == s
  {
    if |s| == 0 then []
    else if s[0] < maxAge then s[1..]
    else [s[0]] + RemoveFirstBelow(s[1..], maxAge)
  }

  /** The while loop of step 3: remove the first young child until `toApply` or `freeCount` are reached. */
  function FamilyLoop(s: seq<nat>, maxAge: nat, toApply: nat, freeCount: nat, applied: nat): (r: (seq<nat>, nat))
    requires applied <= toApply && CountBelow(s, maxAge) == toApply - applied
    ensures r.1 == (if toApply < freeCount then toApply else if applied > freeCount then applied else freeCount)
    ensures |r.0| + r.1 == |s| + applied
    ensures CountBelow(r.0, maxAge) == toApply - r.1
    decreases toApply - applied
  {
    if applied < toApply && applied < freeCount then
      FamilyLoop(RemoveFirstBelow(s, maxAge), maxAge, toApply, freeCount, applied + 1)
    else (s, applied)
  }

  /**
   * Step 3: when at least one child, and at least MinCount children, are
   * younger than MaxAge, up to LastQualifyingPosition of them (the first
   * ones in the list) stay for free; returns the remaining children and
   * num_applied.
   */
  function FamilyStep(children: seq<nat>, f: Family): (r: (seq<nat>, nat))
    ensures var k := CountBelow(children, f.maxAge);
      if k >= 1 && k >= f.minCount then r.1 == (if k < f.freeCount then k else f.freeCount)
      else r == (children, 0)
    ensures |r.0| + r.1 == |children|
  {
    var k := CountBelow(children, f.maxAge);
    if k >= 1 && k >= f.minCount then FamilyLoop(children, f.maxAge, k, f.freeCount, 0)
    else (children, 0)
  }

  /** In a sorted list the young children come first, so step 3 drops a prefix. */
  lemma {:induction false} SortedBelowPrefix(s: seq<nat>, maxAge: nat)
    requires Sorted(s) && CountBelow(s, maxAge) > 0
    ensures s[0] < maxAge && RemoveFirstBelow(s, maxAge) == s[1..]
  {
    if s[0] >= maxAge {
      NoneBelow(s, maxAge);
    }
  }

  lemma {:induction false} NoneBelow(s: seq<nat>, maxAge: nat)
    requires Sorted(s) && |s| > 0 && s[0] >= maxAge
    ensures CountBelow(s, maxAge) == 0
    decreases |s|
  {
    if |s| > 1 {
      assert s[1] >= s[0];
      NoneBelow(s[1..], maxAge);
    }
  }

  lemma {:induction false} FamilyLoopPrefix(s: seq<nat>, maxAge: nat, toApply: nat, freeCount: nat, applied: nat)
    requires applied <= toApply && CountBelow(s, maxAge) == toApply - applied && Sorted(s)
    ensures var r := FamilyLoop(s, maxAge, toApply, freeCount, applied);
      r.1 - applied <= |s| && r.0 == s[r.1 - applied..]
    decreases toApply - applied
  {
    if applied < toApply && applied < freeCount {
      SortedBelowPrefix(s, maxAge);
      FamilyLoopPrefix(s[1..], maxAge, toApply, freeCount, applied + 1);
      var r := FamilyLoop(s, maxAge, toApply, freeCount, applied);
      assert s[1..][r.1 - (applied + 1)..] == s[r.1 - applied..];
    }
  }

  /** On the sorted children, the family step drops exactly num_applied children from the front. */
  lemma FamilyDropsYoungest(children: seq<nat>, f: Family)
    requires Sorted(children)
    ensures var r := FamilyStep(children, f);
      r.1 <= |children| && r.0 == children[r.1..] && Sorted(r.0) &&
      forall i :: 0 <= i < r.1 ==> children[i] < f.maxAge
  {
    var k := CountBelow(children, f.maxAge);
    if k >= 1 && k >= f.minCount {
      FamilyLoopPrefix(children, f.maxAge, k, f.freeCount, 0);
      var r := FamilyStep(children, f);
      BelowPrefix(children, f.maxAge, r.1);
    }
  }

  /** The first `n <= CountBelow` elements of a sorted list are all below `maxAge`. */
  lemma {:induction false} BelowPrefix(s: seq<nat>, maxAge: nat, n: nat)
    requires Sorted(s) && n <= CountBelow(s, maxAge)
    ensures forall i :: 0 <= i < n ==> s[i] < maxAge
    decreases |s|
  {
    if n > 0 {
      SortedBelowPrefix(s, maxAge);
      BelowPrefix(s[1..], maxAge, n - 1);
      assert forall i :: 1 <= i < n ==> s[i] == s[1..][i - 1];
    }
  }
}
