/**
 * The JavaScript string and number behaviour the interpreters rely on:
 * the digit regular expressions, `Number(...)` of digit strings, decimal
 * amounts, the case-insensitive 1/true and 0/false flags, `<` on two
 * strings, the truncating `%`, and the key order of `Object.keys`.
 */
module Text {

  // ---------------------------------------------------------------- digits

  predicate IsDigit(c: char) {
    '0' <= c <= '9'
  }

  predicate AllDigits(s: string) {
    forall i :: 0 <= i < |s| ==> IsDigit(s[i])
  }

  function DigitValue(c: char): nat
    requires IsDigit(c)
  {
    (c as int - '0' as int) as nat
  }

  function DigitChar(n: nat): (c: char)
    requires n < 10
    ensures IsDigit(c) && DigitValue(c) == n
  {
    ('0' as int + n) as char
  }

  /** `Number(s)` for a string of ASCII digits (leading zeros allowed). */
  function DigitsValue(s: string): nat
    requires AllDigits(s)
    decreases |s|
  {
    if |s| == 0 then 0 else DigitsValue(s[..|s| - 1]) * 10 + DigitValue(s[|s| - 1])
  }

  function Pow10(n: nat): (p: nat)
    ensures p >= 1
  {
    if n == 0 then 1 else 10 * Pow10(n - 1)
  }

  /** `^\d+$` (is_non_negative_int). */
  predicate IsNonNegInt(s: string) {
    |s| > 0 && AllDigits(s)
  }

  /** is_positive_int: `^\d+$` and numerically greater than zero. */
  predicate IsPositiveInt(s: string) {
    IsNonNegInt(s) && DigitsValue(s) > 0
  }

  /** `^\d{1,3}$`, the shape of the guest counts and ages of a job. */
  predicate IsUpToThreeDigits(s: string) {
    1 <= |s| <= 3 && AllDigits(s)
  }

  lemma {:induction false} DigitsValueBound(s: string)
    requires AllDigits(s)
    ensures DigitsValue(s) < Pow10(|s|)
    decreases |s|
  {
    if |s| > 0 {
      DigitsValueBound(s[..|s| - 1]);
    }
  }

  // ------------------------------------------------------ canonical numbers

  /** `String(n)` for a natural number: its decimal digits, no leading zero. */
  function NatToString(n: nat): (s: string)
    ensures IsNonNegInt(s)
    ensures |s| == 1 || s[0] != '0'
    ensures DigitsValue(s) == n
    decreases n
  {
    if n < 10 then [DigitChar(n)]
    else
      var p := NatToString(n / 10);
      assert (p + [DigitChar(n % 10)])[..|p|] == p;
      p + [DigitChar(n % 10)]
  }

  /** `n` times `q` as a repeated sum, which keeps proofs about amounts linear. */
  function Times(n: nat, q: real): (r: real)
    ensures n == 0 ==> r == 0.0
  {
    if n == 0 then 0.0 else q + Times(n - 1, q)
  }

  lemma {:induction false} TimesIsProduct(n: nat, q: real)
    ensures Times(n, q) == n as real * q
  {
    if n > 0 {
      TimesIsProduct(n - 1, q);
    }
  }

  lemma {:induction false} TimesZero(n: nat)
    ensures Times(n, 0.0) == 0.0
  {
    if n > 0 {
      TimesZero(n - 1);
    }
  }

  lemma {:induction false} TimesAdd(n: nat, p: real, q: real)
    ensures Times(n, p + q) == Times(n, p) + Times(n, q)
  {
    if n > 0 {
      TimesAdd(n - 1, p, q);
    }
  }

  /** `String(n)` of an integer. */
  function IntToString(n: int): string {
    if n >= 0 then NatToString(n) else "-" + NatToString(-n)
  }

  /** A digit string written the way `String(Number(s))` would write it. */
  predicate IsCanonical(s: string) {
    IsNonNegInt(s) && (|s| == 1 || s[0] != '0')
  }

  lemma {:induction false} CanonicalHasNoLeadingZeroValue(s: string)
    requires IsCanonical(s) && |s| > 1
    ensures DigitsValue(s) >= Pow10(|s| - 1)
    decreases |s|
  {
    var t := s[..|s| - 1];
    if |s| == 2 {
      assert DigitsValue(t) == DigitValue(s[0]);
    } else {
      assert t[0] == s[0];
      CanonicalHasNoLeadingZeroValue(t);
    }
  }

  /** Canonical digit strings are exactly the renderings of their values. */
  lemma {:induction false} CanonicalRoundTrip(s: string)
    requires IsCanonical(s)
    ensures NatToString(DigitsValue(s)) == s
    decreases |s|
  {
    var n := DigitsValue(s);
    if |s| == 1 {
      assert s[..|s| - 1] == [] && s[|s| - 1] == s[0];
      assert n == DigitsValue([]) * 10 + DigitValue(s[0]);
      assert n < 10;
      assert [DigitChar(n)] == s;
    } else {
      var t := s[..|s| - 1];
      CanonicalHasNoLeadingZeroValue(s);
      assert n >= 10;
      assert n / 10 == DigitsValue(t) && n % 10 == DigitValue(s[|s| - 1]);
      assert IsCanonical(t) by {
        assert t[0] == s[0];
      }
      CanonicalRoundTrip(t);
      assert s == t + [s[|s| - 1]];
    }
  }

  /** Two digit strings name the same JS object key only if they are equal. */
  lemma NatToStringInjective(a: nat, b: nat)
    requires NatToString(a) == NatToString(b)
    ensures a == b
  {
  }

  lemma {:induction false} Pow10Monotone(a: nat, b: nat)
    requires a < b
    ensures Pow10(a) < Pow10(b)
    decreases b
  {
    if a < b - 1 {
      Pow10Monotone(a, b - 1);
    }
  }

  /** Two digit strings of equal length and equal value are equal. */
  lemma {:induction false} DigitsValueInjective(a: string, b: string)
    requires AllDigits(a) && AllDigits(b) && |a| == |b|
    requires DigitsValue(a) == DigitsValue(b)
    ensures a == b
    decreases |a|
  {
    if |a| > 0 {
      var a', b' := a[..|a| - 1], b[..|b| - 1];
      assert DigitValue(a[|a| - 1]) < 10 && DigitValue(b[|b| - 1]) < 10;
      assert DigitsValue(a) == DigitsValue(a') * 10 + DigitValue(a[|a| - 1]);
      assert DigitsValue(b) == DigitsValue(b') * 10 + DigitValue(b[|b| - 1]);
      assert DigitValue(a[|a| - 1]) == DigitValue(b[|b| - 1]);
      DigitsValueInjective(a', b');
      assert a == a' + [a[|a| - 1]] && b == b' + [b[|b| - 1]];
    }
  }

  function Zeros(n: nat): (r: string)
    ensures |r| == n && AllDigits(r)
    ensures forall i :: 0 <= i < n ==> r[i] == '0'
  {
    if n == 0 then [] else Zeros(n - 1) + "0"
  }

  /** Left-pads `String(num)` with '0' until it has `digits` characters (zeropad). */
  function ZeroPad(num: nat, digits: nat): string {
    var s := NatToString(num);
    if |s| >= digits then s else Zeros(digits - |s|) + s
  }

  lemma {:induction false} LeadingZerosValue(z: string, s: string)
    requires AllDigits(z) && AllDigits(s) && forall i :: 0 <= i < |z| ==> z[i] == '0'
    ensures AllDigits(z + s) && DigitsValue(z + s) == DigitsValue(s)
    decreases |s| + |z|
  {
    if |s| > 0 {
      var t := s[..|s| - 1];
      assert (z + s)[..|z + s| - 1] == z + t;
      LeadingZerosValue(z, t);
    } else if |z| > 0 {
      assert z + s == z;
      assert z[..|z| - 1] + s == z[..|z| - 1];
      LeadingZerosValue(z[..|z| - 1], s);
    }
  }

  /** A number below 10^digits is padded to exactly `digits` digits of the same value. */
  lemma ZeroPadFixedWidth(num: nat, digits: nat)
    requires 1 <= digits && num < Pow10(digits)
    ensures var r := ZeroPad(num, digits);
      |r| == digits && AllDigits(r) && DigitsValue(r) == num
  {
    var s := NatToString(num);
    if |s| > 1 {
      CanonicalHasNoLeadingZeroValue(s);
      if |s| - 1 >= digits {
        if |s| - 1 > digits {
          Pow10Monotone(digits, |s| - 1);
        }
      }
    }
    if |s| < digits {
      LeadingZerosValue(Zeros(digits - |s|), s);
    }
  }

  /** Padding the value of a digit string to its own length gives the string back. */
  lemma ZeroPadRoundTrip(t: string)
    requires IsNonNegInt(t)
    ensures ZeroPad(DigitsValue(t), |t|) == t
  {
    DigitsValueBound(t);
    ZeroPadFixedWidth(DigitsValue(t), |t|);
    DigitsValueInjective(ZeroPad(DigitsValue(t), |t|), t);
  }

  // ------------------------------------------------------- decimal amounts

  /** Position of the first '.' in `s`, or |s| when there is none. */
  function DotIndex(s: string): (k: nat)
    ensures k <= |s|
    ensures k < |s| ==> s[k] == '.'
    ensures forall i :: 0 <= i < k ==> s[i] != '.'
  {
    if |s| == 0 then 0
    else if s[0] == '.' then 0
    else 1 + DotIndex(s[1..])
  }

  /** is_non_negative_float: `^\d+\.\d+$` or `^\d+$`. */
  predicate IsDecimal(s: string) {
    IsNonNegInt(s) ||
    (var k := DotIndex(s);
     0 < k < |s| - 1 && AllDigits(s[..k]) && AllDigits(s[k + 1..]))
  }

  /** `Number(s)` of a decimal amount, as an exact rational. */
  function DecimalValue(s: string): (r: real)
    requires IsDecimal(s)
    ensures r >= 0.0
    ensures IsNonNegInt(s) ==> r == DigitsValue(s) as real
  {
    if IsNonNegInt(s) then DigitsValue(s) as real
    else
      var k := DotIndex(s);
      DigitsValue(s[..k]) as real + DigitsValue(s[k + 1..]) as real / Pow10(|s| - k - 1) as real
  }

  // --------------------------------------------------------------- flags

  function LowerAscii(c: char): char {
    if 'A' <= c <= 'Z' then (c as int + 32) as char else c
  }

  function Lower(s: string): (r: string)
    ensures |r| == |s|
    ensures forall i :: 0 <= i < |s| ==> r[i] == LowerAscii(s[i])
  {
    if |s| == 0 then [] else [LowerAscii(s[0])] + Lower(s[1..])
  }

  /** `/^(1|true)$/i` */
  predicate IsTrueFlag(s: string) {
    s == "1" || Lower(s) == "true"
  }

  /** `/^(0|false)$/i` */
  predicate IsFalseFlag(s: string) {
    s == "0" || Lower(s) == "false"
  }

  // ---------------------------------------------------- string comparison

  /** JavaScript `a < b` on two strings: lexicographic order of characters. */
  predicate StrLess(a: string, b: string)
    decreases |a|
  {
    if |a| == 0 then |b| > 0
    else if |b| == 0 then false
    else if a[0] != b[0] then a[0] < b[0]
    else StrLess(a[1..], b[1..])
  }

  /** The string order the interpreters use differs from the numeric one: "2" > "10". */
  lemma StrLessIsNotNumeric()
    ensures StrLess("10", "2") && DigitsValue("10") > DigitsValue("2")
  {
    assert "10"[0] == '1' && "2"[0] == '2';
    assert DigitsValue("10") == 10 by {
      assert "10"[..1] == "1";
    }
  }

  // ------------------------------------------------------- Object.keys

  /** A key that JavaScript treats as an array index (canonical, below 2^32 - 1). */
  predicate IsArrayIndex(s: string) {
    IsCanonical(s) && DigitsValue(s) < 0xFFFF_FFFF
  }

  /** The numeric value of a key, 0 for a key that is not all digits. */
  function KeyValue(s: string): nat {
    if AllDigits(s) then DigitsValue(s) else 0
  }

  predicate NoDups<T(==)>(s: seq<T>) {
    forall i, j :: 0 <= i < j < |s| ==> s[i] != s[j]
  }

  /** Index of the first occurrence of `x` in `s`. */
  function FirstIndex<T(==)>(s: seq<T>, x: T): (k: nat)
    requires x in s
    ensures k < |s| && s[k] == x
    ensures forall i :: 0 <= i < k ==> s[i] != x
  {
    if s[0] == x then 0 else 1 + FirstIndex(s[1..], x)
  }

  /** The distinct elements of `s`, each at the place of its first occurrence. */
  function Dedup(s: seq<string>): (r: seq<string>)
    ensures NoDups(r)
    ensures forall x :: x in r <==> x in s
    ensures forall i, j :: 0 <= i < j < |r| ==> FirstIndex(s, r[i]) < FirstIndex(s, r[j])
    decreases |s|
  {
    if |s| == 0 then []
    else
      var rest := Dedup(s[..|s| - 1]);
      var last := s[|s| - 1];
      FirstIndexPrefix(s, rest);
      if last in rest then rest
      else
        assert FirstIndex(s, last) == |s| - 1;
        rest + [last]
  }

  lemma FirstIndexPrefix(s: seq<string>, r: seq<string>)
    requires |s| > 0
    requires forall x :: x in r ==> x in s[..|s| - 1]
    ensures forall x :: x in r ==> FirstIndex(s, x) == FirstIndex(s[..|s| - 1], x)
  {
    forall x | x in r
      ensures FirstIndex(s, x) == FirstIndex(s[..|s| - 1], x)
    {
      var p := s[..|s| - 1];
      var k := FirstIndex(p, x);
      assert s[k] == x;
      assert forall i :: 0 <= i < k ==> s[i] != x by {
        forall i | 0 <= i < k ensures s[i] != x {
          assert s[i] == p[i];
        }
      }
    }
  }

  /** The keys of `s` that are (or are not, per `wantIndex`) array indices, in order. */
  function Filter(s: seq<string>, wantIndex: bool): (r: seq<string>)
    ensures forall x :: x in r <==> x in s && IsArrayIndex(x) == wantIndex
    ensures forall i :: 0 <= i < |r| ==> IsArrayIndex(r[i]) == wantIndex
  {
    if |s| == 0 then []
    else if IsArrayIndex(s[0]) == wantIndex then [s[0]] + Filter(s[1..], wantIndex)
    else Filter(s[1..], wantIndex)
  }

  predicate IndexAscending(s: seq<string>) {
    forall i, j :: 0 <= i < j < |s| ==> KeyValue(s[i]) < KeyValue(s[j])
  }

  lemma CanonicalValueInjective(a: string, b: string)
    requires IsCanonical(a) && IsCanonical(b) && a != b
    ensures DigitsValue(a) != DigitsValue(b)
  {
    CanonicalRoundTrip(a);
    CanonicalRoundTrip(b);
  }

  /** Inserts an array-index key into an ascending list of array-index keys. */
  function InsertIndexKey(x: string, s: seq<string>): (r: seq<string>)
    requires IsArrayIndex(x) && x !in s
    requires forall i :: 0 <= i < |s| ==> IsArrayIndex(s[i])
    requires IndexAscending(s)
    ensures forall i :: 0 <= i < |r| ==> IsArrayIndex(r[i])
    ensures IndexAscending(r)
    ensures forall y :: y in r <==> y == x || y in s
  {
    if |s| == 0 then [x]
    else
      assert s[0] in s && IsArrayIndex(s[0]);
      CanonicalValueInjective(x, s[0]);
      assert KeyValue(x) != KeyValue(s[0]);
      if KeyValue(x) < KeyValue(s[0]) then [x] + s
      else
        assert forall i :: 0 <= i < |s| - 1 ==> s[1..][i] == s[i + 1];
        var r := InsertIndexKey(x, s[1..]);
        assert forall y :: y in r ==> KeyValue(s[0]) < KeyValue(y) by {
          forall y | y in s[1..] ensures KeyValue(s[0]) < KeyValue(y) {
            var k :| 0 <= k < |s[1..]| && s[1..][k] == y;
            assert s[k + 1] == y;
          }
        }
        assert forall j :: 0 <= j < |r| ==> r[j] in r;
        [s[0]] + r
  }

  function SortIndexKeys(s: seq<string>): (r: seq<string>)
    requires NoDups(s)
    requires forall i :: 0 <= i < |s| ==> IsArrayIndex(s[i])
    ensures forall i :: 0 <= i < |r| ==> IsArrayIndex(r[i])
    ensures IndexAscending(r)
    ensures forall y :: y in r <==> y in s
  {
    if |s| == 0 then []
    else
      assert s[0] !in s[1..] by {
        forall k | 0 <= k < |s| - 1 ensures s[1..][k] != s[0] {
          assert s[1..][k] == s[k + 1];
        }
      }
      InsertIndexKey(s[0], SortIndexKeys(s[1..]))
  }

  /**
   * `Object.keys` of an object whose keys were set in the order `inserted`:
   * array-index keys in ascending numeric order, then the other keys in
   * order of first insertion.
   */
  function ObjectKeys(inserted: seq<string>): seq<string> {
    SortIndexKeys(Dedup(Filter(inserted, true))) + Dedup(Filter(inserted, false))
  }

  /** How many of the keys of `ObjectKeys(inserted)` are array indices. */
  function IndexKeyCount(inserted: seq<string>): nat {
    |SortIndexKeys(Dedup(Filter(inserted, true)))|
  }

  /** The key order of `Object.keys`, stated for every insertion sequence. */
  lemma ObjectKeysOrder(inserted: seq<string>)
    ensures var r := ObjectKeys(inserted);
      && (forall x :: x in r <==> x in inserted)
      && NoDups(r)
      && IndexKeyCount(inserted) <= |r|
      && (forall i :: 0 <= i < |r| ==> (IsArrayIndex(r[i]) <==> i < IndexKeyCount(inserted)))
      && (forall i, j :: 0 <= i < j < IndexKeyCount(inserted) ==> KeyValue(r[i]) < KeyValue(r[j]))
      && (forall i, j :: IndexKeyCount(inserted) <= i < j < |r| ==>
            FirstIndex(inserted, r[i]) < FirstIndex(inserted, r[j]))
  {
    var idx := SortIndexKeys(Dedup(Filter(inserted, true)));
    var others := Dedup(Filter(inserted, false));
    var r := idx + others;
    assert r == ObjectKeys(inserted);
    assert forall x :: x in r <==> x in idx || x in others;
    assert forall i :: 0 <= i < |others| ==> !IsArrayIndex(others[i]) by {
      forall i | 0 <= i < |others| ensures !IsArrayIndex(others[i]) {
        assert others[i] in others;
      }
    }
    ConcatIndexing(idx, others);
    forall i, j | |idx| <= i < j < |r|
      ensures FirstIndex(inserted, r[i]) < FirstIndex(inserted, r[j])
    {
      FilterFirstIndex(inserted, others[i - |idx|], others[j - |idx|]);
    }
    forall i, j | 0 <= i < j < |r| ensures r[i] != r[j] {
      if i < |idx| <= j {
        assert IsArrayIndex(r[i]) && !IsArrayIndex(r[j]);
      }
    }
  }

  lemma ConcatIndexing(a: seq<string>, b: seq<string>)
    ensures forall i :: 0 <= i < |a| ==> (a + b)[i] == a[i]
    ensures forall i :: |a| <= i < |a| + |b| ==> (a + b)[i] == b[i - |a|]
  {
  }

  /** Order of first occurrence is the same in a filtered list and in the list it comes from. */
  lemma FilterFirstIndex(s: seq<string>, a: string, b: string)
    requires a in Filter(s, false) && b in Filter(s, false)
    requires FirstIndex(Filter(s, false), a) < FirstIndex(Filter(s, false), b)
    ensures FirstIndex(s, a) < FirstIndex(s, b)
    decreases |s|
  {
    if |s| > 0 && s[0] != a && s[0] != b {
      if IsArrayIndex(s[0]) == false {
        assert Filter(s, false) == [s[0]] + Filter(s[1..], false);
      }
      FilterFirstIndex(s[1..], a, b);
    }
  }
}
