/**
 * Text helpers with Python's semantics: the code-point order of `str`
 * (`a < b`), `str(int)`, lower-case hex digits, `sep.join(parts)` and
 * `sorted(set_of_str)`.  Each renderer comes with the parser that inverts it.
 */
module Strings {
  import opened Wrappers

  // ---------------------------------------------------------------------
  // Python's ordering of str values
  // ---------------------------------------------------------------------

  /** Python's `a < b` on str: lexicographic by code point, a proper prefix first. */
  predicate Less(a: string, b: string)
  {
    if |a| == 0 then |b| > 0
    else if |b| == 0 then false
    else if a[0] != b[0] then a[0] < b[0]
    else Less(a[1..], b[1..])
  }

  predicate LessEq(a: string, b: string)
  {
    a == b || Less(a, b)
  }

  lemma {:induction false} LessIrreflexive(a: string)
    ensures !Less(a, a)
  {
    if |a| > 0 {
      LessIrreflexive(a[1..]);
    }
  }

  lemma {:induction false} LessTransitive(a: string, b: string, c: string)
    requires Less(a, b) && Less(b, c)
    ensures Less(a, c)
  {
    if |a| > 0 && |b| > 0 && |c| > 0 && a[0] == b[0] && b[0] == c[0] {
      LessTransitive(a[1..], b[1..], c[1..]);
    }
  }

  lemma {:induction false} LessTotal(a: string, b: string)
    ensures a == b || Less(a, b) || Less(b, a)
  {
    if |a| > 0 && |b| > 0 && a[0] == b[0] {
      LessTotal(a[1..], b[1..]);
      if a[1..] == b[1..] {
        assert a == [a[0]] + a[1..] && b == [b[0]] + b[1..];
      }
    }
  }

  lemma {:induction false} LessAsymmetric(a: string, b: string)
    requires Less(a, b)
    ensures !Less(b, a) && a != b
  {
    if |a| > 0 && |b| > 0 && a[0] == b[0] {
      LessAsymmetric(a[1..], b[1..]);
    }
    if a == b {
      LessIrreflexive(a);
    }
  }

  lemma LessAsymmetricAll()
    ensures forall a, b :: Less(a, b) ==> !Less(b, a)
  {
    forall a, b | Less(a, b) ensures !Less(b, a) {
      LessAsymmetric(a, b);
    }
  }

  lemma LessEqTotalPreorder()
    ensures forall a, b :: LessEq(a, b) || LessEq(b, a)
    ensures forall a, b, c :: LessEq(a, b) && LessEq(b, c) ==> LessEq(a, c)
    ensures forall a, b :: LessEq(a, b) && LessEq(b, a) ==> a == b
  {
    forall a, b ensures LessEq(a, b) || LessEq(b, a) {
      LessTotal(a, b);
    }
    forall a, b, c | LessEq(a, b) && LessEq(b, c) ensures LessEq(a, c) {
      if a != b && b != c {
        LessTransitive(a, b, c);
      }
    }
    LessAsymmetricAll();
  }

  // ---------------------------------------------------------------------
  // sorted(set(strings))
  // ---------------------------------------------------------------------

  ghost predicate StrictlySorted(xs: seq<string>)
  {
    forall i, j :: 0 <= i < j < |xs| ==> Less(xs[i], xs[j])
  }

  lemma {:induction false} MinimumExists(s: set<string>)
    requires s != {}
    ensures exists m :: m in s && forall y :: y in s ==> LessEq(m, y)
    decreases |s|
  {
    var x :| x in s;
    if s == {x} {
      assert forall y :: y in s ==> LessEq(x, y);
    } else {
      MinimumExists(s - {x});
      var m :| m in s - {x} && forall y :: y in s - {x} ==> LessEq(m, y);
      LessEqTotalPreorder();
      if LessEq(m, x) {
        assert forall y :: y in s ==> LessEq(m, y);
      } else {
        assert forall y :: y in s ==> LessEq(x, y);
      }
    }
  }

  lemma PrependSorted(m: string, rest: seq<string>)
    requires StrictlySorted(rest)
    requires forall x :: x in rest ==> Less(m, x)
    ensures StrictlySorted([m] + rest)
  {
    var r := [m] + rest;
    forall i, j | 0 <= i < j < |r| ensures Less(r[i], r[j]) {
      if i > 0 {
        assert r[i] == rest[i - 1] && r[j] == rest[j - 1];
      } else {
        assert r[j] == rest[j - 1] && r[j] in rest;
      }
    }
  }

  /** `sorted(s)` for a set of str: the unique strictly increasing listing of `s`. */
  function SortedSet(s: set<string>): (r: seq<string>)
    ensures |r| == |s|
    ensures forall x :: x in r <==> x in s
    ensures StrictlySorted(r)
    decreases |s|
  {
    if s == {} then []
    else
      MinimumExists(s);
      LessAsymmetricAll();
      var m :| m in s && forall y :: y in s ==> LessEq(m, y);
      var rest := SortedSet(s - {m});
      PrependSorted(m, rest);
      [m] + rest
  }

  lemma TailMember(a: seq<string>, b: seq<string>, x: string)
    requires StrictlySorted(a) && |a| > 0 && |b| > 0 && a[0] == b[0]
    requires forall y :: y in a <==> y in b
    requires x in a[1..]
    ensures x in b[1..]
  {
    var i :| 0 <= i < |a[1..]| && a[1..][i] == x;
    assert a[i + 1] == x;
    assert Less(a[0], x);
    LessAsymmetric(a[0], x);
    assert x in b;
    var j :| 0 <= j < |b| && b[j] == x;
    assert j != 0;
    assert b[1..][j - 1] == x;
  }

  lemma FirstIsLeast(a: seq<string>, x: string)
    requires StrictlySorted(a) && x in a
    ensures LessEq(a[0], x)
  {
    var i :| 0 <= i < |a| && a[i] == x;
    if i > 0 {
      assert Less(a[0], a[i]);
    }
  }

  /** Two strictly increasing listings of the same strings are the same listing. */
  lemma {:induction false} StrictlySortedUnique(a: seq<string>, b: seq<string>)
    requires StrictlySorted(a) && StrictlySorted(b)
    requires forall x :: x in a <==> x in b
    ensures a == b
    decreases |a|
  {
    assert |a| > 0 ==> a[0] in b;
    assert |b| > 0 ==> b[0] in a;
    if |a| > 0 && |b| > 0 {
      LessAsymmetricAll();
      FirstIsLeast(a, b[0]);
      FirstIsLeast(b, a[0]);
      forall x ensures x in a[1..] <==> x in b[1..] {
        if x in a[1..] {
          TailMember(a, b, x);
        }
        if x in b[1..] {
          TailMember(b, a, x);
        }
      }
      StrictlySortedUnique(a[1..], b[1..]);
      assert a == [a[0]] + a[1..] && b == [b[0]] + b[1..];
    }
  }

  // ---------------------------------------------------------------------
  // str(int) and its parser
  // ---------------------------------------------------------------------

  predicate IsDigit(c: char)
  {
    '0' <= c <= '9'
  }

  predicate AllDigits(s: string)
  {
    forall i :: 0 <= i < |s| ==> IsDigit(s[i])
  }

  function Digit(d: nat): (c: char)
    requires d < 10
  {
    ('0' as int + d) as char
  }

  function DigitValue(c: char): nat
    requires IsDigit(c)
  {
    c as int - '0' as int
  }

  /** Decimal digits of a natural number, no leading zero: Python's `str(n)`. */
  function NatToString(n: nat): (s: string)
    ensures |s| > 0 && AllDigits(s)
    decreases n
  {
    if n < 10 then [Digit(n)] else NatToString(n / 10) + [Digit(n % 10)]
  }

  /** Python's `str(i)` for an int. */
  function IntToString(i: int): string
  {
    if i < 0 then "-" + NatToString(-i) else NatToString(i)
  }

  /** The number a run of decimal digits denotes. */
  function DigitsValue(ds: string): nat
    requires AllDigits(ds)
  {
    if |ds| == 0 then 0 else DigitsValue(ds[..|ds| - 1]) * 10 + DigitValue(ds[|ds| - 1])
  }

  /** Length of the longest prefix of `s` made of decimal digits. */
  function DigitRun(s: string): (k: nat)
    ensures k <= |s| && AllDigits(s[..k])
    ensures k < |s| ==> !IsDigit(s[k])
  {
    if |s| == 0 || !IsDigit(s[0]) then 0
    else
      var k := 1 + DigitRun(s[1..]);
      assert s[..k] == [s[0]] + s[1..][..k - 1];
      k
  }

  lemma {:induction false} DigitRunAppend(ds: string, rest: string)
    requires AllDigits(ds)
    requires rest == [] || !IsDigit(rest[0])
    ensures DigitRun(ds + rest) == |ds|
  {
    if |ds| > 0 {
      assert (ds + rest)[1..] == ds[1..] + rest;
      DigitRunAppend(ds[1..], rest);
    }
  }

  /** Reading the digits of `str(n)` back gives `n`, and the reading stops where they end. */
  lemma {:induction false} NatToStringInverse(n: nat, rest: string)
    requires rest == [] || !IsDigit(rest[0])
    ensures var s := NatToString(n) + rest;
      DigitRun(s) == |NatToString(n)| && DigitsValue(s[..DigitRun(s)]) == n
    decreases n
  {
    DigitRunAppend(NatToString(n), rest);
    assert (NatToString(n) + rest)[..|NatToString(n)|] == NatToString(n);
    if n >= 10 {
      NatToStringInverse(n / 10, []);
      var ds := NatToString(n);
      assert ds[..|ds| - 1] == NatToString(n / 10);
      assert NatToString(n / 10) + [] == NatToString(n / 10);
    }
  }

  // ---------------------------------------------------------------------
  // Lower-case hex digits
  // ---------------------------------------------------------------------

  predicate IsLowerHex(c: char)
  {
    IsDigit(c) || 'a' <= c <= 'f'
  }

  /** The shape of `hashlib.sha256(...).hexdigest()`: 64 lower-case hex digits. */
  predicate IsHexDigest(s: string)
  {
    |s| == 64 && forall i :: 0 <= i < |s| ==> IsLowerHex(s[i])
  }

  function HexDigit(d: nat): (c: char)
    requires d < 16
    ensures IsLowerHex(c)
  {
    if d < 10 then Digit(d) else ('a' as int + d - 10) as char
  }

  function HexDigitValue(c: char): nat
    requires IsLowerHex(c)
  {
    if IsDigit(c) then DigitValue(c) else c as int - 'a' as int + 10
  }

  lemma HexDigitInverse(d: nat)
    requires d < 16
    ensures HexDigitValue(HexDigit(d)) == d
  {
  }

  /** Python's `'{0:04x}'.format(n)` for n below 0x10000. */
  function Hex4(n: nat): (s: string)
    requires n < 0x1_0000
    ensures |s| == 4 && forall i :: 0 <= i < 4 ==> IsLowerHex(s[i])
  {
    var r := n % 0x1000;
    var r' := r % 0x100;
    [HexDigit(n / 0x1000), HexDigit(r / 0x100), HexDigit(r' / 16), HexDigit(r' % 16)]
  }

  function Hex4Value(s: string): nat
    requires |s| == 4 && forall i :: 0 <= i < 4 ==> IsLowerHex(s[i])
  {
    HexDigitValue(s[0]) * 0x1000 + HexDigitValue(s[1]) * 0x100 + HexDigitValue(s[2]) * 16 + HexDigitValue(s[3])
  }

  lemma Hex4Inverse(n: nat)
    requires n < 0x1_0000
    ensures Hex4Value(Hex4(n)) == n
  {
    var r := n % 0x1000;
    var r' := r % 0x100;
    HexDigitInverse(n / 0x1000);
    HexDigitInverse(r / 0x100);
    HexDigitInverse(r' / 16);
    HexDigitInverse(r' % 16);
    assert r' == (r' / 16) * 16 + r' % 16;
    assert r == (r / 0x100) * 0x100 + r';
    assert n == (n / 0x1000) * 0x1000 + r;
  }

  // ---------------------------------------------------------------------
  // sep.join(parts) and `sub in s`
  // ---------------------------------------------------------------------

  /** Python's `sep.join(parts)`. */
  function Join(sep: string, parts: seq<string>): string
  {
    if |parts| == 0 then ""
    else if |parts| == 1 then parts[0]
    else parts[0] + sep + Join(sep, parts[1..])
  }

  /** Python's `sub in s` for two str values. */
  predicate IsSubstring(sub: string, s: string)
  {
    exists i :: 0 <= i <= |s| - |sub| && OccursAt(sub, s, i)
  }

  predicate OccursAt(sub: string, s: string, i: int)
    requires 0 <= i <= |s| - |sub|
  {
    s[i..i + |sub|] == sub
  }
}
