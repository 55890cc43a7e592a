/**
  The order Swift's `String` comparison operators put file names in, taken as
  the lexicographic order of their characters (code point by code point, a
  proper prefix before its extensions). File listings are sorted with it, so
  this module proves it is a strict total order, and relates it to the numeric
  order of the decimal time stamps that video file names embed.
 */
module StringOrder {

  /** `a < b` on strings. */
  predicate Below(a: string, b: string)
    ensures |a| < |b| && a == b[..|a|] ==> Below(a, b)
  {
    if a == [] then b != []
    else if b == [] then false
    else if a[0] != b[0] then a[0] < b[0]
    else Below(a[1..], b[1..])
  }

  lemma {:induction false} BelowIrreflexive(a: string)
    ensures !Below(a, a)
  {
    if a != [] {
      BelowIrreflexive(a[1..]);
    }
  }

  lemma {:induction false} BelowAsymmetric(a: string, b: string)
    requires Below(a, b)
    ensures !Below(b, a)
  {
    if a != [] && b != [] && a[0] == b[0] {
      BelowAsymmetric(a[1..], b[1..]);
    }
  }

  lemma {:induction false} BelowTransitive(a: string, b: string, c: string)
    requires Below(a, b) && Below(b, c)
    ensures Below(a, c)
  {
    if a != [] && a[0] == b[0] && b[0] == c[0] {
      BelowTransitive(a[1..], b[1..], c[1..]);
    }
  }

  lemma {:induction false} BelowTotal(a: string, b: string)
    requires a != b
    ensures Below(a, b) || Below(b, a)
  {
    if a != [] && b != [] && a[0] == b[0] {
      assert a == [a[0]] + a[1..] && b == [b[0]] + b[1..];
      BelowTotal(a[1..], b[1..]);
    }
  }

  /** A common prefix does not change how two strings compare. */
  lemma {:induction false} BelowCommonPrefix(p: string, x: string, y: string)
    ensures Below(p + x, p + y) <==> Below(x, y)
  {
    if p == [] {
      assert p + x == x && p + y == y;
    } else {
      assert (p + x)[0] == p[0] == (p + y)[0];
      assert (p + x)[1..] == p[1..] + x;
      assert (p + y)[1..] == p[1..] + y;
      BelowCommonPrefix(p[1..], x, y);
    }
  }

  /** Nor does a common suffix, when what precedes it has the same length. */
  lemma {:induction false} BelowCommonSuffix(x: string, y: string, s: string)
    requires |x| == |y|
    ensures Below(x + s, y + s) <==> Below(x, y)
  {
    if x == [] {
      assert x + s == s && y + s == s;
      BelowIrreflexive(s);
    } else {
      assert (x + s)[0] == x[0] && (y + s)[0] == y[0];
      if x[0] == y[0] {
        assert (x + s)[1..] == x[1..] + s;
        assert (y + s)[1..] == y[1..] + s;
        BelowCommonSuffix(x[1..], y[1..], s);
      }
    }
  }

  predicate IsDigits(s: string)
  {
    forall i :: 0 <= i < |s| ==> '0' <= s[i] <= '9'
  }

  function Pow10(n: nat): (p: nat)
    ensures p >= 1
  {
    if n == 0 then 1 else 10 * Pow10(n - 1)
  }

  /** The number a decimal digit string denotes, most significant digit first. */
  function Value(s: string): nat
    requires IsDigits(s)
  {
    if s == [] then 0
    else (s[0] as int - '0' as int) * Pow10(|s| - 1) + Value(s[1..])
  }

  lemma {:induction false} ValueBound(s: string)
    requires IsDigits(s)
    ensures Value(s) < Pow10(|s|)
  {
    if s != [] {
      ValueBound(s[1..]);
      var d := s[0] as int - '0' as int;
      var p := Pow10(|s| - 1);
      assert d * p <= 9 * p by {
        MulMonotone(d, 9, p);
      }
    }
  }

  lemma MulMonotone(x: int, y: int, p: nat)
    requires x <= y
    ensures x * p <= y * p
  {
  }

  /** A smaller leading digit makes a smaller number of the same width. */
  lemma LeadingDigit(a: string, b: string)
    requires IsDigits(a) && IsDigits(b) && |a| == |b| > 0
    requires a[0] < b[0]
    ensures Value(a) < Value(b)
  {
    var p := Pow10(|a| - 1);
    ValueBound(a[1..]);
    PlaceValue(a[0] as int - '0' as int, b[0] as int - '0' as int, p, Value(a[1..]), Value(b[1..]));
  }

  /** One unit more in a place outweighs anything below that place. */
  lemma PlaceValue(da: int, db: int, p: nat, x: nat, y: nat)
    requires da < db && x < p
    ensures da * p + x < db * p + y
  {
    MulMonotone(da + 1, db, p);
    assert (da + 1) * p == da * p + p;
  }

  /**
    Among digit strings of one width, string order is numeric order. Names
    built from whole-second time stamps of the same width therefore list
    newest first.
   */
  lemma {:induction false} FixedWidthOrder(a: string, b: string)
    requires IsDigits(a) && IsDigits(b) && |a| == |b|
    ensures Below(a, b) <==> Value(a) < Value(b)
  {
    if a != [] {
      if a[0] < b[0] {
        LeadingDigit(a, b);
      } else if b[0] < a[0] {
        LeadingDigit(b, a);
      } else {
        FixedWidthOrder(a[1..], b[1..]);
        assert Value(a) - Value(b) == Value(a[1..]) - Value(b[1..]);
      }
    }
  }
}
