/** Strings as Go and DynamoDB see them: sequences of code units, compared unit by unit. */
module Text {

  /** The byte-wise `<` of Go strings and of DynamoDB string attributes. */
  predicate StrLess(a: string, b: string)
  {
    if b == [] then false
    else if a == [] then true
    else a[0] < b[0] || (a[0] == b[0] && StrLess(a[1..], b[1..]))
  }

  /** `a` and `b` differ at `k` for the first time. */
  predicate DifferAt(a: string, b: string, k: nat) {
    k < |a| && k < |b| && (forall i: nat | i < k :: a[i] == b[i]) && a[k] != b[k]
  }

  /** The first difference decides; without one the shorter string comes first. */
  lemma {:induction false} StrLessMeans(a: string, b: string)
    ensures forall k: nat | DifferAt(a, b, k) :: StrLess(a, b) <==> a[k] < b[k]
    ensures (forall k: nat :: !DifferAt(a, b, k)) ==> (StrLess(a, b) <==> |a| < |b|)
  {
    if a != [] && b != [] {
      if a[0] == b[0] {
        var x, y := a[1..], b[1..];
        StrLessMeans(x, y);
        forall k: nat | DifferAt(a, b, k)
          ensures StrLess(a, b) <==> a[k] < b[k]
        {
          assert DifferAt(x, y, k - 1);
        }
        forall k: nat | DifferAt(x, y, k)
          ensures DifferAt(a, b, k + 1)
        {
        }
      } else {
        assert DifferAt(a, b, 0);
        assert forall k: nat | DifferAt(a, b, k) :: k == 0;
      }
    }
  }

  predicate IsDigit(c: char) {
    '0' <= c <= '9'
  }

  predicate AllDigits(s: string) {
    forall c | c in s :: IsDigit(c)
  }

  /** The number a row of decimal digits denotes. */
  function Decimal(s: string): nat
    requires AllDigits(s)
  {
    if s == "" then 0
    else
      assert s[|s| - 1] in s;
      10 * Decimal(s[..|s| - 1]) + (s[|s| - 1] as int - '0' as int)
  }

  lemma DecimalSnoc(front: string, c: char)
    ensures AllDigits(front + [c]) <==> AllDigits(front) && IsDigit(c)
    ensures AllDigits(front + [c]) ==> Decimal(front + [c]) == 10 * Decimal(front) + (c as int - '0' as int)
  {
    var s := front + [c];
    assert s[|s| - 1] == c && s[..|s| - 1] == front;
    assert c in s && forall d | d in front :: d in s;
  }

  lemma {:induction false} StrLessIrreflexive(a: string)
    ensures !StrLess(a, a)
  {
    if a != [] {
      StrLessIrreflexive(a[1..]);
    }
  }

  lemma {:induction false} StrLessTransitive(a: string, b: string, c: string)
    requires StrLess(a, b) && StrLess(b, c)
    ensures StrLess(a, c)
  {
    if a != [] && a[0] == b[0] && b[0] == c[0] {
      StrLessTransitive(a[1..], b[1..], c[1..]);
    }
  }

  lemma {:induction false} StrLessConnected(a: string, b: string)
    requires a != b
    ensures StrLess(a, b) || StrLess(b, a)
  {
    if a != [] && b != [] && a[0] == b[0] {
      assert a == [a[0]] + a[1..] && b == [b[0]] + b[1..];
      StrLessConnected(a[1..], b[1..]);
    }
  }

  /** Comparing concatenations whose first parts have one length decides by the first parts first. */
  lemma {:induction false} StrLessConcat(a: string, b: string, c: string, d: string)
    requires |a| == |c|
    ensures StrLess(a + b, c + d) <==> StrLess(a, c) || (a == c && StrLess(b, d))
  {
    if a == [] {
      assert a + b == b && c + d == d;
    } else {
      assert (a + b)[1..] == a[1..] + b && (c + d)[1..] == c[1..] + d;
      assert a == [a[0]] + a[1..] && c == [c[0]] + c[1..];
      StrLessConcat(a[1..], b, c[1..], d);
    }
  }
}
