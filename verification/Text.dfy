/** Decimal printing and lexicographic comparison of strings. */
module Text {

  function Digit(d: nat): (c: char)
    requires d < 10
  {
    ('0' as int + d) as char
  }

  /** strconv.FormatUint(n, 10) */
  function FormatUint(n: nat): string {
    if n < 10 then [Digit(n)] else FormatUint(n / 10) + [Digit(n % 10)]
  }

  lemma {:induction false} FormatUintInjective(a: nat, b: nat)
    ensures FormatUint(a) == FormatUint(b) <==> a == b
    decreases a
  {
    if FormatUint(a) == FormatUint(b) {
      var s := FormatUint(a);
      assert s[|s| - 1] == Digit(a % 10) == Digit(b % 10);
      if a < 10 {
        FormatUintNonempty(b / 10);
        assert b < 10;
      } else {
        FormatUintNonempty(a / 10);
        assert b >= 10;
        assert s[..|s| - 1] == FormatUint(a / 10) == FormatUint(b / 10);
        FormatUintInjective(a / 10, b / 10);
      }
    }
  }

  predicate IsDigit(c: char) {
    '0' <= c <= '9'
  }

  /** The number that a text of decimal digits stands for. */
  function Value(s: string): nat
    requires forall c :: c in s ==> IsDigit(c)
  {
    if s == [] then 0
    else
      assert IsDigit(s[|s| - 1]);
      10 * Value(s[..|s| - 1]) + (s[|s| - 1] as int - '0' as int)
  }

  /** The printed text is the decimal one: digits only, no leading zero, and of the right value. */
  lemma {:induction false} FormatUintValue(n: nat)
    ensures var s := FormatUint(n);
            && s != [] && (forall c :: c in s ==> IsDigit(c)) && Value(s) == n
            && (s[0] == '0' ==> n == 0)
  {
    var s := FormatUint(n);
    if n < 10 {
      assert s[..0] == [];
    } else {
      FormatUintValue(n / 10);
      assert s[..|s| - 1] == FormatUint(n / 10);
    }
  }

  lemma FormatUintNonempty(n: nat)
    ensures |FormatUint(n)| > 0
  {
  }

  /** Go's `<` on strings. */
  predicate Less(a: string, b: string) {
    b != [] && (a == [] || a[0] < b[0] || (a[0] == b[0] && Less(a[1..], b[1..])))
  }

  /** They differ first at `k`, or `a` ends there. */
  ghost predicate DiffersAt(a: string, b: string, k: nat) {
    k <= |a| && k < |b| && a[..k] == b[..k] && (k == |a| || a[k] < b[k])
  }

  /** At the first difference the smaller string has the smaller character or has ended. */
  lemma {:induction false} LessMeaning(a: string, b: string)
    ensures Less(a, b) <==> exists k: nat :: DiffersAt(a, b, k)
  {
    if b != [] && (a == [] || a[0] < b[0]) {
      assert DiffersAt(a, b, 0);
    } else if a != [] && b != [] && a[0] == b[0] {
      LessMeaning(a[1..], b[1..]);
      if k: nat :| DiffersAt(a[1..], b[1..], k) {
        assert a[..k + 1] == [a[0]] + a[1..][..k] && b[..k + 1] == [b[0]] + b[1..][..k];
        assert DiffersAt(a, b, k + 1);
      }
      if k: nat :| DiffersAt(a, b, k) {
        assert k > 0 && a[1..][..k - 1] == a[..k][1..] && b[1..][..k - 1] == b[..k][1..];
        assert DiffersAt(a[1..], b[1..], k - 1);
      }
    } else {
      forall k: nat ensures !DiffersAt(a, b, k) {
        if 0 < k <= |a| && k < |b| {
          assert a[..k][0] == a[0] && b[..k][0] == b[0];
        }
      }
    }
  }

  predicate LessEq(a: string, b: string) { !Less(b, a) }

  lemma {:induction false} LessAntisymmetric(a: string, b: string)
    requires LessEq(a, b) && LessEq(b, a)
    ensures a == b
  {
    if a != [] && b != [] {
      LessAntisymmetric(a[1..], b[1..]);
      assert a == [a[0]] + a[1..] && b == [b[0]] + b[1..];
    }
  }

  lemma {:induction false} LessEqTransitive(a: string, b: string, c: string)
    requires LessEq(a, b) && LessEq(b, c)
    ensures LessEq(a, c)
  {
    if a != [] && b != [] && c != [] && a[0] == b[0] == c[0] {
      LessEqTransitive(a[1..], b[1..], c[1..]);
    }
  }

  lemma {:induction false} LessEqTotal(a: string, b: string)
    ensures LessEq(a, b) || LessEq(b, a)
  {
    if a != [] && b != [] && a[0] == b[0] {
      LessEqTotal(a[1..], b[1..]);
    }
  }
}
