/**
 * JavaScript's ordering of strings (`a <= b`), used when messages are sorted by their
 * `created_at` timestamp string: character by character, a proper prefix first.
 */
module StringOrder {

  predicate LessEq(a: string, b: string)
    ensures a <= b ==> LessEq(a, b)
  {
    if a == [] then true
    else if b == [] then false
    else if a[0] != b[0] then a[0] < b[0]
    else LessEq(a[1..], b[1..])
  }

  /** A reference reading of the order: `a` is a prefix of `b`, or at the first position
      where they differ, `a` has the smaller character. */
  ghost predicate PrefixOrSmallerAtFirstDifference(a: string, b: string)
  {
    a <= b || exists k :: 0 <= k < |a| && k < |b| && a[..k] == b[..k] && a[k] < b[k]
  }

  lemma {:induction false} LessEqCharacterised(a: string, b: string)
    ensures LessEq(a, b) <==> PrefixOrSmallerAtFirstDifference(a, b)
  {
    if a == [] {
    } else if b == [] {
    } else if a[0] != b[0] {
      if a[0] < b[0] {
        assert a[..0] == b[..0];
      }
    } else {
      LessEqCharacterised(a[1..], b[1..]);
      if LessEq(a, b) {
        if !(a[1..] <= b[1..]) {
          var k :| 0 <= k < |a[1..]| && k < |b[1..]| && a[1..][..k] == b[1..][..k] && a[1..][k] < b[1..][k];
          assert a[..k+1] == [a[0]] + a[1..][..k];
          assert b[..k+1] == [b[0]] + b[1..][..k];
        }
      }
      if a <= b {
        assert a[1..] <= b[1..];
      } else if PrefixOrSmallerAtFirstDifference(a, b) {
        var k :| 0 <= k < |a| && k < |b| && a[..k] == b[..k] && a[k] < b[k];
        assert k != 0;
        assert a[1..][..k-1] == a[..k][1..];
        assert b[1..][..k-1] == b[..k][1..];
        assert PrefixOrSmallerAtFirstDifference(a[1..], b[1..]);
      }
    }
  }

  lemma {:induction false} LessEqTotal(a: string, b: string)
    ensures LessEq(a, b) || LessEq(b, a)
  {
    if a != [] && b != [] && a[0] == b[0] {
      LessEqTotal(a[1..], b[1..]);
    }
  }

  lemma {:induction false} LessEqTransitive(a: string, b: string, c: string)
    requires LessEq(a, b) && LessEq(b, c)
    ensures LessEq(a, c)
  {
    if a != [] && b != [] && c != [] && a[0] == b[0] && b[0] == c[0] {
      LessEqTransitive(a[1..], b[1..], c[1..]);
    }
  }

  lemma {:induction false} LessEqAntisymmetric(a: string, b: string)
    requires LessEq(a, b) && LessEq(b, a)
    ensures a == b
  {
    if a != [] && b != [] {
      LessEqAntisymmetric(a[1..], b[1..]);
      assert a == [a[0]] + a[1..];
      assert b == [b[0]] + b[1..];
    }
  }
}
