/**
 * Python's ordering of `str` values (lexicographic by code point, a proper
 * prefix first) and `sorted(set(...))` over it.
 */
module StringOrder {

  /** Python's `a < b` on strings. */
  predicate Less(a: string, b: string)
    decreases |a|
  {
    if |a| == 0 then |b| > 0
    else |b| > 0 && (a[0] < b[0] || (a[0] == b[0] && Less(a[1..], b[1..])))
  }

  lemma {:induction false} LessIrreflexive(a: string)
    ensures !Less(a, a)
    decreases |a|
  {
    if |a| > 0 {
      LessIrreflexive(a[1..]);
    }
  }

  lemma {:induction false} LessTransitive(a: string, b: string, c: string)
    requires Less(a, b) && Less(b, c)
    ensures Less(a, c)
    decreases |a|
  {
    if |a| > 0 && a[0] == b[0] && b[0] == c[0] {
      LessTransitive(a[1..], b[1..], c[1..]);
    }
  }

  /** Any two distinct strings are ordered one way or the other. */
  lemma {:induction false} LessTotal(a: string, b: string)
    requires a != b
    ensures Less(a, b) || Less(b, a)
    decreases |a|
  {
    if |a| > 0 && |b| > 0 && a[0] == b[0] {
      assert a == [a[0]] + a[1..] && b == [b[0]] + b[1..];
      LessTotal(a[1..], b[1..]);
    }
  }

  lemma LessAsymmetric(a: string, b: string)
    requires Less(a, b)
    ensures !Less(b, a)
  {
    if Less(b, a) {
      LessTransitive(a, b, a);
      LessIrreflexive(a);
    }
  }

  /** Ascending without repetition: the shape of `sorted(set(xs))`. */
  predicate StrictlySorted(xs: seq<string>) {
    forall i, j :: 0 <= i < j < |xs| ==> Less(xs[i], xs[j])
  }

  /** Adds `x` to a strictly sorted list unless it is already there (`set.add` then `sorted`). */
  function Insert(xs: seq<string>, x: string): (r: seq<string>)
    requires StrictlySorted(xs)
    ensures StrictlySorted(r)
    ensures forall k :: k in r <==> k in xs || k == x
  {
    if |xs| == 0 then [x]
    else if x == xs[0] then xs
    else if Less(x, xs[0]) then
      assert forall j :: 0 < j < |xs| ==> Less(x, xs[j]) by {
        forall j | 0 < j < |xs| ensures Less(x, xs[j]) {
          LessTransitive(x, xs[0], xs[j]);
        }
      }
      [x] + xs
    else
      LessTotal(x, xs[0]);
      var rest := Insert(xs[1..], x);
      assert forall k :: k in rest ==> Less(xs[0], k) by {
        forall k | k in rest ensures Less(xs[0], k) {
          if k != x {
            var j :| 0 <= j < |xs[1..]| && xs[1..][j] == k;
            assert xs[j + 1] == k;
          }
        }
      }
      [xs[0]] + rest
  }

  /** A strictly sorted list is determined by its elements. */
  lemma {:induction false} SortedUnique(a: seq<string>, b: seq<string>)
    requires StrictlySorted(a) && StrictlySorted(b)
    requires forall k :: k in a <==> k in b
    ensures a == b
    decreases |a|
  {
    assert |a| > 0 ==> a[0] in b;
    assert |b| > 0 ==> b[0] in a;
    if |a| > 0 {
      if a[0] != b[0] {
        var i :| 0 <= i < |a| && a[i] == b[0];
        var j :| 0 <= j < |b| && b[j] == a[0];
        assert Less(b[0], a[0]) by { assert b[0] == b[j] || Less(b[0], b[j]); }
        assert Less(a[0], b[0]) by { assert a[0] == a[i] || Less(a[0], a[i]); }
        LessAsymmetric(a[0], b[0]);
        assert false;
      }
      assert forall k :: k in a[1..] <==> k in a && k != a[0] by {
        forall k ensures k in a[1..] <==> k in a && k != a[0] {
          if k in a && k != a[0] {
            var i :| 0 <= i < |a| && a[i] == k;
            assert a[1..][i - 1] == k;
          }
          if k in a[1..] {
            var i :| 0 <= i < |a[1..]| && a[1..][i] == k;
            assert Less(a[0], a[i + 1]);
            LessIrreflexive(k);
          }
        }
      }
      assert forall k :: k in b[1..] <==> k in b && k != b[0] by {
        forall k ensures k in b[1..] <==> k in b && k != b[0] {
          if k in b && k != b[0] {
            var i :| 0 <= i < |b| && b[i] == k;
            assert b[1..][i - 1] == k;
          }
          if k in b[1..] {
            var i :| 0 <= i < |b[1..]| && b[1..][i] == k;
            assert Less(b[0], b[i + 1]);
            LessIrreflexive(k);
          }
        }
      }
      SortedUnique(a[1..], b[1..]);
      assert a == [a[0]] + a[1..] && b == [b[0]] + b[1..];
    }
  }
}
