/**
 * Two loop shapes the scraper uses, stated once over an arbitrary test:
 * "stop at the first element that passes" and "keep the elements that pass,
 * in order".
 */
module Selection {
  import opened Wrappers

  /** The position of the first element of `xs` that passes `p` (a loop that `break`s there). */
  function FirstIndex<T>(xs: seq<T>, p: T -> bool): (r: Option<nat>)
    ensures r.Some? ==> r.value < |xs| && p(xs[r.value])
    ensures r.Some? ==> forall j :: 0 <= j < r.value ==> !p(xs[j])
    ensures r.None? ==> forall j :: 0 <= j < |xs| ==> !p(xs[j])
  {
    if |xs| == 0 then None
    else if p(xs[0]) then Some(0)
    else
      match FirstIndex(xs[1..], p)
      case None => None
      case Some(k) => Some(k + 1)
  }

  /** The contract of `FirstIndex` determines it. */
  lemma FirstIndexIs<T>(xs: seq<T>, p: T -> bool, i: nat)
    requires i < |xs| && p(xs[i])
    requires forall j :: 0 <= j < i ==> !p(xs[j])
    ensures FirstIndex(xs, p) == Some(i)
  {
    var r := FirstIndex(xs, p);
    assert r.value <= i;
    assert r.value >= i;
  }

  /** Elements after the first passing one never change where the loop stops. */
  lemma FirstIndexIgnoresSuffix<T>(xs: seq<T>, more: seq<T>, p: T -> bool)
    requires FirstIndex(xs, p).Some?
    ensures FirstIndex(xs + more, p) == FirstIndex(xs, p)
  {
    var i := FirstIndex(xs, p).value;
    assert (xs + more)[i] == xs[i];
    assert forall j :: 0 <= j < i ==> (xs + more)[j] == xs[j];
    FirstIndexIs(xs + more, p, i);
  }

  predicate Selected<T>(x: Option<T>, keep: T -> bool) {
    x.Some? && keep(x.value)
  }

  /** The present elements that pass `keep`, in their original order (a loop of `continue`s and `append`s). */
  function Select<T>(xs: seq<Option<T>>, keep: T -> bool): (ys: seq<T>)
    ensures |ys| <= |xs|
    ensures forall y :: y in ys ==> keep(y) && Some(y) in xs
    ensures forall i :: 0 <= i < |xs| && Selected(xs[i], keep) ==> xs[i].value in ys
  {
    if |xs| == 0 then []
    else
      var rest := Select(xs[1..], keep);
      assert forall i :: 1 <= i < |xs| ==> xs[i] == xs[1..][i - 1];
      (if Selected(xs[0], keep) then [xs[0].value] else []) + rest
  }

  /** One element is kept exactly when it is present and passes. */
  lemma SelectOne<T>(x: Option<T>, keep: T -> bool)
    ensures Select([x], keep) == if Selected(x, keep) then [x.value] else []
  {
    assert [x][1..] == [];
  }

  /** Selecting from two runs one after the other: the kept elements of the first run come first. */
  lemma {:induction false} SelectAppend<T>(xs: seq<Option<T>>, more: seq<Option<T>>, keep: T -> bool)
    ensures Select(xs + more, keep) == Select(xs, keep) + Select(more, keep)
    decreases |xs|
  {
    if |xs| > 0 {
      assert (xs + more)[1..] == xs[1..] + more;
      SelectAppend(xs[1..], more, keep);
    } else {
      assert xs + more == more;
    }
  }

  /** Any strict order that the present elements respect by position, the selected elements respect too. */
  lemma {:induction false} SelectKeepsOrder<T>(xs: seq<Option<T>>, keep: T -> bool, before: (T, T) -> bool)
    requires forall i, j :: 0 <= i < j < |xs| && xs[i].Some? && xs[j].Some? ==> before(xs[i].value, xs[j].value)
    ensures forall k, l :: 0 <= k < l < |Select(xs, keep)| ==> before(Select(xs, keep)[k], Select(xs, keep)[l])
    decreases |xs|
  {
    if |xs| > 0 {
      var tail := xs[1..];
      assert forall i, j :: 0 <= i < j < |tail| && tail[i].Some? && tail[j].Some? ==>
        before(tail[i].value, tail[j].value) by {
        forall i, j | 0 <= i < j < |tail| && tail[i].Some? && tail[j].Some?
          ensures before(tail[i].value, tail[j].value)
        {
          assert tail[i] == xs[i + 1] && tail[j] == xs[j + 1];
        }
      }
      SelectKeepsOrder(tail, keep, before);
      var rest := Select(tail, keep);
      if Selected(xs[0], keep) {
        forall y | y in rest
          ensures before(xs[0].value, y)
        {
          var j :| 0 <= j < |tail| && tail[j] == Some(y);
          assert xs[j + 1] == Some(y);
        }
        var ys := Select(xs, keep);
        assert ys == [xs[0].value] + rest;
        forall k, l | 0 <= k < l < |ys|
          ensures before(ys[k], ys[l])
        {
          if k == 0 {
            assert ys[l] == rest[l - 1];
          } else {
            assert ys[k] == rest[k - 1] && ys[l] == rest[l - 1];
          }
        }
      }
    }
  }
}
