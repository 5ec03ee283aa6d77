/**
 * The Python string primitives the program relies on, over ASCII:
 * `str.strip()`, `str.lower()` and the substring test `sub in s`.
 */
module Text {

  /** Python's `str.isspace` on ASCII: \t \n \v \f \r, the separators \x1c-\x1f, and space. */
  predicate IsSpace(c: char) {
    9 <= c as int <= 13 || 28 <= c as int <= 32
  }

  /** Every character of `s` in the half-open range [lo, hi) is whitespace. */
  predicate SpaceBetween(s: string, lo: int, hi: int)
    requires 0 <= lo && hi <= |s|
  {
    forall k :: lo <= k < hi ==> IsSpace(s[k])
  }

  predicate AllSpace(s: string) {
    SpaceBetween(s, 0, |s|)
  }

  /** `s` neither starts nor ends with whitespace. */
  predicate NoOuterSpace(s: string) {
    |s| == 0 || (!IsSpace(s[0]) && !IsSpace(s[|s| - 1]))
  }

  /** Python's `str.lstrip()`: drops leading whitespace. */
  function TrimStart(s: string): string
    decreases |s|
  {
    if |s| > 0 && IsSpace(s[0]) then TrimStart(s[1..]) else s
  }

  /** Python's `str.rstrip()`: drops trailing whitespace. */
  function TrimEnd(s: string): string
    decreases |s|
  {
    if |s| > 0 && IsSpace(s[|s| - 1]) then TrimEnd(s[..|s| - 1]) else s
  }

  /** `TrimStart` keeps the longest suffix of `s` that does not start with whitespace. */
  lemma {:induction false} TrimStartSpec(s: string)
    ensures |TrimStart(s)| <= |s| && TrimStart(s) == s[|s| - |TrimStart(s)|..]
    ensures SpaceBetween(s, 0, |s| - |TrimStart(s)|)
    ensures |TrimStart(s)| == 0 || !IsSpace(TrimStart(s)[0])
    ensures TrimStart(s) == [] <==> AllSpace(s)
    decreases |s|
  {
    if |s| > 0 && IsSpace(s[0]) {
      TrimStartSpec(s[1..]);
    }
  }

  /** `TrimEnd` keeps the longest prefix of `s` that does not end with whitespace. */
  lemma {:induction false} TrimEndSpec(s: string)
    ensures |TrimEnd(s)| <= |s| && TrimEnd(s) == s[..|TrimEnd(s)|]
    ensures SpaceBetween(s, |TrimEnd(s)|, |s|)
    ensures |TrimEnd(s)| == 0 || !IsSpace(TrimEnd(s)[|TrimEnd(s)| - 1])
    ensures TrimEnd(s) == [] <==> AllSpace(s)
    decreases |s|
  {
    if |s| > 0 && IsSpace(s[|s| - 1]) {
      TrimEndSpec(s[..|s| - 1]);
    }
  }

  /** Python's `str.strip()` with no argument. */
  function Strip(s: string): (r: string)
    ensures |r| <= |s|
    ensures NoOuterSpace(r)
  {
    TrimStartSpec(s);
    TrimEndSpec(TrimStart(s));
    TrimEnd(TrimStart(s))
  }

  /** Stripping leaves nothing exactly when the string is all whitespace. */
  lemma StripEmptyIff(s: string)
    ensures Strip(s) == [] <==> AllSpace(s)
  {
    TrimStartSpec(s);
    TrimEndSpec(TrimStart(s));
  }

  /** The three conditions of `TrimStart`'s contract pin its result down. */
  lemma TrimStartUnique(s: string, r: string)
    requires |r| <= |s| && r == s[|s| - |r|..]
    requires SpaceBetween(s, 0, |s| - |r|)
    requires |r| == 0 || !IsSpace(r[0])
    ensures r == TrimStart(s)
  {
    TrimStartSpec(s);
    var t := TrimStart(s);
    assert |t| > 0 ==> s[|s| - |t|] == t[0];
    assert |r| > 0 ==> s[|s| - |r|] == r[0];
    assert |r| == |t|;
  }

  /** The three conditions of `TrimEnd`'s contract pin its result down. */
  lemma TrimEndUnique(s: string, r: string)
    requires |r| <= |s| && r == s[..|r|]
    requires SpaceBetween(s, |r|, |s|)
    requires |r| == 0 || !IsSpace(r[|r| - 1])
    ensures r == TrimEnd(s)
  {
    TrimEndSpec(s);
    var t := TrimEnd(s);
    assert |t| > 0 ==> s[|t| - 1] == t[|t| - 1];
    assert |r| > 0 ==> s[|r| - 1] == r[|r| - 1];
    assert |r| == |t|;
  }

  /** Leading whitespace is only ever taken from `a` when `b` starts with a visible character. */
  lemma TrimStartAppend(a: string, b: string)
    requires |b| > 0 && !IsSpace(b[0])
    ensures TrimStart(a + b) == TrimStart(a) + b
  {
    TrimStartSpec(a);
    var ta := TrimStart(a);
    var r := ta + b;
    assert (a + b)[|a + b| - |r|..] == a[|a| - |ta|..] + b;
    assert forall k :: 0 <= k < |a| - |ta| ==> (a + b)[k] == a[k];
    assert r[0] == if |ta| > 0 then ta[0] else b[0];
    TrimStartUnique(a + b, r);
  }

  /** Trailing whitespace is only ever taken from `b` when `a` ends with a visible character. */
  lemma TrimEndAppend(a: string, b: string)
    requires |a| > 0 && !IsSpace(a[|a| - 1])
    ensures TrimEnd(a + b) == a + TrimEnd(b)
  {
    TrimEndSpec(b);
    var tb := TrimEnd(b);
    var r := a + tb;
    assert (a + b)[..|r|] == a + b[..|tb|];
    assert forall k :: |r| <= k < |a + b| ==> (a + b)[k] == b[k - |a|];
    assert r[|r| - 1] == if |tb| > 0 then tb[|tb| - 1] else a[|a| - 1];
    TrimEndUnique(a + b, r);
  }

  /** Right-trimming `c` followed by `y`: `c` survives exactly when `y` is not all whitespace. */
  lemma TrimEndCons(c: char, y: string)
    requires IsSpace(c)
    ensures TrimEnd([c] + y) == if AllSpace(y) then [] else [c] + TrimEnd(y)
  {
    var s := [c] + y;
    if AllSpace(y) {
      assert forall k :: 0 <= k < |s| ==> IsSpace(s[k]) by {
        forall k | 0 <= k < |s| ensures IsSpace(s[k]) {
          if k > 0 { assert s[k] == y[k - 1]; }
        }
      }
      TrimEndUnique(s, []);
    } else {
      TrimEndSpec(y);
      var ty := TrimEnd(y);
      var r := [c] + ty;
      assert s[..|r|] == [c] + y[..|ty|];
      assert forall k :: |r| <= k < |s| ==> s[k] == y[k - 1];
      assert r[|r| - 1] == ty[|ty| - 1];
      TrimEndUnique(s, r);
    }
  }

  /** Stripping a string that has no outer whitespace changes nothing. */
  lemma StripNoOuterSpace(s: string)
    requires NoOuterSpace(s)
    ensures Strip(s) == s
  {
    TrimStartUnique(s, s);
    TrimEndUnique(s, s);
  }

  /** `Strip` is idempotent. */
  lemma StripIdempotent(s: string)
    ensures Strip(Strip(s)) == Strip(s)
  {
    StripNoOuterSpace(Strip(s));
  }

  /** `sub` occurs in `s` starting at index `i`. */
  predicate OccursAt(s: string, sub: string, i: int) {
    0 <= i && i + |sub| <= |s| && s[i..i + |sub|] == sub
  }

  /** Python's `sub in s`, as a left-to-right scan. */
  function Contains(s: string, sub: string): bool
    decreases |s|
  {
    if |sub| > |s| then false
    else if sub <= s then true
    else Contains(s[1..], sub)
  }

  /** The scan finds `sub` exactly when `sub` occurs somewhere in `s`. */
  lemma {:induction false} ContainsIffOccurs(s: string, sub: string)
    ensures Contains(s, sub) <==> exists i :: OccursAt(s, sub, i)
    decreases |s|
  {
    if |sub| > |s| {
    } else if sub <= s {
      assert OccursAt(s, sub, 0);
    } else {
      OccursShift(s, sub);
      ContainsIffOccurs(s[1..], sub);
    }
  }

  /** When `sub` is not a prefix of `s`, its occurrences in `s` are those in `s[1..]`, shifted by one. */
  lemma OccursShift(s: string, sub: string)
    requires |sub| <= |s| && !(sub <= s)
    ensures (exists i :: OccursAt(s, sub, i)) <==> (exists i :: OccursAt(s[1..], sub, i))
  {
    assert |sub| > 0;
    if i :| OccursAt(s, sub, i) {
      assert i != 0 by { assert s[..|sub|] == s[0..0 + |sub|]; }
      assert s[1..][i - 1..i - 1 + |sub|] == s[i..i + |sub|];
      assert OccursAt(s[1..], sub, i - 1);
    }
    if i :| OccursAt(s[1..], sub, i) {
      assert s[1..][i..i + |sub|] == s[i + 1..i + 1 + |sub|];
      assert OccursAt(s, sub, i + 1);
    }
  }

  /** An ASCII capital becomes its small letter; any other character is kept. */
  function LowerChar(c: char): (d: char)
    ensures 'A' <= c <= 'Z' ==> 'a' <= d <= 'z' && d as int - c as int == 32
    ensures !('A' <= c <= 'Z') ==> d == c
  {
    if 'A' <= c <= 'Z' then (c as int + 32) as char else c
  }

  /** Python's `str.lower()` on ASCII letters; other characters are kept. */
  function Lower(s: string): string {
    if |s| == 0 then [] else [LowerChar(s[0])] + Lower(s[1..])
  }

  /** Lower-casing works character by character and keeps the length. */
  lemma {:induction false} LowerSpec(s: string)
    ensures |Lower(s)| == |s|
    ensures forall i :: 0 <= i < |s| ==> Lower(s)[i] == LowerChar(s[i])
    decreases |s|
  {
    if |s| > 0 {
      LowerSpec(s[1..]);
      assert forall i :: 1 <= i < |s| ==> Lower(s)[i] == Lower(s[1..])[i - 1];
    }
  }
}
