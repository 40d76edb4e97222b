/** Small value types and sequence facts shared by the component models. */
module Common {

  datatype Option<+T> = None | Some(value: T)

  datatype Result<+T, +E> = Ok(value: T) | Err(error: E)

  predicate StartsWith(s: string, t: string) {
    |t| <= |s| && s[..|t|] == t
  }

  /** Lower case, for ASCII letters. */
  function LowerChar(c: char): char {
    if 'A' <= c <= 'Z' then ((c as int) + 32) as char else c
  }

  const CAPITALS := "ABCDEFGHIJKLMNOPQRSTUVWXYZ"
  const SMALL_LETTERS := "abcdefghijklmnopqrstuvwxyz"

  lemma CapitalIs(k: nat)
    requires k < 26
    ensures |CAPITALS| == 26 && CAPITALS[k] as int == 'A' as int + k
  {
  }

  lemma SmallLetterIs(k: nat)
    requires k < 26
    ensures |SMALL_LETTERS| == 26 && SMALL_LETTERS[k] as int == 'a' as int + k
  {
  }

  /** Each capital letter becomes the small letter at its place in the alphabet. */
  lemma CapitalsAreLowered(k: nat)
    requires k < 26
    ensures |CAPITALS| == |SMALL_LETTERS| == 26 && LowerChar(CAPITALS[k]) == SMALL_LETTERS[k]
  {
    CapitalIs(k);
    SmallLetterIs(k);
  }

  lemma CapitalAt(c: char)
    ensures c in CAPITALS <==> 'A' <= c <= 'Z'
    ensures c in CAPITALS ==> |CAPITALS| == 26 && CAPITALS[c as int - 'A' as int] == c
  {
    if 'A' <= c <= 'Z' {
      CapitalIs(c as int - 'A' as int);
    }
    if c in CAPITALS {
      var k :| 0 <= k < |CAPITALS| && CAPITALS[k] == c;
      CapitalIs(k);
    }
  }

  /** `d` is the small letter of the capital `c`, or `c` itself if that is no capital. */
  ghost predicate IsLowerOf(c: char, d: char) {
    if c in CAPITALS then
      exists k :: 0 <= k < |CAPITALS| && k < |SMALL_LETTERS| && CAPITALS[k] == c && SMALL_LETTERS[k] == d
    else c == d
  }

  lemma LowerCharIs(c: char, d: char)
    ensures LowerChar(c) == d <==> IsLowerOf(c, d)
  {
    CapitalAt(c);
    if c in CAPITALS {
      CapitalsAreLowered(c as int - 'A' as int);
      if k :| 0 <= k < |CAPITALS| && k < |SMALL_LETTERS| && CAPITALS[k] == c && SMALL_LETTERS[k] == d {
        CapitalsAreLowered(k);
      }
    }
  }

  // ----- trimming

  ghost predicate AllAre(space: char -> bool, s: string) {
    forall i :: 0 <= i < |s| ==> space(s[i])
  }

  /** `s` is `t` with white space around it. */
  ghost predicate Surrounds(space: char -> bool, s: string, a: string, t: string, b: string) {
    s == a + t + b && AllAre(space, a) && AllAre(space, b)
  }

  ghost predicate HasTightEnds(space: char -> bool, t: string) {
    t == "" || (!space(t[0]) && !space(t[|t| - 1]))
  }

  /** `t` is `s` without the white space around it. */
  ghost predicate IsTrimmed(space: char -> bool, s: string, t: string) {
    HasTightEnds(space, t) && exists a, b :: Surrounds(space, s, a, t, b)
  }

  lemma SurroundedMore(space: char -> bool, s: string, l: string, t: string, r: string, a: string, m: string, b: string)
    requires Surrounds(space, s, l, t, r) && Surrounds(space, t, a, m, b)
    ensures Surrounds(space, s, l + a, m, b + r)
  {
  }

  /** White space around a text adds to the white space around its trimmed form. */
  lemma TrimmedMore(space: char -> bool, s: string, l: string, t: string, r: string, m: string)
    requires Surrounds(space, s, l, t, r) && IsTrimmed(space, t, m)
    ensures IsTrimmed(space, s, m)
  {
    var a, b :| Surrounds(space, t, a, m, b);
    SurroundedMore(space, s, l, t, r, a, m, b);
  }

  lemma SameFront(space: char -> bool, s: string, a: string, t: string, b: string, c: string, u: string, d: string)
    requires Surrounds(space, s, a, t, b) && HasTightEnds(space, t)
    requires Surrounds(space, s, c, u, d) && HasTightEnds(space, u)
    ensures t == "" <==> u == ""
    ensures t != "" ==> |a| == |c| && |b| == |d|
  {
    if t != "" {
      assert s[|a|] == t[0] && s[|a| + |t| - 1] == t[|t| - 1];
    }
    if u != "" {
      assert s[|c|] == u[0] && s[|c| + |u| - 1] == u[|u| - 1];
    }
    assert forall i :: 0 <= i < |a| ==> s[i] == a[i];
    assert forall i :: 0 <= i < |c| ==> s[i] == c[i];
    assert forall i :: |a| + |t| <= i < |s| ==> s[i] == b[i - |a| - |t|];
    assert forall i :: |c| + |u| <= i < |s| ==> s[i] == d[i - |c| - |u|];
  }

  /** There is only one trimmed text. */
  lemma TrimmedIsUnique(space: char -> bool, s: string, t: string, u: string)
    requires IsTrimmed(space, s, t) && IsTrimmed(space, s, u)
    ensures t == u
  {
    var a, b :| Surrounds(space, s, a, t, b);
    var c, d :| Surrounds(space, s, c, u, d);
    SameFront(space, s, a, t, b, c, u, d);
    if t != "" {
      assert t == s[|a|..|s| - |b|] && u == s[|c|..|s| - |d|];
    }
  }

  ghost predicate Distinct<T>(s: seq<T>) {
    forall i, j :: 0 <= i < j < |s| ==> s[i] != s[j]
  }

  /** The elements of `s` that satisfy `p`, in order. */
  function Filter<T>(s: seq<T>, p: T -> bool): seq<T> {
    if s == [] then []
    else Filter(s[..|s| - 1], p) + (if p(s[|s| - 1]) then [s[|s| - 1]] else [])
  }

  lemma {:induction false} FilterHas<T>(s: seq<T>, p: T -> bool, x: T)
    ensures x in Filter(s, p) <==> x in s && p(x)
  {
    if s != [] {
      FilterHas(s[..|s| - 1], p, x);
      assert s == s[..|s| - 1] + [s[|s| - 1]];
    }
  }

  lemma FilterMembers<T>(s: seq<T>, p: T -> bool)
    ensures forall x :: x in Filter(s, p) <==> x in s && p(x)
  {
    forall x
      ensures x in Filter(s, p) <==> x in s && p(x)
    {
      FilterHas(s, p, x);
    }
  }

  /** `picks` are, in ascending order, exactly the positions of `s` that satisfy `p`. */
  ghost predicate IsPicks<T>(s: seq<T>, p: T -> bool, picks: seq<nat>) {
    && (forall i :: 0 <= i < |picks| ==> picks[i] < |s|)
    && (forall i, j :: 0 <= i < j < |picks| ==> picks[i] < picks[j])
    && (forall k :: k in picks <==> 0 <= k < |s| && p(s[k]))
  }

  lemma PicksStep<T>(s: seq<T>, p: T -> bool, picks: seq<nat>, x: T)
    requires IsPicks(s, p, picks)
    ensures IsPicks(s + [x], p, if p(x) then picks + [|s|] else picks)
  {
    var all := if p(x) then picks + [|s|] else picks;
    assert forall i :: 0 <= i < |picks| ==> all[i] == picks[i];
    assert forall k :: 0 <= k < |s| ==> (s + [x])[k] == s[k];
    forall k
      ensures k in all <==> 0 <= k < |s + [x]| && p((s + [x])[k])
    {
      assert k in all <==> k in picks || (p(x) && k == |s|);
    }
  }

  /** `r` holds the elements of `s` at those positions. */
  ghost predicate Picked<T>(s: seq<T>, picks: seq<nat>, r: seq<T>) {
    && |r| == |picks|
    && (forall i :: 0 <= i < |picks| ==> picks[i] < |s| && r[i] == s[picks[i]])
  }

  lemma PickedStep<T>(s: seq<T>, picks: seq<nat>, r: seq<T>, x: T)
    requires Picked(s, picks, r)
    ensures Picked(s + [x], picks, r) && Picked(s + [x], picks + [|s|], r + [x])
  {
  }

  lemma FilterStep<T>(s: seq<T>, p: T -> bool, x: T)
    ensures Filter(s + [x], p) == if p(x) then Filter(s, p) + [x] else Filter(s, p)
  {
    assert (s + [x])[..|s|] == s;
  }

  /** A filtered sequence holds the elements at those positions. */
  lemma {:induction false} FilterPicks<T>(s: seq<T>, p: T -> bool) returns (picks: seq<nat>)
    ensures IsPicks(s, p, picks) && Picked(s, picks, Filter(s, p))
  {
    if s == [] {
      return [];
    }
    var init, x := s[..|s| - 1], s[|s| - 1];
    assert s == init + [x];
    picks := FilterPicks(init, p);
    PicksStep(init, p, picks, x);
    PickedStep(init, picks, Filter(init, p), x);
    FilterStep(init, p, x);
    picks := if p(x) then picks + [|init|] else picks;
  }

  /** A sequence is, as a multiset, its elements with a property and those with the opposite one. */
  lemma {:induction false} FilterSplits<T>(s: seq<T>, p: T -> bool, q: T -> bool)
    requires forall x :: x in s ==> p(x) != q(x)
    ensures multiset(Filter(s, p) + Filter(s, q)) == multiset(s)
  {
    if s != [] {
      assert s == s[..|s| - 1] + [s[|s| - 1]];
      FilterSplits(s[..|s| - 1], p, q);
    }
  }

  lemma RemoveAt<T>(s: seq<T>, i: nat)
    requires i < |s|
    ensures multiset(s) == multiset(s[..i] + s[i + 1..]) + multiset{s[i]}
  {
    assert s == s[..i] + [s[i]] + s[i + 1..];
  }

  lemma RemovedAlike<T>(s: seq<T>, i: nat, s': seq<T>, a: nat)
    requires multiset(s) == multiset(s') && i < |s| && a < |s'| && s[i] == s'[a]
    ensures multiset(s[..i] + s[i + 1..]) == multiset(s'[..a] + s'[a + 1..])
  {
    RemoveAt(s, i);
    RemoveAt(s', a);
    assert multiset(s[..i] + s[i + 1..]) == multiset(s) - multiset{s[i]};
  }

  /** Two positions of a sequence have counterparts in every permutation of it. */
  lemma PositionsInPermutation<T>(s: seq<T>, s': seq<T>, i: nat, j: nat) returns (a: nat, b: nat)
    requires multiset(s) == multiset(s') && i < j < |s|
    ensures a < |s'| && b < |s'| && a != b && s'[a] == s[i] && s'[b] == s[j]
  {
    assert s[i] in s' by {
      SameMembers(s, s');
      assert s[i] in s;
    }
    a :| 0 <= a < |s'| && s'[a] == s[i];
    var rest, others := s'[..a] + s'[a + 1..], s[..i] + s[i + 1..];
    assert s[j] in rest by {
      RemovedAlike(s, i, s', a);
      SameMembers(rest, others);
      assert others[j - 1] == s[j] && others[j - 1] in others;
    }
    var c :| 0 <= c < |rest| && rest[c] == s[j];
    b := if c < a then c else c + 1;
  }

  /** Two sequences with the same multiset have the same members. */
  lemma SameMembers<T>(a: seq<T>, b: seq<T>)
    requires multiset(a) == multiset(b)
    ensures forall x :: x in a <==> x in b
  {
    forall x
      ensures x in a <==> x in b
    {
      assert x in a <==> x in multiset(a);
    }
  }

  lemma {:induction false} FilterCongruent<T>(s: seq<T>, p: T -> bool, q: T -> bool)
    requires forall x :: x in s ==> p(x) == q(x)
    ensures Filter(s, p) == Filter(s, q)
  {
    if s != [] {
      assert s == s[..|s| - 1] + [s[|s| - 1]];
      FilterCongruent(s[..|s| - 1], p, q);
    }
  }

  lemma {:induction false} FilterTwice<T>(s: seq<T>, p: T -> bool, q: T -> bool)
    requires forall x :: x in s && q(x) ==> p(x)
    ensures Filter(Filter(s, p), q) == Filter(s, q)
  {
    if s != [] {
      var init, x := s[..|s| - 1], s[|s| - 1];
      assert s == init + [x];
      FilterTwice(init, p, q);
      if p(x) {
        var f := Filter(init, p) + [x];
        assert f == Filter(s, p) && f[..|f| - 1] == Filter(init, p) && f[|f| - 1] == x;
      } else {
        assert Filter(s, p) == Filter(init, p);
      }
    }
  }

  function MapSeq<T, U>(s: seq<T>, f: T -> U): seq<U> {
    seq(|s|, i requires 0 <= i < |s| => f(s[i]))
  }

  lemma InMapSeq<T, U>(s: seq<T>, f: T -> U, y: U)
    ensures y in MapSeq(s, f) <==> exists x :: x in s && f(x) == y
  {
    if exists x :: x in s && f(x) == y {
      var x :| x in s && f(x) == y;
      var i :| 0 <= i < |s| && s[i] == x;
      assert MapSeq(s, f)[i] == y;
    }
  }

  lemma MapSeqMore<T, U>(s: seq<T>, x: T, f: T -> U)
    ensures MapSeq(s + [x], f) == MapSeq(s, f) + [f(x)]
  {
  }

  function Flatten<T>(lists: seq<seq<T>>): seq<T> {
    if lists == [] then [] else Flatten(lists[..|lists| - 1]) + lists[|lists| - 1]
  }

  function FlatMap<T, U>(s: seq<T>, f: T -> seq<U>): seq<U> {
    if s == [] then [] else FlatMap(s[..|s| - 1], f) + f(s[|s| - 1])
  }

  lemma {:induction false} FlatMapConcat<T, U>(a: seq<T>, b: seq<T>, f: T -> seq<U>)
    ensures FlatMap(a + b, f) == FlatMap(a, f) + FlatMap(b, f)
  {
    if b == [] {
      assert a + b == a;
      assert FlatMap(a, f) + [] == FlatMap(a, f);
    } else {
      var n := |b| - 1;
      assert (a + b)[..|a + b| - 1] == a + b[..n];
      FlatMapConcat(a, b[..n], f);
      assert FlatMap(a, f) + FlatMap(b[..n], f) + f(b[n]) == FlatMap(a, f) + (FlatMap(b[..n], f) + f(b[n]));
    }
  }

  lemma {:induction false} InFlatMap<T, U>(s: seq<T>, f: T -> seq<U>, y: U)
    ensures y in FlatMap(s, f) <==> exists x :: x in s && y in f(x)
  {
    if s != [] {
      var init, x := s[..|s| - 1], s[|s| - 1];
      InFlatMap(init, f, y);
      assert s == init + [x];
    }
  }

  /** Filtering mapped elements by what the map preserves. */
  lemma {:induction false} FilterOfMap<T, U>(s: seq<T>, f: T -> U, p: U -> bool, q: T -> bool)
    requires forall x :: x in s ==> p(f(x)) == q(x)
    ensures Filter(MapSeq(s, f), p) == MapSeq(Filter(s, q), f)
  {
    if s != [] {
      var init, x := s[..|s| - 1], s[|s| - 1];
      assert s == init + [x];
      FilterOfMap(init, f, p, q);
      assert MapSeq(s, f)[..|s| - 1] == MapSeq(init, f);
    }
  }

  /** The last element of `s` with key `k`. */
  function LastWith<T>(s: seq<T>, key: T -> int, k: int): Option<T> {
    if s == [] then None
    else if key(s[|s| - 1]) == k then Some(s[|s| - 1])
    else LastWith(s[..|s| - 1], key, k)
  }

  /** `s[k]` is the last occurrence of its value. */
  predicate IsLast(s: seq<int>, k: nat)
    requires k < |s|
  {
    forall j | k < j < |s| :: s[j] != s[k]
  }
}
