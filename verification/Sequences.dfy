/** Selecting from a sequence of table rows, and what survives a change of row order. */
module Sequences {
  datatype Option<+T> = None | Some(value: T)

  /** The elements that satisfy `p`, in order. */
  function Filter<T>(s: seq<T>, p: T -> bool): (r: seq<T>)
    ensures |r| <= |s|
    ensures forall x :: x in r ==> x in s && p(x)
  {
    if s == [] then []
    else
      var init := Filter(s[..|s| - 1], p);
      var last := s[|s| - 1];
      if p(last) then init + [last] else init
  }

  /** The first element that satisfies `p`: what one `executeStep` of a SELECT yields. */
  function Find<T>(s: seq<T>, p: T -> bool): (r: Option<T>)
    ensures r.Some? ==> r.value in s && p(r.value)
    ensures r.None? ==> forall x :: x in s ==> !p(x)
  {
    if s == [] then None
    else if p(s[0]) then Some(s[0])
    else Find(s[1..], p)
  }

  lemma FilterSnoc<T>(s: seq<T>, x: T, p: T -> bool)
    ensures Filter(s + [x], p) == if p(x) then Filter(s, p) + [x] else Filter(s, p)
  {
    assert (s + [x])[..|s|] == s;
  }

  lemma {:induction false} FilterKeeps<T>(s: seq<T>, x: T, p: T -> bool)
    requires x in s && p(x)
    ensures x in Filter(s, p)
  {
    if x != s[|s| - 1] {
      FilterKeeps(s[..|s| - 1], x, p);
    }
  }

  lemma SameMembers<T>(a: seq<T>, b: seq<T>)
    requires multiset(a) == multiset(b)
    ensures forall x :: x in a <==> x in b
  {
    forall x ensures x in a <==> x in b {
      assert x in a <==> x in multiset(a);
      assert x in b <==> x in multiset(b);
    }
  }

  /** Looking up a chosen row after more rows were appended still finds it first. */
  lemma {:induction false} FindAppend<T>(a: seq<T>, b: seq<T>, p: T -> bool)
    requires Find(a, p).Some?
    ensures Find(a + b, p) == Find(a, p)
  {
    if !p(a[0]) {
      FindAppend(a[1..], b, p);
      assert (a + b)[1..] == a[1..] + b;
    }
  }

  /** `idx` embeds `xs` into `ys`: strictly increasing positions that hold the same elements. */
  predicate Embeds<T(==)>(idx: seq<nat>, xs: seq<T>, ys: seq<T>) {
    && |idx| == |xs|
    && (forall i, j :: 0 <= i < j < |idx| ==> idx[i] < idx[j])
    && (forall i :: 0 <= i < |idx| ==> idx[i] < |ys| && xs[i] == ys[idx[i]])
  }

  /** `xs` is a subsequence of `ys`: same order, nothing twice, nothing made up. */
  ghost predicate Subsequence<T>(xs: seq<T>, ys: seq<T>) {
    exists idx: seq<nat> :: Embeds(idx, xs, ys)
  }

  lemma SubsequenceSnoc<T>(xs: seq<T>, ys: seq<T>, y: T)
    requires Subsequence(xs, ys)
    ensures Subsequence(xs, ys + [y])
    ensures Subsequence(xs + [y], ys + [y])
  {
    var idx: seq<nat> :| Embeds(idx, xs, ys);
    assert Embeds(idx, xs, ys + [y]);
    assert Embeds(idx + [|ys|], xs + [y], ys + [y]);
  }

  lemma SubsequencePrefix<T>(xs: seq<T>, ys: seq<T>, n: nat)
    requires Subsequence(xs, ys) && n <= |xs|
    ensures Subsequence(xs[..n], ys)
  {
    var idx: seq<nat> :| Embeds(idx, xs, ys);
    assert Embeds(idx[..n], xs[..n], ys);
  }

  lemma SubsequenceEmpty<T>(ys: seq<T>)
    ensures Subsequence([], ys)
  {
    assert Embeds([], [], ys);
  }

  lemma SubsequenceIsShorter<T>(xs: seq<T>, ys: seq<T>)
    requires Subsequence(xs, ys)
    ensures |xs| <= |ys|
  {
    var idx: seq<nat> :| Embeds(idx, xs, ys);
    for i := 0 to |idx|
      invariant forall j :: 0 <= j < i ==> j <= idx[j]
    {
      assert i > 0 ==> idx[i - 1] < idx[i];
    }
    assert xs != [] ==> idx[|idx| - 1] < |ys|;
  }

  /** If at most one row meets a condition, the first row of the selection is the row found. */
  lemma FirstSelectedIsFound<T>(rows: seq<T>, s: seq<T>, p: T -> bool)
    requires multiset(rows) == multiset(Filter(s, p))
    requires forall x, y :: x in s && y in s && p(x) && p(y) ==> x == y
    ensures Find(s, p) == if rows == [] then None else Some(rows[0])
  {
    SameMembers(rows, Filter(s, p));
    if rows == [] {
      assert forall x :: x !in rows;
    } else {
      assert rows[0] in rows;
    }
    var found := Find(s, p);
    if found.Some? {
      FilterKeeps(s, found.value, p);
    }
  }

  /** There is always a number beyond those in use. */
  lemma {:induction false} Unused(used: set<nat>) returns (n: nat)
    ensures forall k :: k in used ==> k < n
  {
    if used == {} {
      n := 0;
    } else {
      var k :| k in used;
      n := Unused(used - {k});
      assert used == (used - {k}) + {k};
      n := if k < n then n else k + 1;
    }
  }
}
