/** Directory listings in an arbitrary order, and the stable sort by sequence number that
    `loadItems` and `loadEnvironments` of `internal/storage/store.go` apply to what they read. */
module Listing {

  /** A value read from the file called `name`, with the sequence number the file carries. */
  datatype Numbered<T> = Numbered(seqNo: int, name: string, value: T)

  function NamesOf<T>(xs: seq<Numbered<T>>): (names: seq<string>)
    ensures |names| == |xs|
  {
    seq(|xs|, i requires 0 <= i < |xs| => xs[i].name)
  }

  predicate Sorted<T>(xs: seq<Numbered<T>>) {
    forall i, j :: 0 <= i < j < |xs| ==> xs[i].seqNo <= xs[j].seqNo
  }

  /** The members numbered n, in order. */
  function WithSeq<T>(xs: seq<Numbered<T>>, n: int): seq<Numbered<T>> {
    if xs == [] then []
    else if xs[0].seqNo == n then [xs[0]] + WithSeq(xs[1..], n)
    else WithSeq(xs[1..], n)
  }

  lemma {:induction false} WithSeqAppend<T>(xs: seq<Numbered<T>>, ys: seq<Numbered<T>>, n: int)
    ensures WithSeq(xs + ys, n) == WithSeq(xs, n) + WithSeq(ys, n)
  {
    if xs == [] {
      assert xs + ys == ys;
    } else {
      assert (xs + ys)[1..] == xs[1..] + ys;
      WithSeqAppend(xs[1..], ys, n);
    }
  }

  lemma {:induction false} WithSeqAbsent<T>(xs: seq<Numbered<T>>, n: int)
    requires forall x <- xs :: x.seqNo != n
    ensures WithSeq(xs, n) == []
  {
    if xs != [] {
      WithSeqAbsent(xs[1..], n);
    }
  }

  lemma SplitAt<T>(xs: seq<T>, p: nat)
    requires p <= |xs|
    ensures xs[..p] + xs[p..] == xs
  {
  }

  lemma InsertKeepsAll<T>(ys: seq<Numbered<T>>, p: nat, x: Numbered<T>)
    requires p <= |ys|
    ensures multiset(ys[..p] + [x] + ys[p..]) == multiset(ys + [x])
    ensures multiset(NamesOf(ys[..p] + [x] + ys[p..])) == multiset(NamesOf(ys + [x]))
  {
    SplitAt(ys, p);
    var names := NamesOf(ys);
    SplitAt(names, p);
    assert NamesOf(ys[..p] + [x] + ys[p..]) == names[..p] + [x.name] + names[p..];
    assert NamesOf(ys + [x]) == names + [x.name];
  }

  lemma InsertIsStable<T>(ys: seq<Numbered<T>>, p: nat, x: Numbered<T>, n: int)
    requires p <= |ys|
    requires forall y <- ys[p..] :: y.seqNo > x.seqNo
    ensures WithSeq(ys[..p] + [x] + ys[p..], n) == WithSeq(ys + [x], n)
  {
    var a, b := ys[..p], ys[p..];
    SplitAt(ys, p);
    WithSeqAppend(a + [x], b, n);
    WithSeqAppend(a, [x], n);
    WithSeqAppend(ys, [x], n);
    WithSeqAppend(a, b, n);
    if x.seqNo == n {
      WithSeqAbsent(b, n);
    } else {
      WithSeqAbsent([x], n);
    }
  }

  /** One step of the insertion sort, on a stretch `done` whose sorted form is `ys`. */
  lemma InsertStep<T>(done: seq<Numbered<T>>, ys: seq<Numbered<T>>, p: nat, x: Numbered<T>)
    requires p <= |ys| && SortedForm(done, ys)
    requires forall y <- ys[p..] :: y.seqNo > x.seqNo
    requires p > 0 ==> ys[p - 1].seqNo <= x.seqNo
    ensures SortedForm(done + [x], ys[..p] + [x] + ys[p..])
  {
    hide WithSeq;
    var next := ys[..p] + [x] + ys[p..];
    assert Sorted(next) by {
      assert forall k :: p <= k < |ys| ==> ys[k] in ys[p..];
    }
    InsertKeepsAll(ys, p, x);
    assert NamesOf(ys + [x]) == NamesOf(ys) + [x.name];
    assert NamesOf(done + [x]) == NamesOf(done) + [x.name];
    forall n
      ensures WithSeq(next, n) == WithSeq(done + [x], n)
    {
      InsertIsStable(ys, p, x, n);
      WithSeqAppend(ys, [x], n);
      WithSeqAppend(done, [x], n);
    }
  }

  /** `ys` is `xs` sorted by number: a permutation in which, for every number, the members with it
      keep their order. */
  ghost predicate SortedForm<T>(xs: seq<Numbered<T>>, ys: seq<Numbered<T>>) {
    && Sorted(ys)
    && multiset(ys) == multiset(xs)
    && multiset(NamesOf(ys)) == multiset(NamesOf(xs))
    && forall n :: WithSeq(ys, n) == WithSeq(xs, n)
  }

  /** `sort.SliceStable` by sequence number. */
  method SortStable<T>(xs: seq<Numbered<T>>) returns (ys: seq<Numbered<T>>)
    ensures SortedForm(xs, ys)
  {
    ys := [];
    for i := 0 to |xs|
      invariant SortedForm(xs[..i], ys)
    {
      var x := xs[i];
      var p := |ys|;
      while p > 0 && ys[p - 1].seqNo > x.seqNo
        invariant 0 <= p <= |ys|
        invariant forall y <- ys[p..] :: y.seqNo > x.seqNo
      {
        p := p - 1;
      }
      assert xs[..i + 1] == xs[..i] + [x];
      InsertStep(xs[..i], ys, p, x);
      ys := ys[..p] + [x] + ys[p..];
    }
    assert xs[..|xs|] == xs;
  }

  /** `names` lists the set `keys`, each member once. */
  predicate Lists(names: seq<string>, keys: set<string>) {
    multiset(names) == multiset(keys)
  }

  lemma ListsDistinct(names: seq<string>, keys: set<string>, i: nat, j: nat)
    requires Lists(names, keys) && i < j < |names|
    ensures names[i] != names[j]
  {
    var before := names[..j];
    assert names == before + [names[j]] + names[j + 1..];
    assert multiset(names)[names[j]] >= multiset(before)[names[j]] + 1;
    assert multiset(keys)[names[j]] <= 1;
    assert before[i] == names[i];
    assert names[i] in before;
  }

  lemma ListsEach(names: seq<string>, keys: set<string>)
    requires Lists(names, keys)
    ensures forall k :: k in names <==> k in keys
    ensures forall i, j :: 0 <= i < j < |names| ==> names[i] != names[j]
    ensures |names| == |keys|
  {
    assert forall k :: k in names <==> k in multiset(names);
    forall i, j | 0 <= i < j < |names|
      ensures names[i] != names[j]
    {
      ListsDistinct(names, keys, i, j);
    }
    assert |multiset(names)| == |names|;
    assert |multiset(keys)| == |keys|;
  }

  lemma {:induction false} DistinctLists(names: seq<string>)
    requires forall i, j :: 0 <= i < j < |names| ==> names[i] != names[j]
    ensures Lists(names, set x <- names)
  {
    if names != [] {
      var n := |names| - 1;
      DistinctLists(names[..n]);
      assert names == names[..n] + [names[n]];
      assert (set x <- names) == (set x <- names[..n]) + {names[n]};
      assert names[n] !in names[..n];
      assert multiset((set x <- names[..n]) + {names[n]}) == multiset(set x <- names[..n]) + multiset{names[n]};
    }
  }

  /** `os.ReadDir`, in whatever order. */
  method ReadDir<T>(dir: map<string, T>) returns (names: seq<string>)
    ensures Lists(names, dir.Keys)
  {
    names := [];
    var left := dir.Keys;
    while left != {}
      invariant left <= dir.Keys
      invariant multiset(names) + multiset(left) == multiset(dir.Keys)
      decreases |left|
    {
      var k :| k in left;
      assert multiset(left) == multiset(left - {k}) + multiset{k};
      names := names + [k];
      left := left - {k};
    }
  }

  /** The members of `names` that are in `keys`, in order. */
  function Picked(names: seq<string>, keys: set<string>): seq<string> {
    if names == [] then []
    else
      var rest := Picked(names[..|names| - 1], keys);
      if names[|names| - 1] in keys then rest + [names[|names| - 1]] else rest
  }

  lemma {:induction false} PickedCounts(names: seq<string>, keys: set<string>, k: string)
    ensures multiset(Picked(names, keys))[k] == if k in keys then multiset(names)[k] else 0
  {
    if names != [] {
      PickedCounts(names[..|names| - 1], keys, k);
      assert names == names[..|names| - 1] + [names[|names| - 1]];
    }
  }

  lemma PickedLists(names: seq<string>, all: set<string>, keys: set<string>)
    requires Lists(names, all) && keys <= all
    ensures Lists(Picked(names, keys), keys)
  {
    forall k
      ensures multiset(Picked(names, keys))[k] == multiset(keys)[k]
    {
      PickedCounts(names, keys, k);
    }
  }

  lemma {:induction false} IncreasingAbove(f: seq<int>, i: nat)
    requires i < |f|
    requires forall k :: 0 <= k < |f| ==> 0 <= f[k]
    requires forall k, l :: 0 <= k < l < |f| ==> f[k] < f[l]
    ensures f[i] >= i
  {
    if i > 0 {
      IncreasingAbove(f, i - 1);
    }
  }

  lemma {:induction false} IncreasingBelow(f: seq<int>, i: nat)
    requires i < |f|
    requires forall k :: 0 <= k < |f| ==> f[k] < |f|
    requires forall k, l :: 0 <= k < l < |f| ==> f[k] < f[l]
    ensures f[i] <= i
    decreases |f| - i
  {
    if i < |f| - 1 {
      IncreasingBelow(f, i + 1);
    }
  }

  function Positions(listed: seq<string>, num: map<string, int>): (f: seq<int>)
    requires forall x <- listed :: x in num
    ensures |f| == |listed|
  {
    seq(|listed|, i requires 0 <= i < |listed| => assert listed[i] in listed; num[listed[i]] - 1)
  }

  lemma IncreasingIsIdentity(f: seq<int>, i: nat)
    requires i < |f|
    requires forall k :: 0 <= k < |f| ==> 0 <= f[k] < |f|
    requires forall k, l :: 0 <= k < l < |f| ==> f[k] < f[l]
    ensures f[i] == i
  {
    IncreasingAbove(f, i);
    IncreasingBelow(f, i);
  }

  lemma PositionsHit(listed: seq<string>, wanted: seq<string>, keys: set<string>, num: map<string, int>, i: nat)
    requires Lists(listed, keys) && Lists(wanted, keys)
    requires forall i :: 0 <= i < |wanted| ==> wanted[i] in num && num[wanted[i]] == i + 1
    requires forall x <- listed :: x in num
    requires i < |listed|
    ensures 0 <= Positions(listed, num)[i] < |listed| == |wanted| && wanted[Positions(listed, num)[i]] == listed[i]
  {
    ListsEach(listed, keys);
    ListsEach(wanted, keys);
    assert listed[i] in wanted;
    var w :| 0 <= w < |wanted| && wanted[w] == listed[i];
  }

  /** Whatever order a listing came in, sorting it by numbers 1..n gives back the numbered order. */
  lemma SortingRestores(listed: seq<string>, wanted: seq<string>, keys: set<string>, num: map<string, int>)
    requires Lists(listed, keys) && Lists(wanted, keys)
    requires forall i :: 0 <= i < |wanted| ==> wanted[i] in num && num[wanted[i]] == i + 1
    requires forall x <- listed :: x in num
    requires forall i, j :: 0 <= i < j < |listed| ==> num[listed[i]] <= num[listed[j]]
    ensures listed == wanted
  {
    var f := Positions(listed, num);
    assert |listed| == |wanted| by {
      ListsEach(listed, keys);
      ListsEach(wanted, keys);
    }
    forall i | 0 <= i < |listed|
      ensures 0 <= f[i] < |f| && wanted[f[i]] == listed[i]
    {
      PositionsHit(listed, wanted, keys, num, i);
    }
    forall i, j | 0 <= i < j < |f|
      ensures f[i] < f[j]
    {
      ListsDistinct(listed, keys, i, j);
    }
    forall i | 0 <= i < |listed|
      ensures listed[i] == wanted[i]
    {
      IncreasingIsIdentity(f, i);
    }
  }
}
