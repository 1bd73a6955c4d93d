/** The sidebar filter of `internal/session/tree.go`: a depth-first walk that marks matches, their
    ancestors and their subtrees, and stops climbing at the first node already marked. */
module Search {
  import opened Text
  import opened Model
  import opened Tree

  /** A collection (no segments), folder or request. The widget's virtual root is not a node here. */
  datatype NodeRef = NodeRef(col: int, segs: seq<Seg>)

  ghost predicate InTree(cols: seq<Collection>, n: NodeRef) {
    0 <= n.col < |cols| && (n.segs == [] || Has(cols[n.col].items, n.segs))
  }

  function ParentOf(n: NodeRef): NodeRef {
    if n.segs == [] then n else NodeRef(n.col, Parent(n.segs))
  }

  function Kid(n: NodeRef, s: Seg): NodeRef {
    NodeRef(n.col, n.segs + [s])
  }

  /** n is m or one of its ancestors. */
  predicate AtOrAbove(n: NodeRef, m: NodeRef) {
    n.col == m.col && n.segs <= m.segs
  }

  /** `ChildIDs`: folders, then requests. */
  function Kids(c: Container): (r: seq<Seg>)
    ensures forall s :: s in r <==> InRange(c, s)
  {
    var fs := seq(|c.folders|, i => F(i));
    var rs := seq(|c.requests|, i => R(i));
    assert forall i :: 0 <= i < |c.folders| ==> fs[i] == F(i);
    assert forall i :: 0 <= i < |c.requests| ==> rs[i] == R(i);
    assert forall s :: InRange(c, s) ==> if s.F? then fs[s.i] == s else rs[s.i] == s;
    fs + rs
  }

  function Label(cols: seq<Collection>, n: NodeRef): string
    requires InTree(cols, n)
  {
    if n.segs == [] then cols[n.col].name
    else match Pick(cols[n.col].items, n.segs)
      case FolderNode(f) => f.name
      case RequestNode(r) => if r.httpMethod != "" then r.httpMethod + "  " + r.name else r.name
  }

  predicate Contains(s: string, t: string) {
    t <= s || (s != "" && Contains(s[1..], t))
  }

  predicate Matches(cols: seq<Collection>, q: string, n: NodeRef)
    requires InTree(cols, n)
  {
    Contains(ToLower(Label(cols, n)), q)
  }

  lemma {:induction false} ContainsIs(s: string, t: string)
    ensures Contains(s, t) <==> exists k :: 0 <= k <= |s| && t <= s[k..]
  {
    assert s[0..] == s;
    if s != "" {
      ContainsIs(s[1..], t);
      if k :| 0 <= k <= |s[1..]| && t <= s[1..][k..] {
        assert s[k + 1..] == s[1..][k..];
      }
      if k :| 0 <= k <= |s| && t <= s[k..] {
        assert k > 0 ==> s[1..][k - 1..] == s[k..];
      }
    }
  }

  /** What a node is found by, in any case: a collection or folder by its name, a request by its method,
      two spaces and its name. */
  lemma {:induction false} MatchesIs(cols: seq<Collection>, query: string, n: NodeRef)
    requires InTree(cols, n)
    ensures var shown :=
              if n.segs == [] then cols[n.col].name
              else match Pick(cols[n.col].items, n.segs)
                case FolderNode(f) => f.name
                case RequestNode(r) => (if r.httpMethod == "" then "" else r.httpMethod + "  ") + r.name;
            Matches(cols, ToLower(query), n) <==> Mentions(shown, query)
  {
    hide StandsAt;
    var shown := Label(cols, n);
    assert "" + shown == shown;
    ContainsIs(ToLower(shown), ToLower(query));
    forall k | 0 <= k <= |shown| ensures ToLower(query) <= ToLower(shown)[k..] <==> StandsAt(shown, k, query) {
      LowerStandsAt(shown, k, query);
    }
  }

  /** n stays visible because of the match m: it is m, above m, or inside m. */
  ghost predicate ShownBy(cols: seq<Collection>, q: string, n: NodeRef, m: NodeRef) {
    InTree(cols, n) && InTree(cols, m) && Matches(cols, q, m) && (AtOrAbove(n, m) || AtOrAbove(m, n))
  }

  ghost predicate ClosedUpward(s: set<NodeRef>) {
    forall n <- s :: ParentOf(n) in s
  }

  // ----- how nodes sit below one another -----

  lemma KidInTree(cols: seq<Collection>, p: NodeRef, s: Seg)
    requires 0 <= p.col < |cols| && IsContainer(cols[p.col].items, p.segs)
    ensures InTree(cols, Kid(p, s)) <==> InRange(At(cols[p.col].items, p.segs), s)
    ensures ParentOf(Kid(p, s)) == p
    ensures InRange(At(cols[p.col].items, p.segs), s) && s.F? ==>
              IsContainer(cols[p.col].items, Kid(p, s).segs)
              && At(cols[p.col].items, Kid(p, s).segs) == At(cols[p.col].items, p.segs).folders[s.i].items
  {
    assert Parent(p.segs + [s]) == p.segs;
    ContainerIsFolder(cols[p.col].items, p.segs + [s]);
  }

  /** Whatever is strictly below a container is at or below one of its children; nothing is below a request. */
  lemma BelowGoesThroughKid(cols: seq<Collection>, p: NodeRef, n: NodeRef)
    requires InTree(cols, p) && InTree(cols, n) && AtOrAbove(p, n) && p != n
    ensures IsContainer(cols[p.col].items, p.segs)
    ensures InRange(At(cols[p.col].items, p.segs), n.segs[|p.segs|]) && AtOrAbove(Kid(p, n.segs[|p.segs|]), n)
  {
    var c := cols[p.col].items;
    var k := |p.segs|;
    PrefixIsContainer(c, n.segs, k);
    assert n.segs[..k] == p.segs && n.segs[..k + 1] == p.segs + [n.segs[k]];
    if k + 1 < |n.segs| {
      PrefixIsContainer(c, n.segs, k + 1);
      ContainerIsFolder(c, n.segs[..k + 1]);
      assert Parent(n.segs[..k + 1]) == p.segs;
    } else {
      assert Parent(n.segs) == p.segs;
    }
  }

  lemma PrefixIsContainer(c: Container, a: seq<Seg>, k: nat)
    requires Has(c, a) && k < |a|
    ensures IsContainer(c, a[..k])
    decreases |a|
  {
    if k > 0 {
      Descend(c, a);
      PrefixIsContainer(Sub(c, a[0]), a[1..], k - 1);
      assert a[..k][1..] == a[1..][..k - 1];
    }
  }

  lemma AncestorsInTree(cols: seq<Collection>, n: NodeRef)
    requires InTree(cols, n)
    ensures InTree(cols, ParentOf(n))
  {
    if |n.segs| > 1 {
      ContainerIsFolder(cols[n.col].items, Parent(n.segs));
    }
  }

  lemma AboveParent(p: NodeRef, n: NodeRef)
    ensures AtOrAbove(n, p) <==> n == p || (p.segs != [] && AtOrAbove(n, ParentOf(p)))
  {
    if p.segs != [] {
      assert p.segs == Parent(p.segs) + [Last(p.segs)];
      if AtOrAbove(n, p) && n != p {
        assert n.segs <= Parent(p.segs);
      }
    }
  }

  // ----- what a loop over the first i children has reached -----

  ghost predicate Via(id: NodeRef, kids: seq<Seg>, i: nat, n: NodeRef)
    requires i <= |kids|
  {
    exists j :: 0 <= j < i && AtOrAbove(Kid(id, kids[j]), n)
  }

  lemma ViaStep(id: NodeRef, kids: seq<Seg>, i: nat, n: NodeRef)
    requires i < |kids|
    ensures Via(id, kids, i + 1, n) <==> Via(id, kids, i, n) || AtOrAbove(Kid(id, kids[i]), n)
  {
  }

  lemma ViaAll(cols: seq<Collection>, id: NodeRef, kids: seq<Seg>, n: NodeRef)
    requires InTree(cols, id) && IsContainer(cols[id.col].items, id.segs)
    requires kids == Kids(At(cols[id.col].items, id.segs))
    requires InTree(cols, n)
    ensures Via(id, kids, |kids|, n) <==> AtOrAbove(id, n) && n != id
  {
    if AtOrAbove(id, n) && n != id {
      BelowGoesThroughKid(cols, id, n);
      var j :| 0 <= j < |kids| && kids[j] == n.segs[|id.segs|];
    }
    if Via(id, kids, |kids|, n) {
      var j :| 0 <= j < |kids| && AtOrAbove(Kid(id, kids[j]), n);
      assert id.segs <= id.segs + [kids[j]] <= n.segs;
    }
  }

  ghost predicate ShownVia(cols: seq<Collection>, q: string, id: NodeRef, kids: seq<Seg>, i: nat, n: NodeRef)
    requires i <= |kids|
  {
    exists m :: Via(id, kids, i, m) && ShownBy(cols, q, n, m)
  }

  ghost predicate ShownUnder(cols: seq<Collection>, q: string, id: NodeRef, n: NodeRef) {
    exists m :: AtOrAbove(id, m) && m != id && ShownBy(cols, q, n, m)
  }

  lemma ShownViaStep(cols: seq<Collection>, q: string, id: NodeRef, kids: seq<Seg>, i: nat, n: NodeRef)
    requires i < |kids|
    ensures var child := Kid(id, kids[i]);
            ShownVia(cols, q, id, kids, i + 1, n) <==>
            ShownVia(cols, q, id, kids, i, n) || ShownBy(cols, q, n, child) || ShownUnder(cols, q, child, n)
  {
    var child := Kid(id, kids[i]);
    if ShownVia(cols, q, id, kids, i + 1, n) {
      var m :| Via(id, kids, i + 1, m) && ShownBy(cols, q, n, m);
      ViaStep(id, kids, i, m);
    }
    if ShownVia(cols, q, id, kids, i, n) {
      var m :| Via(id, kids, i, m) && ShownBy(cols, q, n, m);
      ViaStep(id, kids, i, m);
    }
    if ShownUnder(cols, q, child, n) {
      var m :| AtOrAbove(child, m) && m != child && ShownBy(cols, q, n, m);
      ViaStep(id, kids, i, m);
    }
    ViaStep(id, kids, i, child);
  }

  lemma ShownViaAll(cols: seq<Collection>, q: string, id: NodeRef, kids: seq<Seg>, n: NodeRef)
    requires InTree(cols, id) && IsContainer(cols[id.col].items, id.segs)
    requires kids == Kids(At(cols[id.col].items, id.segs))
    ensures ShownVia(cols, q, id, kids, |kids|, n) <==> ShownUnder(cols, q, id, n)
  {
    if m :| Via(id, kids, |kids|, m) && ShownBy(cols, q, n, m) {
      ViaAll(cols, id, kids, m);
    }
    if m :| AtOrAbove(id, m) && m != id && ShownBy(cols, q, n, m) {
      ViaAll(cols, id, kids, m);
    }
  }

  // ----- the walk -----

  class Filter {
    const cols: seq<Collection>
    const q: string
    var visible: set<NodeRef>

    constructor (cols: seq<Collection>, q: string)
      ensures this.cols == cols && this.q == q && visible == {}
    {
      this.cols := cols;
      this.q := q;
      visible := {};
    }

    /** `markSubtree`: everything strictly below id. */
    method MarkSubtree(id: NodeRef, ghost c: Container)
      requires InTree(cols, id)
      requires IsContainer(cols[id.col].items, id.segs) ==> c == At(cols[id.col].items, id.segs)
      modifies this`visible
      ensures forall n :: n in visible <==> n in old(visible) || (InTree(cols, n) && AtOrAbove(id, n) && n != id)
      decreases IsContainer(cols[id.col].items, id.segs), c
    {
      ContainerIsFolderOrRoot(cols, id);
      if id.segs != [] && Last(id.segs).R? {
        RequestsAreLeaves(cols, id);
        return;
      }
      var kids := Kids(At(cols[id.col].items, id.segs));
      for i := 0 to |kids|
        invariant forall n :: n in visible <==> n in old(visible) || (InTree(cols, n) && Via(id, kids, i, n))
      {
        var child := Kid(id, kids[i]);
        assert kids[i] in kids;
        KidInTree(cols, id, kids[i]);
        ContainerIsFolderOrRoot(cols, child);
        ghost var before := visible;
        visible := visible + {child};
        MarkSubtree(child, if kids[i].F? then c.folders[kids[i].i].items else c);
        forall n ensures n in visible <==> n in old(visible) || (InTree(cols, n) && Via(id, kids, i + 1, n)) {
          ViaStep(id, kids, i, n);
        }
      }
      forall n | InTree(cols, n) ensures Via(id, kids, |kids|, n) <==> AtOrAbove(id, n) && n != id {
        ViaAll(cols, id, kids, n);
      }
    }

    /** `markMatch`. The climb may stop early because what is visible is closed upward. */
    method MarkMatch(id: NodeRef)
      requires InTree(cols, id) && ClosedUpward(visible)
      modifies this`visible
      ensures ClosedUpward(visible)
      ensures forall n :: n in visible <==> n in old(visible) || (InTree(cols, n) && (AtOrAbove(n, id) || AtOrAbove(id, n)))
    {
      var p := id;
      var climbing := true;
      while climbing && p !in visible
        invariant InTree(cols, p) && AtOrAbove(p, id)
        invariant climbing ==> forall n :: n in visible <==>
                    n in old(visible) || (InTree(cols, n) && AtOrAbove(n, id) && !AtOrAbove(n, p))
        invariant !climbing ==> forall n :: n in visible <==> n in old(visible) || (InTree(cols, n) && AtOrAbove(n, id))
        decreases climbing, |p.segs|
      {
        visible := visible + {p};
        AncestorsInTree(cols, p);
        forall n ensures AtOrAbove(n, p) <==> n == p || (p.segs != [] && AtOrAbove(n, ParentOf(p))) {
          AboveParent(p, n);
        }
        if ParentOf(p) != p {
          AboveParent(id, p);
          assert AtOrAbove(ParentOf(p), p);
          p := ParentOf(p);
        } else {
          climbing := false;
        }
      }
      if climbing {
        ClimbedFar(old(visible), p);
      }
      ClimbCloses(cols, old(visible), visible, id);
      MarkSubtree(id, if IsContainer(cols[id.col].items, id.segs) then At(cols[id.col].items, id.segs) else EMPTY);
      forall n | n in visible ensures ParentOf(n) in visible {
        if InTree(cols, n) { AncestorsInTree(cols, n); AboveParent(n, id); }
      }
    }

    /** The recursive `dfs`, below id. */
    method Dfs(id: NodeRef, ghost c: Container)
      requires InTree(cols, id) && ClosedUpward(visible)
      requires IsContainer(cols[id.col].items, id.segs) ==> c == At(cols[id.col].items, id.segs)
      modifies this`visible
      ensures ClosedUpward(visible)
      ensures forall n :: n in visible <==> n in old(visible) || ShownUnder(cols, q, id, n)
      decreases IsContainer(cols[id.col].items, id.segs), c
    {
      ContainerIsFolderOrRoot(cols, id);
      if id.segs != [] && Last(id.segs).R? { // ChildIDs of a request is empty
        RequestsAreLeaves(cols, id);
        return;
      }
      var kids := Kids(At(cols[id.col].items, id.segs));
      for i := 0 to |kids|
        invariant ClosedUpward(visible)
        invariant forall n :: n in visible <==> n in old(visible) || ShownVia(cols, q, id, kids, i, n)
      {
        var child := Kid(id, kids[i]);
        assert kids[i] in kids;
        KidInTree(cols, id, kids[i]);
        ContainerIsFolderOrRoot(cols, child);
        if Matches(cols, q, child) {
          MarkMatch(child);
        }
        Dfs(child, if kids[i].F? then c.folders[kids[i].i].items else c);
        forall n ensures n in visible <==> n in old(visible) || ShownVia(cols, q, id, kids, i + 1, n) {
          ShownViaStep(cols, q, id, kids, i, n);
        }
      }
      forall n ensures ShownVia(cols, q, id, kids, |kids|, n) <==> ShownUnder(cols, q, id, n) {
        ShownViaAll(cols, q, id, kids, n);
      }
    }
  }

  lemma RequestsAreLeaves(cols: seq<Collection>, id: NodeRef)
    requires InTree(cols, id) && id.segs != [] && Last(id.segs).R?
    ensures forall n :: InTree(cols, n) && AtOrAbove(id, n) ==> n == id
  {
    ContainerIsFolderOrRoot(cols, id);
    forall n | InTree(cols, n) && AtOrAbove(id, n) ensures n == id {
      if n != id {
        BelowGoesThroughKid(cols, id, n);
      }
    }
  }

  lemma ContainerIsFolderOrRoot(cols: seq<Collection>, id: NodeRef)
    requires InTree(cols, id)
    ensures IsContainer(cols[id.col].items, id.segs) <==> id.segs == [] || Last(id.segs).F?
  {
    if id.segs != [] { ContainerIsFolder(cols[id.col].items, id.segs); }
  }

  lemma ClimbedFar(s: set<NodeRef>, p: NodeRef)
    requires ClosedUpward(s) && p in s
    ensures forall n :: AtOrAbove(n, p) ==> n in s
    decreases |p.segs|
  {
    if p.segs != [] {
      ClimbedFar(s, ParentOf(p));
    }
    forall n | AtOrAbove(n, p) ensures n in s {
      AboveParent(p, n);
    }
  }

  lemma ClimbCloses(cols: seq<Collection>, s: set<NodeRef>, t: set<NodeRef>, id: NodeRef)
    requires ClosedUpward(s) && InTree(cols, id)
    requires forall n :: n in t <==> n in s || (InTree(cols, n) && AtOrAbove(n, id))
    ensures ClosedUpward(t)
  {
    forall n | n in t ensures ParentOf(n) in t {
      if n !in s {
        AncestorsInTree(cols, n);
      }
    }
  }

  /** `Tree.Search`: None is "no filter". The visible set is exactly the nodes that match, or have a
      matching ancestor, or have a matching descendant. */
  method SearchTree(cols: seq<Collection>, query: string) returns (r: Option<set<NodeRef>>)
    ensures r.None? <==> TrimSpace(query) == ""
    ensures r.Some? ==> forall n :: n in r.value <==> exists m :: ShownBy(cols, ToLower(TrimSpace(query)), n, m)
  {
    var q := ToLower(TrimSpace(query));
    if q == "" {
      return None;
    }
    var f := new Filter(cols, q);
    for ci := 0 to |cols|
      invariant fresh(f) && f.cols == cols && f.q == q
      invariant ClosedUpward(f.visible)
      invariant forall n :: n in f.visible <==> exists m: NodeRef :: m.col < ci && ShownBy(cols, q, n, m)
    {
      var child := NodeRef(ci, []);
      if Matches(cols, q, child) {
        f.MarkMatch(child);
      }
      f.Dfs(child, cols[ci].items);
      forall m: NodeRef | m.col == ci ensures AtOrAbove(child, m) {
      }
    }
    return Some(f.visible);
  }
}
