/** What a chain run executes, between the session and the runner: a step runs the request it pins, or
    else the one its path names, and after a rename or a move every chain runs the same requests. */
module ChainTargets {
  import opened Text
  import opened Model
  import opened Tree
  import opened Census
  import opened ChainRefs
  import opened Cascade
  import opened MoveNode
  import opened Edits
  import opened AuthSnapshot
  import E = Expansion

  // ----- the finder of a run -----

  /** `SnapshotChainFinder`. */
  function SnapshotFinder(col: Collection): E.Finder {
    var snap := Snapshot(col.items, [col.auth]);
    var byID := Index(snap, map[]);
    E.Finder((ref: string) => ChainRefs.Resolve(snap, ref),
             (id: string) => if id != "" && id in byID then Some(byID[id]) else None)
  }

  function ItemOf(n: Node): Item {
    match n
    case FolderNode(f) => Header(f)
    case RequestNode(r) => RequestItem(r)
  }

  /** What is counted about a tree is counted at some address. */
  lemma {:induction false} CountedSomewhere<T>(c: Container, key: Item -> T, k: T)
    requires k in Tally(c, key)
    ensures exists a :: Has(c, a) && key(ItemOf(Pick(c, a))) == k
    decreases c, 1
  {
    if k in TallyRequests(c.requests, key) {
      var i := CountedRequest(c.requests, key, k);
      assert Parent([R(i)]) == [];
      assert Has(c, [R(i)]) && key(ItemOf(Pick(c, [R(i)]))) == k;
    } else {
      assert c.folders[0..] == c.folders;
      CountedFolder(c, 0, key, k);
    }
  }

  lemma {:induction false} CountedRequest<T>(rs: seq<Request>, key: Item -> T, k: T) returns (i: nat)
    requires k in TallyRequests(rs, key)
    ensures i < |rs| && key(RequestItem(rs[i])) == k
  {
    if key(RequestItem(rs[0])) == k {
      i := 0;
    } else {
      i := CountedRequest(rs[1..], key, k);
      i := i + 1;
    }
  }

  lemma {:induction false} CountedFolder<T>(c: Container, j: nat, key: Item -> T, k: T)
    requires j <= |c.folders| && k in TallyFolders(c.folders[j..], key)
    ensures exists a :: Has(c, a) && key(ItemOf(Pick(c, a))) == k
    decreases c, 0, |c.folders| - j
  {
    var f := c.folders[j];
    assert c.folders[j..][1..] == c.folders[j + 1..];
    if key(Header(f)) == k {
      assert Parent([F(j)]) == [];
      assert Has(c, [F(j)]) && key(ItemOf(Pick(c, [F(j)]))) == k;
    } else if k in Tally(f.items, key) {
      CountedSomewhere(f.items, key, k);
      var a :| Has(f.items, a) && key(ItemOf(Pick(f.items, a))) == k;
      var b := [F(j)] + a;
      assert b[1..] == a;
      Descend(c, b);
      assert Has(c, b) && key(ItemOf(Pick(c, b))) == k;
    } else {
      CountedFolder(c, j + 1, key, k);
    }
  }

  /** A request is answered by its ID exactly when the tree holds it. */
  lemma {:induction false} FindIffCounted(c: Container, k: Ident)
    ensures Find(c, k).Some? <==> k in IDs(c)
  {
    FindSound(c, k);
    if Find(c, k).Some? {
      CountsOwn(c, Find(c, k).value);
    }
    if k in IDs(c) {
      CountedSomewhere(c, IdentOf, k);
      var a :| Has(c, a) && IdentOf(ItemOf(Pick(c, a))) == k;
      FindComplete(c, a);
    }
  }

  /** A request without what a rename, a move or the snapshot may change of it. */
  function Core(r: Request): Request {
    r.(name := "", auth := BareAuth(""))
  }

  /** `resolveTarget` over the snapshot: the step runs the request of the live tree that `StepTarget`
      says, the pinned one first, with its effective auth. */
  lemma {:induction false} StepRuns(col: Collection, s: ChainStep)
    requires UniqueIDs(col.items)
    ensures match StepTarget(col.items, s)
            case NoTarget => E.Target(SnapshotFinder(col), s) == None
            case Pinned(id) =>
              && id == s.requestID
              && Find(col.items, RequestID(id)).Some?
              && var a := Find(col.items, RequestID(id)).value;
              && Has(col.items, a) && Last(a).R? && Pick(col.items, a).request.id == id
              && E.Target(SnapshotFinder(col), s) == Some(Pick(col.items, a).request.(auth := Effective(col, a)))
            case ByPath(r) =>
              E.Target(SnapshotFinder(col), s).Some? && Core(E.Target(SnapshotFinder(col), s).value) == Core(r)
  {
    hide Effective, Lookup, SplitChainPath, IDs, Index, Snapshot;
    FindIffCounted(col.items, RequestID(s.requestID));
    FindSound(col.items, RequestID(s.requestID));
    if s.requestID != "" {
      SnapshotFindsByID(col, s.requestID);
    }
    SnapshotFindsByPath(col, s.request);
    if s.request == "" {
      EmptyRef();
      NoPath(col.items);
    }
  }

  lemma NoPath(c: Container)
    ensures Lookup(c, []) == None
  {
  }

  // ----- two finders that answer alike -----

  /** q is r with its chain steps changed by g; name and auth aside. */
  ghost predicate Alike(r: Request, q: Request, g: ChainStep -> ChainStep) {
    Core(q).(chain := []) == Core(r).(chain := []) && q.chain == Mapped(r.chain, g)
  }

  function Mapped(steps: seq<ChainStep>, g: ChainStep -> ChainStep): (r: seq<ChainStep>)
    ensures |r| == |steps|
  {
    seq(|steps|, i requires 0 <= i < |steps| => g(steps[i]))
  }

  /** Whatever a step finds with f, the changed step finds with f2. */
  ghost predicate Follows(f: E.Finder, f2: E.Finder, g: ChainStep -> ChainStep) {
    forall s :: E.Target(f, s).Some? ==>
                  E.Target(f2, g(s)).Some? && Alike(E.Target(f, s).value, E.Target(f2, g(s)).value, g)
  }

  ghost predicate AllAlike(es: seq<E.Exp>, fs: seq<E.Exp>, g: ChainStep -> ChainStep)
    decreases es
  {
    && |fs| == |es|
    && forall i :: 0 <= i < |es| ==>
                     && fs[i].step == g(es[i].step)
                     && Alike(es[i].target, fs[i].target, g)
                     && AllAlike(es[i].below, fs[i].below, g)
  }

  lemma {:induction false} ExpansionFollows(f: E.Finder, f2: E.Finder, g: ChainStep -> ChainStep, steps: seq<ChainStep>, es: seq<E.Exp>)
      returns (fs: seq<E.Exp>)
    requires Follows(f, f2, g) && E.IsExpansion(f, steps, es)
    ensures E.IsExpansion(f2, Mapped(steps, g), fs) && AllAlike(es, fs, g)
    decreases es
  {
    hide E.Target, Alike;
    fs := [];
    for i := 0 to |es|
      invariant |fs| == i
      invariant forall j :: 0 <= j < i ==>
                              && fs[j].step == g(es[j].step)
                              && E.Target(f2, g(steps[j])) == Some(fs[j].target)
                              && E.IsExpansion(f2, fs[j].target.chain, fs[j].below)
                              && Alike(es[j].target, fs[j].target, g)
                              && AllAlike(es[j].below, fs[j].below, g)
    {
      var e := es[i];
      var target := E.Target(f2, g(e.step)).value;
      AlikeChain(e.target, target, g);
      var below := ExpansionFollows(f, f2, g, e.target.chain, e.below);
      fs := fs + [E.Exp(g(e.step), target, below)];
    }
  }

  lemma AlikeChain(r: Request, q: Request, g: ChainStep -> ChainStep)
    requires Alike(r, q, g)
    ensures q.chain == Mapped(r.chain, g) && q.id == r.id
  {
  }

  /** The same requests in the same order: IDs, and everything that is sent but the auth. */
  ghost predicate SameRun(es: seq<E.Exp>, fs: seq<E.Exp>) {
    && |es| == |fs|
    && forall i :: 0 <= i < |es| ==>
                     && fs[i].target.id == es[i].target.id
                     && Core(fs[i].target).(chain := []) == Core(es[i].target).(chain := [])
                     && fs[i].step.alias == es[i].step.alias
  }

  lemma {:induction false} SameOrder(es: seq<E.Exp>, fs: seq<E.Exp>, g: ChainStep -> ChainStep)
    requires AllAlike(es, fs, g) && forall s :: g(s).alias == s.alias
    ensures SameRun(E.PostOrder(es), E.PostOrder(fs))
    decreases es
  {
    if es != [] {
      var e, f := es[0], fs[0];
      AlikeRuns(e, f, g);
      SameOrder(e.below, f.below, g);
      SameOrder(es[1..], fs[1..], g);
      hide AllAlike, SameRun;
      SameRunConcat(E.PostOrder(e.below), E.PostOrder(f.below), [e], [f]);
      SameRunConcat(E.PostOrder(e.below) + [e], E.PostOrder(f.below) + [f], E.PostOrder(es[1..]), E.PostOrder(fs[1..]));
    }
  }

  lemma AlikeRuns(e: E.Exp, f: E.Exp, g: ChainStep -> ChainStep)
    requires Alike(e.target, f.target, g) && f.step == g(e.step) && g(e.step).alias == e.step.alias
    ensures SameRun([e], [f])
  {
  }

  lemma SameRunConcat(xs: seq<E.Exp>, us: seq<E.Exp>, ys: seq<E.Exp>, vs: seq<E.Exp>)
    requires SameRun(xs, us) && SameRun(ys, vs)
    ensures SameRun(xs + ys, us + vs)
  {
    hide Core;
  }

  // ----- after a rename or a move -----

  /** A request's content as the cascade leaves it, for counting. */
  function ContentOf(x: Item, m: Option<Relabel>): Option<Request> {
    match x
    case FolderItem(_, _, _, _) => None
    case RequestItem(r) => Some(Core(if m.Some? then RewriteRequest(r, m.value) else r))
  }

  /** The tree after the node at a of c was put to b of d, and the references rewritten unless the path
      stayed as it was. */
  ghost predicate Edited(c: Container, a: seq<Seg>, d: Container, b: seq<Seg>, now: Container, m: Option<Relabel>) {
    && Relocated(c, a, d, b) && WellNamed(c) && WellNamed(d) && AllClean(Names(d, b))
    && match m
       case None => now == d && Names(c, a) == Names(d, b)
       case Some(r) => now == Rewrite(d, r) && r == RelabelOf(c, a, d, b)
  }

  lemma EditedIDs(c: Container, a: seq<Seg>, d: Container, b: seq<Seg>, now: Container, m: Option<Relabel>)
    requires Edited(c, a, d, b, now, m)
    ensures IDs(now) == IDs(c)
  {
    RelocatedIDs(c, a, d, b);
    if m.Some? {
      RewriteIDs(d, m.value);
    }
  }

  lemma {:induction false} SameContents(c: Container, a: seq<Seg>, d: Container, b: seq<Seg>, now: Container, m: Option<Relabel>,
                     before: Item -> Option<Request>, after: Item -> Option<Request>)
    requires Edited(c, a, d, b, now, m)
    requires forall x: Item :: before(x) == ContentOf(x, m) && after(x) == ContentOf(x, None)
    ensures Tally(now, after) == Tally(c, before)
  {
    hide WellNamed, Names, Cut, Rewrite, RewriteRequest;
    CutTally(c, a, before);
    CutTally(d, b, before);
    var x, y := Pick(c, a), Pick(d, b);
    assert TallyNode(x, before) == TallyNode(y, before) by {
      SameContent(x, y, m);
      if x.FolderNode? {
        assert x.folder.items == DropName(x).folder.items == y.folder.items;
      }
    }
    match m
    case None =>
      SameKey(d, before, after);
    case Some(r) =>
      forall z: Item ensures before(z) == after(RewriteItem(z, r)) {
      }
      RewriteTally(d, r, after, before);
  }

  lemma SameContent(x: Node, y: Node, m: Option<Relabel>)
    requires DropName(x) == DropName(y)
    ensures ContentOf(ItemOf(x), m) == ContentOf(ItemOf(y), m)
  {
    if x.RequestNode? {
      assert y.request == x.request.(name := y.request.name) by {
        assert x.request.(name := "") == DropName(x).request == y.request.(name := "");
      }
    }
  }

  /** Two equal ways to count count alike. */
  lemma {:induction false} SameKey<T>(c: Container, key: Item -> T, key2: Item -> T)
    requires forall x: Item :: key(x) == key2(x)
    ensures Tally(c, key) == Tally(c, key2)
    decreases c, 1
  {
    SameKeyRequests(c.requests, key, key2);
    SameKeyFolders(c, 0, key, key2);
    assert c.folders[0..] == c.folders;
  }

  lemma {:induction false} SameKeyRequests<T>(rs: seq<Request>, key: Item -> T, key2: Item -> T)
    requires forall x: Item :: key(x) == key2(x)
    ensures TallyRequests(rs, key) == TallyRequests(rs, key2)
  {
    if rs != [] {
      SameKeyRequests(rs[1..], key, key2);
    }
  }

  lemma {:induction false} SameKeyFolders<T>(c: Container, i: nat, key: Item -> T, key2: Item -> T)
    requires i <= |c.folders| && forall x: Item :: key(x) == key2(x)
    ensures TallyFolders(c.folders[i..], key) == TallyFolders(c.folders[i..], key2)
    decreases c, 0, |c.folders| - i
  {
    if i < |c.folders| {
      SameKey(c.folders[i].items, key, key2);
      SameKeyFolders(c, i + 1, key, key2);
      assert c.folders[i..][1..] == c.folders[i + 1..];
    }
  }

  /** The request with a given ID keeps its content through the edit, references rewritten. */
  lemma {:induction false} PinnedKeepsContent(c: Container, a: seq<Seg>, d: Container, b: seq<Seg>, now: Container, m: Option<Relabel>, p: seq<Seg>)
    requires Edited(c, a, d, b, now, m) && UniqueIDs(c)
    requires Has(c, p) && Last(p).R? && Pick(c, p).request.id != ""
    ensures var q := Find(now, RequestID(Pick(c, p).request.id));
            q.Some? && Has(now, q.value) && Last(q.value).R?
            && ContentOf(ItemOf(Pick(now, q.value)), None) == ContentOf(ItemOf(Pick(c, p)), m)
  {
    hide Edited, Tally, Names, Cut, Rewrite;
    var before := (x: Item) => ContentOf(x, m);
    var after := (x: Item) => ContentOf(x, None);
    SameContents(c, a, d, b, now, m, before, after);
    EditedIDs(c, a, d, b, now, m);
    CutTally(c, p, before);
    var k := before(ItemOf(Pick(c, p)));
    assert k in TallyNode(Pick(c, p), before);
    CountedSomewhere(now, after, k);
    var q :| Has(now, q) && after(ItemOf(Pick(now, q))) == k;
    FindUnique(now, q);
  }

  function Stepwise(s: ChainStep, m: Option<Relabel>): ChainStep {
    match m
    case None => s
    case Some(r) => RewriteStep(s, r)
  }

  lemma {:induction false} StepTargetKept(c: Container, a: seq<Seg>, d: Container, b: seq<Seg>, now: Container, m: Option<Relabel>, s: ChainStep)
    requires Edited(c, a, d, b, now, m) && !StepTarget(c, s).NoTarget?
    ensures StepTarget(now, Stepwise(s, m)) ==
            (if m.None? then StepTarget(c, s) else RewriteTarget(StepTarget(c, s), m.value))
  {
    if m.None? {
      SamePathKeepsTarget(c, a, d, b, s);
    } else {
      ChainStepsKeepTargets(c, a, d, b, s);
    }
  }

  /** Same content, references rewritten: what `Alike` asks for. */
  lemma ContentAlike(r: Request, q: Request, m: Option<Relabel>, g: ChainStep -> ChainStep)
    requires Core(q) == Core(if m.Some? then RewriteRequest(r, m.value) else r)
    requires forall s :: g(s) == Stepwise(s, m)
    ensures Alike(r, q, g)
  {
    assert q.chain == Core(q).chain;
    assert forall i :: 0 <= i < |r.chain| ==> q.chain[i] == g(r.chain[i]);
    assert q.chain == Mapped(r.chain, g);
  }

  /** After the edit every step runs the request it ran before it. */
  lemma {:induction false} EditFollows(col: Collection, a: seq<Seg>, d: Container, b: seq<Seg>, now: Container, m: Option<Relabel>,
                                       g: ChainStep -> ChainStep)
    requires Edited(col.items, a, d, b, now, m) && UniqueIDs(col.items)
    requires forall s :: g(s) == Stepwise(s, m)
    ensures Follows(SnapshotFinder(col), SnapshotFinder(col.(items := now)), g)
  {
    hide Edited, Effective, SnapshotFinder, StepTarget, Alike, E.Target;
    var f, f2 := SnapshotFinder(col), SnapshotFinder(col.(items := now));
    EditedIDs(col.items, a, d, b, now, m);
    forall s | E.Target(f, s).Some?
      ensures E.Target(f2, g(s)).Some? && Alike(E.Target(f, s).value, E.Target(f2, g(s)).value, g)
    {
      StepRuns(col, s);
      StepTargetKept(col.items, a, d, b, now, m, s);
      StepRuns(col.(items := now), Stepwise(s, m));
      var t := StepTarget(col.items, s);
      if t.Pinned? {
        var p := Find(col.items, RequestID(t.id)).value;
        PinnedNotEmpty(col.items, s);
        PinnedKeepsContent(col.items, a, d, b, now, m, p);
      }
      ContentAlike(E.Target(f, s).value, E.Target(f2, g(s)).value, m, g);
    }
  }

  lemma PinnedNotEmpty(c: Container, s: ChainStep)
    ensures StepTarget(c, s).Pinned? ==> StepTarget(c, s).id != ""
  {
  }

  // ----- whole runs -----

  /** After RenameItem, under the conditions of `RenameKeepsChains`, every chain has the expansion it had:
      its steps execute the same requests in the same order. */
  lemma {:induction false} RenameKeepsRuns(col: Collection, a: seq<Seg>, name: string, steps: seq<ChainStep>, es: seq<E.Exp>)
      returns (m: Relabel, fs: seq<E.Exp>)
    requires Has(col.items, a) && WellNamed(col.items) && WellNamed(RenameAt(col.items, a, name)) && UniqueIDs(col.items)
    requires AllClean(Names(col.items, a)) && IsClean(name)
    requires E.IsExpansion(SnapshotFinder(col), steps, es)
    ensures var after := col.(items := Renamed(col.items, a, name));
            && m == Relabel(Names(col.items, a), Parent'(Names(col.items, a)) + [name], Last(a).F?)
            && after.items == Rewrite(RenameAt(col.items, a, name), m)
            && E.IsExpansion(SnapshotFinder(after), Mapped(steps, s => RewriteStep(s, m)), fs)
            && SameRun(E.PostOrder(es), E.PostOrder(fs))
  {
    hide SnapshotFinder, WellNamed, E.IsExpansion, E.PostOrder, SameRun;
    var c := col.items;
    var d := RenameAt(c, a, name);
    m := Relabel(Names(c, a), Parent'(Names(c, a)) + [name], Last(a).F?);
    RenameRelocates(c, a, name);
    CleanPathRoundTrip(Names(c, a));
    assert Renamed(c, a, name) == Rewrite(d, m);
    var g := (s: ChainStep) => RewriteStep(s, m);
    EditFollows(col, a, d, a, Rewrite(d, m), Some(m), g);
    fs := ExpansionFollows(SnapshotFinder(col), SnapshotFinder(col.(items := Rewrite(d, m))), g, steps, es);
    SameOrder(es, fs, g);
    assert Mapped(steps, g) == Mapped(steps, s => RewriteStep(s, m));
  }

  /** And after MoveNode, under the conditions of `MoveKeepsChains`. */
  lemma {:induction false} MoveKeepsRuns(col: Collection, src: seq<Seg>, dst: seq<Seg>, index: int, steps: seq<ChainStep>, es: seq<E.Exp>)
      returns (m: Option<Relabel>, fs: seq<E.Exp>)
    requires Movable(col.items, src, dst) && UniqueIDs(col.items)
    requires Has(Moved(col.items, src, dst, index), Landing(col.items, src, dst, index))
    requires WellNamed(col.items) && WellNamed(Moved(col.items, src, dst, index))
    requires AllClean(Names(col.items, src))
    requires AllClean(Names(Moved(col.items, src, dst, index), Landing(col.items, src, dst, index)))
    requires E.IsExpansion(SnapshotFinder(col), steps, es)
    ensures var c := col.items;
            var r := RelabelOf(c, src, Moved(c, src, dst, index), Landing(c, src, dst, index));
            var after := col.(items := MovedAndCascaded(c, src, dst, index));
            && m == (if r.before == r.after then None else Some(r))
            && E.IsExpansion(SnapshotFinder(after), Mapped(steps, s => Stepwise(s, m)), fs)
            && SameRun(E.PostOrder(es), E.PostOrder(fs))
  {
    hide SnapshotFinder, WellNamed, E.IsExpansion, E.PostOrder, SameRun;
    var c := col.items;
    var d, b := Moved(c, src, dst, index), Landing(c, src, dst, index);
    MovedRelocates(c, src, dst, index);
    CleanPathRoundTrip(Names(c, src));
    CleanPathRoundTrip(Names(d, b));
    var r := RelabelOf(c, src, d, b);
    m := if r.before == r.after then None else Some(r);
    var now := if r.before == r.after then d else Rewrite(d, r);
    assert MovedAndCascaded(c, src, dst, index) == now;
    var g := (s: ChainStep) => Stepwise(s, m);
    assert Edited(c, src, d, b, now, m);
    EditFollows(col, src, d, b, now, m, g);
    fs := ExpansionFollows(SnapshotFinder(col), SnapshotFinder(col.(items := now)), g, steps, es);
    SameOrder(es, fs, g);
    assert Mapped(steps, g) == Mapped(steps, s => Stepwise(s, m));
  }
}
