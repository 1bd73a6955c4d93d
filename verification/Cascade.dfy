/** The reference cascade of a rename or a move, and why every reference keeps its target. */
module Cascade {
  import opened Text
  import opened Model
  import opened Tree
  import opened Census
  import opened ChainRefs

  /** The node called by the segments `before` is now called by `after`. */
  datatype Relabel = Relabel(before: seq<string>, after: seq<string>, folder: bool)

  /** The segments a reference should have after the relabelling. */
  function Rekey(parts: seq<string>, m: Relabel): seq<string> {
    if Targets(parts, m.before, m.folder) then m.after + parts[|m.before|..] else parts
  }

  function RewriteRef(ref: string, m: Relabel): string {
    var parts := SplitChainPath(ref);
    if ref != "" && Targets(parts, m.before, m.folder) then Join(m.after + parts[|m.before|..], "/") else ref
  }

  function RewriteStep(s: ChainStep, m: Relabel): ChainStep {
    s.(request := RewriteRef(s.request, m))
  }

  function RewriteRequest(r: Request, m: Relabel): Request {
    r.(chain := seq(|r.chain|, j requires 0 <= j < |r.chain| => RewriteStep(r.chain[j], m)))
  }

  function RewriteRequests(rs: seq<Request>, m: Relabel): seq<Request> {
    seq(|rs|, i requires 0 <= i < |rs| => RewriteRequest(rs[i], m))
  }

  function RewriteFolder(f: Folder, m: Relabel): Folder {
    f.(items := Rewrite(f.items, m))
  }

  /** Every chain step of every request below c, rewritten; nothing else changed. */
  function Rewrite(c: Container, m: Relabel): Container {
    Container(seq(|c.folders|, i requires 0 <= i < |c.folders| => RewriteFolder(c.folders[i], m)),
              RewriteRequests(c.requests, m))
  }

  // ----- `cascadeChainRefs` and `rewriteRequests` -----

  /** `rewriteRequests`, body of the inner loop: one chain step. */
  method RewriteOneStep(step: ChainStep, before: seq<string>, after: seq<string>, movedIsFolder: bool)
    returns (out: ChainStep)
    ensures out == RewriteStep(step, Relabel(before, after, movedIsFolder))
  {
    var ref := step.request;
    if ref == "" {
      return step;
    }
    var parts := ParseChainPath(ref);
    if !(before <= parts) {
      return step;
    }
    var exact := |parts| == |before|;
    if movedIsFolder && exact {
      return step; // a folder is not a chain target: this names a request beside it
    }
    if !movedIsFolder && !exact {
      return step; // a request has nothing below it
    }
    out := step.(request := Join(after + parts[|before|..], "/"));
  }

  /** `rewriteRequests`. */
  method RewriteRequestLoop(requests: seq<Request>, before: seq<string>, after: seq<string>, movedIsFolder: bool)
    returns (out: seq<Request>)
    ensures out == RewriteRequests(requests, Relabel(before, after, movedIsFolder))
  {
    ghost var m := Relabel(before, after, movedIsFolder);
    out := requests;
    for i := 0 to |requests|
      invariant |out| == |requests|
      invariant forall k :: 0 <= k < i ==> out[k] == RewriteRequest(requests[k], m)
      invariant forall k :: i <= k < |requests| ==> out[k] == requests[k]
    {
      var chain := requests[i].chain;
      for j := 0 to |chain|
        invariant |chain| == |requests[i].chain|
        invariant forall k :: 0 <= k < j ==> chain[k] == RewriteStep(requests[i].chain[k], m)
        invariant forall k :: j <= k < |chain| ==> chain[k] == requests[i].chain[k]
      {
        var step := RewriteOneStep(chain[j], before, after, movedIsFolder);
        chain := chain[j := step];
      }
      assert chain == RewriteRequest(requests[i], m).chain;
      out := out[i := requests[i].(chain := chain)];
    }
  }

  /** `rewriteFoldersChain`. */
  method RewriteFoldersLoop(folders: seq<Folder>, before: seq<string>, after: seq<string>, movedIsFolder: bool)
    returns (out: seq<Folder>)
    ensures |out| == |folders|
    ensures forall i :: 0 <= i < |folders| ==> out[i] == RewriteFolder(folders[i], Relabel(before, after, movedIsFolder))
    decreases folders
  {
    out := folders;
    for i := 0 to |folders|
      invariant |out| == |folders|
      invariant forall k :: 0 <= k < i ==> out[k] == RewriteFolder(folders[k], Relabel(before, after, movedIsFolder))
      invariant forall k :: i <= k < |folders| ==> out[k] == folders[k]
    {
      var rs := RewriteRequestLoop(folders[i].items.requests, before, after, movedIsFolder);
      var fs := RewriteFoldersLoop(folders[i].items.folders, before, after, movedIsFolder);
      assert Container(fs, rs) == Rewrite(folders[i].items, Relabel(before, after, movedIsFolder));
      out := out[i := folders[i].(items := Container(fs, rs))];
    }
  }

  /** `cascadeChainRefs`. */
  method CascadeChainRefs(c: Container, before: seq<string>, after: seq<string>, movedIsFolder: bool)
    returns (out: Container)
    ensures out == Rewrite(c, Relabel(before, after, movedIsFolder))
  {
    var rs := RewriteRequestLoop(c.requests, before, after, movedIsFolder);
    var fs := RewriteFoldersLoop(c.folders, before, after, movedIsFolder);
    out := Container(fs, rs);
    assert fs == Rewrite(c, Relabel(before, after, movedIsFolder)).folders;
  }

  // ----- the rewrite touches reference strings only -----

  function RewriteItem(x: Item, m: Relabel): Item {
    match x
    case FolderItem(_, _, _, _) => x
    case RequestItem(r) => RequestItem(RewriteRequest(r, m))
  }

  lemma RewriteAt(c: Container, p: seq<Seg>, m: Relabel)
    ensures IsContainer(Rewrite(c, m), p) <==> IsContainer(c, p)
    ensures IsContainer(c, p) ==> At(Rewrite(c, m), p) == Rewrite(At(c, p), m)
    ensures IsContainer(c, p) ==> ContainerID(Rewrite(c, m), p) == ContainerID(c, p)
    decreases |p|
  {
    if p != [] && Opens(c, p[0]) {
      RewriteAt(Sub(c, p[0]), p[1..], m);
      assert Sub(Rewrite(c, m), p[0]) == Rewrite(Sub(c, p[0]), m);
    }
  }

  lemma {:induction false} RewriteTally<T>(c: Container, m: Relabel, key: Item -> T, image: Item -> T)
    requires forall x: Item :: image(x) == key(RewriteItem(x, m))
    ensures Tally(Rewrite(c, m), key) == Tally(c, image)
    decreases c, 1
  {
    RewriteTallyRequests(c.requests, m, key, image);
    RewriteTallyFolders(c, 0, m, key, image);
    assert c.folders[0..] == c.folders && Rewrite(c, m).folders[0..] == Rewrite(c, m).folders;
  }

  lemma {:induction false} RewriteTallyRequests<T>(rs: seq<Request>, m: Relabel, key: Item -> T, image: Item -> T)
    requires forall x: Item :: image(x) == key(RewriteItem(x, m))
    ensures TallyRequests(RewriteRequests(rs, m), key) == TallyRequests(rs, image)
  {
    if rs != [] {
      assert RewriteRequests(rs, m)[1..] == RewriteRequests(rs[1..], m);
      RewriteTallyRequests(rs[1..], m, key, image);
      assert image(RequestItem(rs[0])) == key(RequestItem(RewriteRequest(rs[0], m)));
    }
  }

  lemma {:induction false} RewriteTallyFolders<T>(c: Container, i: nat, m: Relabel, key: Item -> T, image: Item -> T)
    requires forall x: Item :: image(x) == key(RewriteItem(x, m))
    requires i <= |c.folders|
    ensures TallyFolders(Rewrite(c, m).folders[i..], key) == TallyFolders(c.folders[i..], image)
    decreases c, 0, |c.folders| - i
  {
    if i < |c.folders| {
      var f, g := c.folders[i], Rewrite(c, m).folders[i];
      assert g == RewriteFolder(f, m) == f.(items := Rewrite(f.items, m));
      RewriteTally(f.items, m, key, image);
      assert Header(g) == Header(f) == RewriteItem(Header(f), m);
      RewriteTallyFolders(c, i + 1, m, key, image);
      assert Rewrite(c, m).folders[i..][1..] == Rewrite(c, m).folders[i + 1..];
      assert c.folders[i..][1..] == c.folders[i + 1..];
    }
  }

  lemma RewriteIDs(c: Container, m: Relabel)
    ensures IDs(Rewrite(c, m)) == IDs(c)
  {
    forall x: Item ensures IdentOf(x) == IdentOf(RewriteItem(x, m)) {
    }
    RewriteTally(c, m, IdentOf, IdentOf);
  }

  function RewriteFound(r: Option<Request>, m: Relabel): Option<Request> {
    match r
    case None => None
    case Some(q) => Some(RewriteRequest(q, m))
  }

  /** Lookup sees the rewritten tree as the old one. */
  lemma RewriteLookup(c: Container, parts: seq<string>, m: Relabel)
    ensures Lookup(Rewrite(c, m), parts) == RewriteFound(Lookup(c, parts), m)
    decreases c, 1, 0
  {
    if |parts| == 1 {
      RewriteFirstNamed(c.requests, parts[0], m);
    } else if |parts| > 1 {
      RewriteLookupFrom(c, 0, parts, m);
    }
  }

  lemma RewriteFirstNamed(rs: seq<Request>, name: string, m: Relabel)
    ensures FirstNamed(RewriteRequests(rs, m), name) == RewriteFound(FirstNamed(rs, name), m)
  {
    if rs != [] {
      assert RewriteRequests(rs, m)[1..] == RewriteRequests(rs[1..], m);
      RewriteFirstNamed(rs[1..], name, m);
    }
  }

  lemma RewriteLookupFrom(c: Container, i: nat, parts: seq<string>, m: Relabel)
    requires |parts| > 1
    ensures LookupFrom(Rewrite(c, m), i, parts) == RewriteFound(LookupFrom(c, i, parts), m)
    decreases c, 0, |c.folders| - i
  {
    if i < |c.folders| {
      RewriteLookup(c.folders[i].items, parts[1..], m);
      RewriteLookupFrom(c, i + 1, parts, m);
    }
  }

  // ----- references keep their targets -----

  function DropName(n: Node): Node {
    match n
    case FolderNode(f) => FolderNode(f.(name := ""))
    case RequestNode(r) => RequestNode(r.(name := ""))
  }

  /** d is c with the node at a taken out and put back at b, possibly under another name. A rename is
      the case a == b, a move the case of an unchanged name. */
  ghost predicate Relocated(c: Container, a: seq<Seg>, d: Container, b: seq<Seg>) {
    Has(c, a) && Has(d, b) && Cut(c, a) == Cut(d, b) && DropName(Pick(c, a)) == DropName(Pick(d, b))
  }

  function RelabelOf(c: Container, a: seq<Seg>, d: Container, b: seq<Seg>): Relabel
    requires Has(c, a) && Has(d, b)
  {
    Relabel(Names(c, a), Names(d, b), Last(a).F?)
  }

  function FoundID(r: Option<Request>): Option<string> {
    match r
    case None => None
    case Some(q) => Some(q.id)
  }

  /** A request but for its name, which is all a rename changes of it. */
  function Unnamed(r: Option<Request>): Option<Request> {
    match r
    case None => None
    case Some(q) => Some(q.(name := ""))
  }

  /** Re-keyed segments find the request that the old segments found. */
  lemma RekeyFollows(c: Container, a: seq<Seg>, d: Container, b: seq<Seg>, parts: seq<string>)
    requires Relocated(c, a, d, b) && WellNamed(c) && WellNamed(d)
    requires Lookup(c, parts).Some?
    ensures Unnamed(Lookup(d, Rekey(parts, RelabelOf(c, a, d, b)))) == Unnamed(Lookup(c, parts))
  {
    var m := RelabelOf(c, a, d, b);
    assert Last(b).F? == m.folder;
    CutLookup(c, a, parts);
    if Targets(parts, m.before, m.folder) {
      var tail := parts[|a|..];
      var q := m.after + tail;
      assert q[|b|..] == tail;
      assert Targets(q, m.after, m.folder);
      CutLookup(d, b, q);
    } else {
      CutLookup(d, b, parts);
    }
  }

  /** Nothing resolves afterwards that is not the re-keying of a path that resolved before. */
  lemma RekeyExact(c: Container, a: seq<Seg>, d: Container, b: seq<Seg>, q: seq<string>)
    requires Relocated(c, a, d, b) && WellNamed(c) && WellNamed(d)
    requires Lookup(d, q).Some?
    ensures exists parts :: Lookup(c, parts).Some? && Rekey(parts, RelabelOf(c, a, d, b)) == q
  {
    hide Lookup, WellNamed, Cut, Names, Targets, DropName;
    var back := RelabelOf(d, b, c, a);
    var parts := Rekey(q, back);
    RekeyFollows(d, b, c, a, q);
    assert Lookup(c, parts).Some?;
    RekeyBack(c, a, d, b, q);
  }

  /** Re-keying back and forth is the identity on the paths that resolve. */
  lemma RekeyBack(c: Container, a: seq<Seg>, d: Container, b: seq<Seg>, q: seq<string>)
    requires Relocated(c, a, d, b) && WellNamed(c) && WellNamed(d)
    requires Lookup(d, q).Some?
    ensures Rekey(Rekey(q, RelabelOf(d, b, c, a)), RelabelOf(c, a, d, b)) == q
  {
    hide WellNamed, Cut, DropName, Lookup;
    var m := RelabelOf(c, a, d, b);
    var parts := Rekey(q, RelabelOf(d, b, c, a));
    assert Last(b).F? == m.folder by {
      RelocatedKind(c, a, d, b);
    }
    if Targets(q, m.after, m.folder) {
      assert parts[|a|..] == q[|b|..];
      assert Targets(parts, m.before, m.folder);
      assert m.after + q[|b|..] == q;
    } else {
      CutLookup(d, b, q);
      CutLookup(c, a, q);
    }
  }

  lemma RelocatedKind(c: Container, a: seq<Seg>, d: Container, b: seq<Seg>)
    requires Relocated(c, a, d, b)
    ensures Last(b).F? == Last(a).F?
  {
  }

  lemma EmptyRef()
    ensures SplitChainPath("") == []
  {
    assert CleanPieces([""]) == Some([]);
  }

  /** Rewriting a reference string re-keys its segments. */
  lemma RewriteIsRekey(ref: string, m: Relabel)
    requires m.before != [] && m.after != [] && AllClean(m.after)
    ensures SplitChainPath(RewriteRef(ref, m)) == Rekey(SplitChainPath(ref), m)
  {
    var parts := SplitChainPath(ref);
    SplitIsClean(ref);
    EmptyRef();
    if Targets(parts, m.before, m.folder) {
      SplitOfJoin(m.after + parts[|m.before|..]);
    }
  }

  datatype Target = NoTarget | Pinned(id: string) | ByPath(request: Request)

  /** The request a chain step runs: its pinned ID when a request carries it, else what its path finds, but
      for the name (`resolveTarget`). */
  function StepTarget(c: Container, s: ChainStep): Target {
    if s.requestID != "" && RequestID(s.requestID) in IDs(c) then Pinned(s.requestID)
    else
      var r := Unnamed(Resolve(c, s.request));
      if r.None? then NoTarget else ByPath(r.value)
  }

  /** The target in the rewritten tree: the same request, its own references rewritten. */
  function RewriteTarget(t: Target, m: Relabel): Target {
    match t
    case ByPath(r) => ByPath(RewriteRequest(r, m))
    case _ => t
  }

  lemma RelocatedIDs(c: Container, a: seq<Seg>, d: Container, b: seq<Seg>)
    requires Relocated(c, a, d, b)
    ensures IDs(c) == IDs(d)
  {
    CutTally(c, a, IdentOf);
    CutTally(d, b, IdentOf);
    var x, y := Pick(c, a), Pick(d, b);
    assert TallyNode(x, IdentOf) == TallyNode(y, IdentOf) by {
      if x.FolderNode? {
        assert x.folder.items == DropName(x).folder.items == y.folder.items;
      }
    }
  }

  /** After the cascade every chain step that had a target still has it. Both trees must have distinct
      sibling names, and the new path must consist of clean names. */
  lemma ChainStepsKeepTargets(c: Container, a: seq<Seg>, d: Container, b: seq<Seg>, s: ChainStep)
    requires Relocated(c, a, d, b) && WellNamed(c) && WellNamed(d)
    requires AllClean(Names(d, b))
    requires !StepTarget(c, s).NoTarget?
    ensures var m := RelabelOf(c, a, d, b);
            StepTarget(Rewrite(d, m), RewriteStep(s, m)) == RewriteTarget(StepTarget(c, s), m)
  {
    var m := RelabelOf(c, a, d, b);
    RelocatedIDs(c, a, d, b);
    RewriteIDs(d, m);
    if !(s.requestID != "" && RequestID(s.requestID) in IDs(c)) {
      var parts := SplitChainPath(s.request);
      RekeyFollows(c, a, d, b, parts);
      RewriteIsRekey(s.request, m);
      RewriteLookup(d, Rekey(parts, m), m);
    }
  }

  // ----- when a new name is not clean -----

  /** Rename the node at a. */
  function RenameAt(c: Container, a: seq<Seg>, name: string): Container
    requires Has(c, a)
  {
    var d := At(c, Parent(a));
    var i := Last(a).i;
    Graft(c, Parent(a),
          if Last(a).F? then d.(folders := d.folders[i := d.folders[i].(name := name)])
          else d.(requests := d.requests[i := d.requests[i].(name := name)]))
  }

  lemma RenameStep(c: Container, a: seq<Seg>, name: string)
    requires |a| > 1 && Has(c, a)
    ensures Opens(c, a[0]) && Has(Sub(c, a[0]), a[1..])
    ensures RenameAt(c, a, name) == SetSub(c, a[0], RenameAt(Sub(c, a[0]), a[1..], name))
  {
    Descend(c, a);
  }

  lemma RenameRelocates(c: Container, a: seq<Seg>, name: string)
    requires Has(c, a)
    ensures Relocated(c, a, RenameAt(c, a, name), a)
    ensures Names(RenameAt(c, a, name), a) == Parent'(Names(c, a)) + [name]
  {
    RenameCut(c, a, name);
    RenameNames(c, a, name);
  }

  lemma RenameCut(c: Container, a: seq<Seg>, name: string)
    requires Has(c, a)
    ensures Relocated(c, a, RenameAt(c, a, name), a)
  {
    var d := At(c, Parent(a));
    var i := Last(a).i;
    var e := if Last(a).F? then d.(folders := d.folders[i := d.folders[i].(name := name)])
             else d.(requests := d.requests[i := d.requests[i].(name := name)]);
    GraftAt(c, Parent(a), e);
    assert CutChild(e, Last(a)) == CutChild(d, Last(a));
  }

  lemma RenameNames(c: Container, a: seq<Seg>, name: string)
    requires Has(c, a)
    ensures Has(RenameAt(c, a, name), a)
    ensures Names(RenameAt(c, a, name), a) == Parent'(Names(c, a)) + [name]
    decreases |a|
  {
    RenameCut(c, a, name);
    if |a| == 1 {
      assert Parent(a) == [];
    } else {
      RenameStep(c, a, name);
      RenameNames(Sub(c, a[0]), a[1..], name);
      Descend(RenameAt(c, a, name), a);
      var n := Names(Sub(c, a[0]), a[1..]);
      assert Parent'(Names(c, a)) == [c.folders[a[0].i].name] + Parent'(n);
    }
  }

  function Parent'<T>(s: seq<T>): seq<T>
    requires s != []
  {
    s[..|s| - 1]
  }

  // ----- exactly which references stay on target -----

  /** An earlier sibling answers for the name: a request that has it, or a folder that has it and in which
      the rest of the path resolves. */
  predicate SiblingTakes(p: Container, s: Seg, name: string, tail: seq<string>)
    requires InRange(p, s)
  {
    if s.F? then exists j :: 0 <= j < s.i && p.folders[j].name == name && Lookup(p.folders[j].items, tail).Some?
    else exists j :: 0 <= j < s.i && p.requests[j].name == name
  }

  predicate EarlierTakes(d: Container, b: seq<Seg>, tail: seq<string>)
    requires Has(d, b)
  {
    SiblingTakes(At(d, Parent(b)), Last(b), NodeName(Pick(d, b)), tail)
  }

  /** The node at b answers the path. */
  predicate Captures(d: Container, b: seq<Seg>, q: seq<string>)
    requires Has(d, b)
  {
    Targets(q, Names(d, b), Last(b).F?) && !EarlierTakes(d, b, q[|b|..]) && Inside(Pick(d, b), q[|b|..]).Some?
  }

  lemma FirstWith(rs: seq<Request>, i: nat, name: string)
    requires i < |rs|
    ensures FirstNamed(rs, name)
         == if rs[i].name == name && !(exists j :: 0 <= j < i && rs[j].name == name) then Some(rs[i]) else FirstNamed(Delete(rs, i), name)
  {
    if i > 0 {
      FirstWith(rs[1..], i - 1, name);
      assert Delete(rs, i)[1..] == Delete(rs[1..], i - 1);
      if rs[0].name != name && rs[i].name == name {
        assert (exists j :: 0 <= j < i && rs[j].name == name) <==> exists j :: 0 <= j < i - 1 && rs[1..][j].name == name by {
          if j :| 0 <= j < i && rs[j].name == name {
            assert rs[1..][j - 1].name == name;
          }
          if j :| 0 <= j < i - 1 && rs[1..][j].name == name {
            assert rs[j + 1].name == name;
          }
        }
      }
    } else {
      assert Delete(rs, 0) == rs[1..];
    }
  }

  lemma FromShifted(d: Container, i: nat, k: nat, q: seq<string>)
    requires i < |d.folders| && i <= k && |q| > 1
    ensures LookupFrom(d, k + 1, q) == LookupFrom(CutChild(d, F(i)), k, q)
    decreases |d.folders| - k
  {
    if k + 1 < |d.folders| {
      FromShifted(d, i, k + 1, q);
    }
  }

  lemma FromWith(d: Container, i: nat, k: nat, q: seq<string>)
    requires k <= i < |d.folders| && |q| > 1
    ensures var takes := exists j :: k <= j < i && d.folders[j].name == q[0] && Lookup(d.folders[j].items, q[1..]).Some?;
            var inside := Lookup(d.folders[i].items, q[1..]);
            var hit := d.folders[i].name == q[0] && !takes && inside.Some?;
            LookupFrom(d, k, q) == if hit then inside else LookupFrom(CutChild(d, F(i)), k, q)
    decreases i - k
  {
    if k == i {
      FromShifted(d, i, i, q);
    } else {
      FromWith(d, i, k + 1, q);
      assert CutChild(d, F(i)).folders[k] == d.folders[k];
    }
  }

  lemma OnlyNamed(c: Container, i: nat, k: nat, q: seq<string>)
    requires |q| > 1 && i <= k < |c.folders| && c.folders[k].name == q[0]
    requires forall j :: 0 <= j < |c.folders| && j != k ==> c.folders[j].name != q[0]
    ensures LookupFrom(c, i, q) == Lookup(c.folders[k].items, q[1..])
    decreases k - i
  {
    if i < k {
      OnlyNamed(c, i + 1, k, q);
    } else {
      LookupFromMiss(c, k + 1, q);
    }
  }

  /** A tree answers a path by the node at b where that captures it, and otherwise as it would without the
      node. Only the tree without the node must have distinct sibling names. */
  lemma LookupWith(d: Container, b: seq<Seg>, q: seq<string>)
    requires Has(d, b) && WellNamed(Cut(d, b))
    ensures Lookup(d, q) == if Captures(d, b, q) then Inside(Pick(d, b), q[|b|..]) else Lookup(Cut(d, b), q)
    decreases |b|
  {
    if |b| == 1 {
      assert Parent(b) == [] && Names(d, b) == [NodeName(Pick(d, b))];
      if |q| == 1 {
        if !b[0].F? {
          FirstWith(d.requests, b[0].i, q[0]);
          assert q[1..] == [];
        }
      } else if |q| > 1 {
        if b[0].F? {
          FromWith(d, b[0].i, 0, q);
        } else {
          SameFolders(d, Cut(d, b), 0, q);
        }
      }
    } else {
      Descend(d, b);
      var e := Cut(d, b);
      if |q| > 1 {
        NamesStep(d, b, q);
        assert e.folders[b[0].i].items == Cut(Sub(d, b[0]), b[1..]) && WellNamed(e.folders[b[0].i].items);
        if q[0] == d.folders[b[0].i].name {
          LookupWith(Sub(d, b[0]), b[1..], q[1..]);
          assert forall j :: 0 <= j < |d.folders| ==> d.folders[j].name == e.folders[j].name;
          OnlyNamed(d, 0, b[0].i, q);
          OnlyNamed(e, 0, b[0].i, q);
        } else {
          SameElsewhere(d, e, b[0].i, 0, q);
        }
      }
    }
  }

  /** What is found with the node cut out and what is found inside it differ in ID. */
  lemma OutsideIsNotInside(e: Container, n: Node, q: seq<string>, tail: seq<string>)
    requires Lookup(e, q).Some? && Inside(n, tail).Some?
    requires forall k | k in IDs(e) + TallyNode(n, IdentOf) && k.id != "" :: (IDs(e) + TallyNode(n, IdentOf))[k] == 1
    requires Lookup(e, q).value.id != "" || Inside(n, tail).value.id != ""
    ensures Lookup(e, q).value.id != Inside(n, tail).value.id
  {
    FoundIsCounted(e, q);
    InsideIsCounted(n, tail);
    var k := RequestID(Inside(n, tail).value.id);
    assert k in IDs(e) + TallyNode(n, IdentOf);
  }

  lemma IDsApart(c: Container, a: seq<Seg>, d: Container, b: seq<Seg>)
    requires Relocated(c, a, d, b) && UniqueIDs(c)
    ensures IDs(c) == IDs(Cut(c, a)) + TallyNode(Pick(c, a), IdentOf) == IDs(Cut(c, a)) + TallyNode(Pick(d, b), IdentOf)
  {
    RelocatedIDs(c, a, d, b);
    CutTally(c, a, IdentOf);
    CutTally(d, b, IdentOf);
  }

  lemma ApartIn(c: Container, a: seq<Seg>, d: Container, b: seq<Seg>, n: Node, q: seq<string>, tail: seq<string>)
    requires Relocated(c, a, d, b) && UniqueIDs(c) && (n == Pick(c, a) || n == Pick(d, b))
    requires Inside(n, tail).Some?
    requires Inside(n, tail).value.id != "" || FoundID(Lookup(Cut(c, a), q)).GetOr("") != ""
    ensures FoundID(Lookup(Cut(c, a), q)) != FoundID(Inside(n, tail))
  {
    hide Lookup, Cut, Pick, Inside;
    IDsApart(c, a, d, b);
    if Lookup(Cut(c, a), q).Some? {
      OutsideIsNotInside(Cut(c, a), n, q, tail);
    }
  }

  lemma RelocatedParts(c: Container, a: seq<Seg>, d: Container, b: seq<Seg>, tail: seq<string>)
    requires Relocated(c, a, d, b)
    ensures Has(c, a) && Has(d, b) && Cut(c, a) == Cut(d, b)
    ensures FoundID(Inside(Pick(d, b), tail)) == FoundID(Inside(Pick(c, a), tail))
  {
    hide Cut, Lookup;
  }

  /** The child a lookup ends in. */
  lemma HitChild(c: Container, q: seq<string>) returns (s: Seg)
    requires Lookup(c, q).Some?
    ensures InRange(c, s) && NodeName(ChildAt(c, s)) == q[0] && (s.F? <==> |q| > 1)
    ensures Lookup(c, q) == Inside(ChildAt(c, s), q[1..])
  {
    if |q| == 1 {
      var i := FirstAt(c.requests, q[0]);
      s := R(i);
    } else {
      var i := FromAt(c, 0, q);
      s := F(i);
    }
  }

  lemma {:induction false} FirstAt(rs: seq<Request>, name: string) returns (i: nat)
    requires FirstNamed(rs, name).Some?
    ensures i < |rs| && rs[i].name == name && FirstNamed(rs, name) == Some(rs[i])
  {
    if rs[0].name == name {
      i := 0;
    } else {
      i := FirstAt(rs[1..], name);
      i := i + 1;
    }
  }

  lemma {:induction false} FromAt(c: Container, k: nat, q: seq<string>) returns (i: nat)
    requires |q| > 1 && LookupFrom(c, k, q).Some?
    ensures i < |c.folders| && c.folders[i].name == q[0] && LookupFrom(c, k, q) == Lookup(c.folders[i].items, q[1..])
    decreases |c.folders| - k
  {
    if c.folders[k].name == q[0] && Lookup(c.folders[k].items, q[1..]).Some? {
      i := k;
    } else {
      i := FromAt(c, k + 1, q);
    }
  }

  lemma ChildCounted(c: Container, s: Seg, k: Ident)
    requires InRange(c, s) && k in TallyNode(ChildAt(c, s), IdentOf)
    ensures k in IDs(c)
  {
    CutChildTally(c, s, IdentOf);
  }

  /** Two children of one container hold no ID in common. */
  lemma ChildrenApart(c: Container, s: Seg, t: Seg, k: Ident)
    requires UniqueIDs(c) && InRange(c, s) && InRange(c, t) && k.id != ""
    requires k in TallyNode(ChildAt(c, s), IdentOf) && k in TallyNode(ChildAt(c, t), IdentOf)
    ensures s == t
  {
    if s != t {
      var rest := CutChild(c, s);
      var u := if s.F? == t.F? && t.i > s.i then (if t.F? then F(t.i - 1) else R(t.i - 1)) else t;
      assert ChildAt(rest, u) == ChildAt(c, t);
      CutChildTally(c, s, IdentOf);
      ChildCounted(rest, u, k);
    }
  }

  lemma SubUnique(c: Container, s: Seg)
    requires UniqueIDs(c) && Opens(c, s)
    ensures UniqueIDs(Sub(c, s))
  {
    CutChildTally(c, s, IdentOf);
    forall k <- IDs(Sub(c, s)) | k.id != ""
      ensures IDs(Sub(c, s))[k] == 1
    {
      assert k in TallyNode(ChildAt(c, s), IdentOf) && k in IDs(c);
      assert IDs(Sub(c, s))[k] <= TallyNode(ChildAt(c, s), IdentOf)[k] <= IDs(c)[k];
    }
  }

  /** With unique IDs, two paths find requests of one ID only if they are one path. */
  lemma {:induction false} LookupInjective(c: Container, q: seq<string>, p: seq<string>)
    requires UniqueIDs(c) && Lookup(c, q).Some? && FoundID(Lookup(c, q)) == FoundID(Lookup(c, p)) && Lookup(c, q).value.id != ""
    ensures q == p
    decreases |q|
  {
    hide UniqueIDs;
    var s := HitChild(c, q);
    var t := HitChild(c, p);
    InsideIsCounted(ChildAt(c, s), q[1..]);
    InsideIsCounted(ChildAt(c, t), p[1..]);
    ChildrenApart(c, s, t, RequestID(Lookup(c, q).value.id));
    assert q == [q[0]] + q[1..] && p == [p[0]] + p[1..];
    if |q| > 1 {
      SubUnique(c, s);
      LookupInjective(Sub(c, s), q[1..], p[1..]);
    }
  }

  /** The node at a is taken out and put at b, under its own or another name. Exactly when a path q finds
      afterwards the request that `parts` found before: if that is the node or inside it, q leads to its new
      place and no earlier sibling answers for its name there; otherwise q is the old path and the node does not
      capture it. */
  lemma {:induction false} SameTargetIff(c: Container, a: seq<Seg>, d: Container, b: seq<Seg>, parts: seq<string>, q: seq<string>)
    requires Relocated(c, a, d, b) && WellNamed(c) && UniqueIDs(c)
    requires Lookup(c, parts).Some? && Lookup(c, parts).value.id != ""
    ensures FoundID(Lookup(d, q)) == FoundID(Lookup(c, parts))
       <==> if Targets(parts, Names(c, a), Last(a).F?) then q == Names(d, b) + parts[|a|..] && !EarlierTakes(d, b, parts[|a|..])
            else q == parts && !Captures(d, b, parts)
  {
    hide Lookup, WellNamed, Cut, EarlierTakes, UniqueIDs, Relocated;
    RelocatedPlace(c, a, d, b);
    RelocatedKind(c, a, d, b);
    CutWellNamed(c, a);
    LookupWith(d, b, q);
    CutLookup(c, a, parts);
    if Targets(parts, Names(c, a), Last(a).F?) {
      var tail := parts[|a|..];
      RelocatedParts(c, a, d, b, tail);
      if Captures(d, b, q) {
        assert q == Names(d, b) + q[|b|..];
        InsideInjective(c, a, d, b, tail, q[|b|..]);
      } else {
        ApartIn(c, a, d, b, Pick(c, a), q, tail);
      }
      if q == Names(d, b) + tail {
        assert q[|b|..] == tail;
      }
    } else {
      if Captures(d, b, q) {
        ApartIn(c, a, d, b, Pick(d, b), parts, q[|b|..]);
      } else if FoundID(Lookup(Cut(c, a), q)) == FoundID(Lookup(c, parts)) {
        CutUnique(c, a);
        LookupInjective(Cut(c, a), parts, q);
      }
    }
  }

  lemma RelocatedPlace(c: Container, a: seq<Seg>, d: Container, b: seq<Seg>)
    requires Relocated(c, a, d, b)
    ensures Has(c, a) && Has(d, b) && Cut(c, a) == Cut(d, b)
  {
  }

  lemma CutUnique(c: Container, a: seq<Seg>)
    requires UniqueIDs(c) && Has(c, a)
    ensures UniqueIDs(Cut(c, a))
  {
    hide Cut, Pick;
    CutTally(c, a, IdentOf);
    forall k <- IDs(Cut(c, a)) | k.id != ""
      ensures IDs(Cut(c, a))[k] == 1
    {
      assert k in IDs(c);
    }
  }

  /** Inside the node, too, one ID is found by one path. */
  lemma {:induction false} InsideInjective(c: Container, a: seq<Seg>, d: Container, b: seq<Seg>, tail: seq<string>, other: seq<string>)
    requires Relocated(c, a, d, b) && UniqueIDs(c)
    requires Inside(Pick(c, a), tail).Some? && Inside(Pick(c, a), tail).value.id != ""
    requires if Last(a).F? then |tail| > 0 && |other| > 0 else tail == [] == other
    ensures FoundID(Inside(Pick(d, b), other)) == FoundID(Inside(Pick(c, a), tail)) <==> other == tail
  {
    hide Lookup, Cut;
    RelocatedParts(c, a, d, b, other);
    if Last(a).F? && FoundID(Inside(Pick(d, b), other)) == FoundID(Inside(Pick(c, a), tail)) {
      var f := Pick(c, a).folder;
      NodeUnique(c, a);
      LookupInjective(f.items, tail, other);
    } else {
      RelocatedParts(c, a, d, b, tail);
    }
  }

  lemma NodeUnique(c: Container, a: seq<Seg>)
    requires UniqueIDs(c) && Has(c, a) && Pick(c, a).FolderNode?
    ensures UniqueIDs(Pick(c, a).folder.items)
  {
    hide Cut;
    CutTally(c, a, IdentOf);
    var items := Pick(c, a).folder.items;
    forall k <- IDs(items) | k.id != ""
      ensures IDs(items)[k] == 1
    {
      assert k in TallyNode(Pick(c, a), IdentOf) && k in IDs(c);
      assert IDs(items)[k] <= TallyNode(Pick(c, a), IdentOf)[k] <= IDs(c)[k];
    }
  }

  /** A rewritten reference to the node leads to its new place exactly when every name on the way is clean. */
  lemma {:induction false} RewrittenLeads(ref: string, m: Relabel)
    requires Targets(SplitChainPath(ref), m.before, m.folder) && m.after != [] && m.before != []
    ensures SplitChainPath(RewriteRef(ref, m)) == m.after + SplitChainPath(ref)[|m.before|..] <==> AllClean(m.after)
  {
    hide SplitChainPath, IsClean, RewriteRef;
    var q := SplitChainPath(RewriteRef(ref, m));
    SplitIsClean(RewriteRef(ref, m));
    if q == m.after + SplitChainPath(ref)[|m.before|..] {
      FrontIsClean(m.after, q);
    }
    if AllClean(m.after) {
      RewriteIsRekey(ref, m);
    }
  }

  lemma FrontIsClean(names: seq<string>, q: seq<string>)
    requires names <= q && AllClean(q)
    ensures AllClean(names)
  {
    hide IsClean;
    assert forall i :: 0 <= i < |names| ==> names[i] == q[i];
  }

  /** For a rename: a reference to the node, or into it, stays on target exactly when the new name is clean and
      no earlier sibling answers for it. RenameItem itself only insists on a name that is not blank. */
  lemma {:induction false} RenameKeepsTargetsIff(c: Container, a: seq<Seg>, name: string, ref: string)
    requires Has(c, a) && WellNamed(c) && UniqueIDs(c)
    requires Resolve(c, ref).Some? && Resolve(c, ref).value.id != ""
    requires Targets(SplitChainPath(ref), Names(c, a), Last(a).F?)
    ensures var d := RenameAt(c, a, name);
            var m := Relabel(Names(c, a), Parent'(Names(c, a)) + [name], Last(a).F?);
            && (FoundID(Resolve(Rewrite(d, m), RewriteRef(ref, m))) == FoundID(Resolve(c, ref))
                <==> IsClean(name) && !SiblingTakes(At(c, Parent(a)), Last(a), name, SplitChainPath(ref)[|a|..]))
  {
    hide Lookup, SplitChainPath, WellNamed, Rewrite, RewriteRef, Relocated, UniqueIDs, SiblingTakes, RenameAt, IsClean, EarlierTakes;
    var d := RenameAt(c, a, name);
    var m := Relabel(Names(c, a), Parent'(Names(c, a)) + [name], Last(a).F?);
    RenameRelocates(c, a, name);
    var parts, q := SplitChainPath(ref), SplitChainPath(RewriteRef(ref, m));
    RewriteLookup(d, q, m);
    SameTargetIff(c, a, d, a, parts, q);
    RewrittenLeads(ref, m);
    RenameSiblings(c, a, name, parts[|a|..]);
    SplitIsClean(ref);
    LastCleans(Names(c, a), name, parts);
  }

  lemma LastCleans(names: seq<string>, name: string, parts: seq<string>)
    requires names != [] && names <= parts && AllClean(parts)
    ensures AllClean(Parent'(names) + [name]) <==> IsClean(name)
  {
    hide IsClean;
    var more := Parent'(names) + [name];
    assert more[|names| - 1] == name;
    forall i | 0 <= i < |names| - 1
      ensures more[i] == parts[i]
    {
      assert names[i] == parts[i];
    }
  }

  /** A rename leaves the earlier siblings as they are. */
  lemma RenameSiblings(c: Container, a: seq<Seg>, name: string, tail: seq<string>)
    requires Has(c, a)
    ensures Has(RenameAt(c, a, name), a)
    ensures EarlierTakes(RenameAt(c, a, name), a, tail) <==> SiblingTakes(At(c, Parent(a)), Last(a), name, tail)
  {
    hide Lookup;
    RenameCut(c, a, name);
    var p, i := At(c, Parent(a)), Last(a).i;
    var e := if Last(a).F? then p.(folders := p.folders[i := p.folders[i].(name := name)])
             else p.(requests := p.requests[i := p.requests[i].(name := name)]);
    GraftAt(c, Parent(a), e);
    assert forall j :: 0 <= j < i ==> if Last(a).F? then e.folders[j] == p.folders[j] else e.requests[j] == p.requests[j];
  }

  lemma FoundIsCounted(c: Container, parts: seq<string>)
    requires Lookup(c, parts).Some?
    ensures RequestID(Lookup(c, parts).value.id) in IDs(c)
    decreases c, 1, 0
  {
    if |parts| == 1 {
      FirstIsCounted(c.requests, parts[0]);
    } else {
      FoundFromIsCounted(c, 0, parts);
    }
  }

  lemma FirstIsCounted(rs: seq<Request>, name: string)
    requires FirstNamed(rs, name).Some?
    ensures RequestID(FirstNamed(rs, name).value.id) in TallyRequests(rs, IdentOf)
  {
  }

  lemma FoundFromIsCounted(c: Container, i: nat, parts: seq<string>)
    requires |parts| > 1 && LookupFrom(c, i, parts).Some?
    ensures RequestID(LookupFrom(c, i, parts).value.id) in IDs(c)
    decreases c, 0, |c.folders| - i
  {
    if c.folders[i].name == parts[0] && Lookup(c.folders[i].items, parts[1..]).Some? {
      FoundIsCounted(c.folders[i].items, parts[1..]);
      CutChildTally(c, F(i), IdentOf);
    } else {
      FoundFromIsCounted(c, i + 1, parts);
    }
  }

  lemma InsideIsCounted(n: Node, tail: seq<string>)
    requires Inside(n, tail).Some?
    ensures RequestID(Inside(n, tail).value.id) in TallyNode(n, IdentOf)
  {
    if n.FolderNode? {
      FoundIsCounted(n.folder.items, tail);
    }
  }
}
