/** Moving a node inside one collection: where it lands, what survives, what the references do. */
module MoveNode {
  import opened Text
  import opened Model
  import opened Tree
  import opened Census
  import opened ChainRefs
  import opened Cascade

  // ----- back-filling a missing model ID -----

  function SetNodeID(n: Node, id: string): Node {
    match n
    case FolderNode(f) => FolderNode(f.(id := id))
    case RequestNode(r) => RequestNode(r.(id := id))
  }

  function NodeID(n: Node): string {
    NodeIdent(n).id
  }

  /** The node at a gets the given ID if it has none. */
  function Backfill(c: Container, a: seq<Seg>, id: string): (d: Container)
    requires Has(c, a)
  {
    if NodeID(Pick(c, a)) != "" then c
    else
      PasteCut(c, a);
      var n := SetNodeID(Pick(c, a), id);
      assert CanPaste(Cut(c, a), a, n);
      Paste(Cut(c, a), a, n)
  }

  lemma BackfillKeeps(c: Container, a: seq<Seg>, id: string)
    requires Has(c, a)
    ensures var d := Backfill(c, a, id);
            && Has(d, a) && Cut(d, a) == Cut(c, a)
            && Pick(d, a) == (if NodeID(Pick(c, a)) == "" then SetNodeID(Pick(c, a), id) else Pick(c, a))
  {
    if NodeID(Pick(c, a)) == "" {
      PasteCut(c, a);
      CutPaste(Cut(c, a), a, SetNodeID(Pick(c, a), id));
    }
  }

  lemma BackfillIDs(c: Container, a: seq<Seg>, id: string)
    requires Has(c, a)
    ensures var k := NodeIdent(Pick(c, a));
            IDs(Backfill(c, a, id)) ==
            if k.id != "" then IDs(c)
            else IDs(c) - multiset{k} + multiset{if k.FolderID? then FolderID(id) else RequestID(id)}
  {
    BackfillKeeps(c, a, id);
    var d := Backfill(c, a, id);
    CutTally(c, a, IdentOf);
    CutTally(d, a, IdentOf);
  }

  /** Back-filling one folder leaves every address where it was. */
  lemma BackfillAt(c: Container, a: seq<Seg>, id: string, p: seq<Seg>)
    requires Has(c, a)
    ensures IsContainer(Backfill(c, a, id), p) <==> IsContainer(c, p)
    ensures Has(Backfill(c, a, id), p) <==> Has(c, p)
    ensures Has(c, p) ==> NodeName(Pick(Backfill(c, a, id), p)) == NodeName(Pick(c, p))
    ensures Has(c, p) && p != a ==> NodeID(Pick(Backfill(c, a, id), p)) == NodeID(Pick(c, p))
    ensures IsContainer(c, p) ==> |At(Backfill(c, a, id), p).folders| == |At(c, p).folders|
                                  && |At(Backfill(c, a, id), p).requests| == |At(c, p).requests|
    decreases |a|
  {
    var d := Backfill(c, a, id);
    if NodeID(Pick(c, a)) == "" {
      if |a| == 1 {
        assert Parent(a) == [];
        assert d == SetChildNode(c, a[0], SetNodeID(ChildAt(c, a[0]), id));
        SetChildNodeAt(c, a[0], SetNodeID(ChildAt(c, a[0]), id), p);
      } else {
        Descend(c, a);
        BackfillStep(c, a, id);
        if p != [] && p[0] == a[0] {
          BackfillAt(Sub(c, a[0]), a[1..], id, p[1..]);
          if |p| > 1 {
            Descend(c, p);
            Descend(d, p);
            assert p[1..] == a[1..] ==> p == a by { assert p == [p[0]] + p[1..] && a == [a[0]] + a[1..]; }
          } else {
            assert Parent(p) == [];
          }
        } else if |p| > 1 {
          Descend(c, p);
          Descend(d, p);
        } else if |p| == 1 {
          assert Parent(p) == [];
        }
      }
    }
  }

  function SetChildNode(c: Container, s: Seg, n: Node): Container
    requires InRange(c, s) && s.F? == n.FolderNode?
  {
    if s.F? then c.(folders := c.folders[s.i := n.folder]) else c.(requests := c.requests[s.i := n.request])
  }

  lemma SetChildNodeAt(c: Container, s: Seg, n: Node, p: seq<Seg>)
    requires InRange(c, s) && s.F? == n.FolderNode?
    requires n == SetNodeID(ChildAt(c, s), NodeID(n))
    ensures var d := SetChildNode(c, s, n);
            && (IsContainer(d, p) <==> IsContainer(c, p))
            && (Has(d, p) <==> Has(c, p))
            && (Has(c, p) ==> NodeName(Pick(d, p)) == NodeName(Pick(c, p)))
            && (Has(c, p) && p != [s] ==> NodeID(Pick(d, p)) == NodeID(Pick(c, p)))
            && (IsContainer(c, p) ==> |At(d, p).folders| == |At(c, p).folders|
                                      && |At(d, p).requests| == |At(c, p).requests|)
  {
    var d := SetChildNode(c, s, n);
    if |p| > 1 {
      Descend(c, p);
      Descend(d, p);
    } else if |p| == 1 {
      assert Parent(p) == [];
    }
  }

  lemma BackfillStep(c: Container, a: seq<Seg>, id: string)
    requires |a| > 1 && Has(c, a)
    ensures Opens(c, a[0]) && Has(Sub(c, a[0]), a[1..])
    ensures Backfill(c, a, id) == SetSub(c, a[0], Backfill(Sub(c, a[0]), a[1..], id))
  {
    Descend(c, a);
    if NodeID(Pick(c, a)) == "" {
      PasteCut(c, a);
      PasteCut(Sub(c, a[0]), a[1..]);
      assert Paste(Cut(c, a), a, SetNodeID(Pick(c, a), id)) ==
             SetSub(Cut(c, a), a[0], Paste(Cut(Sub(c, a[0]), a[1..]), a[1..], SetNodeID(Pick(c, a), id)));
    } else {
      assert SetSub(c, a[0], Sub(c, a[0])) == c;
    }
  }

  lemma BackfillNames(c: Container, a: seq<Seg>, id: string)
    requires Has(c, a)
    ensures Has(Backfill(c, a, id), a) && Names(Backfill(c, a, id), a) == Names(c, a)
    decreases |a|
  {
    BackfillKeeps(c, a, id);
    if |a| > 1 {
      BackfillStep(c, a, id);
      BackfillNames(Sub(c, a[0]), a[1..], id);
      Descend(c, a);
      Descend(Backfill(c, a, id), a);
    } else {
      assert Parent(a) == [];
    }
  }

  // ----- the move -----

  /** May the node at src be dropped into the container dst? */
  ghost predicate Movable(c: Container, src: seq<Seg>, dst: seq<Seg>) {
    Has(c, src) && IsContainer(c, dst) && !(src <= dst)
  }

  function SegLike(s: Seg, i: int): Seg {
    if s.F? then F(i) else R(i)
  }

  /** The number of siblings of the moved node's kind. */
  function Room(c: Container, s: Seg): nat {
    if s.F? then |c.folders| else |c.requests|
  }

  /** Where in the destination the node is inserted: a reorder within one container counts the
      removal of the node itself, and the index is clamped. */
  function Landing(c: Container, src: seq<Seg>, dst: seq<Seg>, index: int): seq<Seg>
    requires Movable(c, src, dst)
  {
    ShiftTracks(c, dst, src);
    var p := Shift(dst, src);
    var wanted := if Parent(src) == dst && Last(src).i < index then index - 1 else index;
    p + [SegLike(Last(src), Clamp(wanted, Room(At(Cut(c, src), p), Last(src))))]
  }

  lemma LandingFits(c: Container, src: seq<Seg>, dst: seq<Seg>, index: int)
    requires Movable(c, src, dst)
    ensures CanPaste(Cut(c, src), Landing(c, src, dst, index), Pick(c, src))
    ensures Parent(Landing(c, src, dst, index)) == Shift(dst, src)
  {
    ShiftTracks(c, dst, src);
  }

  /** The tree after the splice, before the cascade. */
  function Moved(c: Container, src: seq<Seg>, dst: seq<Seg>, index: int): Container
    requires Movable(c, src, dst)
  {
    LandingFits(c, src, dst, index);
    Paste(Cut(c, src), Landing(c, src, dst, index), Pick(c, src))
  }

  lemma MovedRelocates(c: Container, src: seq<Seg>, dst: seq<Seg>, index: int)
    requires Movable(c, src, dst)
    ensures Relocated(c, src, Moved(c, src, dst, index), Landing(c, src, dst, index))
    ensures Pick(Moved(c, src, dst, index), Landing(c, src, dst, index)) == Pick(c, src)
  {
    LandingFits(c, src, dst, index);
    CutPaste(Cut(c, src), Landing(c, src, dst, index), Pick(c, src));
  }

  /** Every folder and every request survives exactly once, with its content: whatever is counted
      about the items of the tree is the same before and after. */
  lemma {:induction false} MoveConserves<T>(c: Container, src: seq<Seg>, dst: seq<Seg>, index: int, key: Item -> T)
    requires Movable(c, src, dst)
    ensures Tally(Moved(c, src, dst, index), key) == Tally(c, key)
  {
    LandingFits(c, src, dst, index);
    CutTally(c, src, key);
    PasteTally(Cut(c, src), Landing(c, src, dst, index), Pick(c, src), key);
  }

  /** The destination afterwards: still the container with the same model ID, now addressed by the
      shifted path, holding its old children (less the node, if that came out of it or from below it)
      with the node inserted at the requested place. */
  lemma MoveLands(c: Container, src: seq<Seg>, dst: seq<Seg>, index: int)
    requires Movable(c, src, dst)
    ensures var d := Moved(c, src, dst, index);
            var p := Shift(dst, src);
            var b := Landing(c, src, dst, index);
            && Parent(b) == p && IsContainer(d, p) && ContainerID(d, p) == ContainerID(c, dst)
            && (dst <= src ==> Has(At(c, dst), src[|dst|..]))
            && var before := if dst <= src then Cut(At(c, dst), src[|dst|..]) else At(c, dst);
               && Last(b) == SegLike(Last(src), Clamp(if Parent(src) == dst && Last(src).i < index then index - 1 else index,
                                                      Room(before, Last(src))))
               && Fits(before, Last(b), Pick(c, src))
               && At(d, p) == PasteChild(before, Last(b), Pick(c, src))
  {
    LandingFits(c, src, dst, index);
    ShiftTracks(c, dst, src);
    var p := Shift(dst, src);
    var b := Landing(c, src, dst, index);
    GraftAt(Cut(c, src), p, PasteChild(At(Cut(c, src), p), Last(b), Pick(c, src)));
    GraftKeepsID(Cut(c, src), p, PasteChild(At(Cut(c, src), p), Last(b), Pick(c, src)));
  }

  lemma GraftKeepsID(c: Container, p: seq<Seg>, d: Container)
    requires IsContainer(c, p)
    ensures IsContainer(Graft(c, p, d), p) && ContainerID(Graft(c, p, d), p) == ContainerID(c, p)
  {
    if p != [] {
      GraftKeepsID(Sub(c, p[0]), p[1..], d);
    }
  }

  /** After the removal the destination is found again by its model ID, at the shifted path. */
  lemma DestinationFound(c: Container, src: seq<Seg>, dst: seq<Seg>)
    requires Movable(c, src, dst) && UniqueIDs(c)
    requires dst != [] && ContainerID(c, dst) != ""
    ensures Find(Cut(c, src), FolderID(ContainerID(c, dst))) == Some(Shift(dst, src))
  {
    var d := Cut(c, src);
    ShiftTracks(c, dst, src);
    ContainerIsFolder(d, Shift(dst, src));
    CutTally(c, src, IdentOf);
    forall k | k in IDs(d) && k.id != "" ensures IDs(d)[k] == 1 {
      assert k in IDs(c);
    }
    FindUnique(d, Shift(dst, src));
  }

  /** The moved node is found by its model ID at the landing address. */
  lemma MovedNodeFound(c: Container, src: seq<Seg>, dst: seq<Seg>, index: int)
    requires Movable(c, src, dst) && UniqueIDs(c) && NodeID(Pick(c, src)) != ""
    ensures Find(Moved(c, src, dst, index), NodeIdent(Pick(c, src))) == Some(Landing(c, src, dst, index))
  {
    MovedRelocates(c, src, dst, index);
    MoveConserves(c, src, dst, index, IdentOf);
    FindUnique(Moved(c, src, dst, index), Landing(c, src, dst, index));
  }

  /** The cascade of a move: the node now at b used to have the path `before`. `nodeNamePath` joins the
      names of a path with slashes, and `MoveNode` splits them again. */
  function Cascaded(d: Container, b: seq<Seg>, before: string): Container
    requires Has(d, b)
  {
    var after := Join(Names(d, b), "/");
    if before != "" && after != "" && after != before
    then Rewrite(d, Relabel(Split(before, '/'), Split(after, '/'), Last(b).F?))
    else d
  }

  /** The collection after MoveNode. */
  function MovedAndCascaded(c: Container, src: seq<Seg>, dst: seq<Seg>, index: int): Container
    requires Movable(c, src, dst)
  {
    MovedRelocates(c, src, dst, index);
    Cascaded(Moved(c, src, dst, index), Landing(c, src, dst, index), Join(Names(c, src), "/"))
  }

  lemma CleanPathRoundTrip(names: seq<string>)
    requires names != [] && AllClean(names)
    ensures Join(names, "/") != "" && Split(Join(names, "/"), '/') == names
  {
    assert names[0] in names;
    SplitJoin(names, '/');
  }

  /** Moving a node keeps every chain step on its target, when names on the old and new path are clean
      and siblings are distinct before and after. */
  lemma MoveKeepsChains(c: Container, src: seq<Seg>, dst: seq<Seg>, index: int, s: ChainStep)
    requires Movable(c, src, dst) && Has(Moved(c, src, dst, index), Landing(c, src, dst, index))
    requires WellNamed(c) && WellNamed(Moved(c, src, dst, index))
    requires AllClean(Names(c, src)) && AllClean(Names(Moved(c, src, dst, index), Landing(c, src, dst, index)))
    requires !StepTarget(c, s).NoTarget?
    ensures var m := RelabelOf(c, src, Moved(c, src, dst, index), Landing(c, src, dst, index));
            && MovedAndCascaded(c, src, dst, index) ==
                 (if m.before == m.after then Moved(c, src, dst, index) else Rewrite(Moved(c, src, dst, index), m))
            && StepTarget(MovedAndCascaded(c, src, dst, index), if m.before == m.after then s else RewriteStep(s, m))
               == (if m.before == m.after then StepTarget(c, s) else RewriteTarget(StepTarget(c, s), m))
  {
    var d := Moved(c, src, dst, index);
    var b := Landing(c, src, dst, index);
    MovedRelocates(c, src, dst, index);
    CleanPathRoundTrip(Names(c, src));
    CleanPathRoundTrip(Names(d, b));
    if Names(c, src) == Names(d, b) {
      SamePathKeepsTarget(c, src, d, b, s);
    } else {
      ChainStepsKeepTargets(c, src, d, b, s);
    }
  }

  lemma SamePathKeepsTarget(c: Container, a: seq<Seg>, d: Container, b: seq<Seg>, s: ChainStep)
    requires Relocated(c, a, d, b) && WellNamed(c) && WellNamed(d)
    requires Names(c, a) == Names(d, b)
    requires !StepTarget(c, s).NoTarget?
    ensures StepTarget(d, s) == StepTarget(c, s)
  {
    RelocatedIDs(c, a, d, b);
    var parts := SplitChainPath(s.request);
    if Lookup(c, parts).Some? {
      RekeyFollows(c, a, d, b, parts);
      var m := RelabelOf(c, a, d, b);
      assert Targets(parts, m.before, m.folder) ==> m.before + parts[|m.before|..] == parts;
    }
  }

  /** What MoveNode makes of a reference. */
  function MovedRef(c: Container, src: seq<Seg>, dst: seq<Seg>, index: int, ref: string): string
    requires Movable(c, src, dst)
  {
    MovedRelocates(c, src, dst, index);
    var before := Join(Names(c, src), "/");
    var after := Join(Names(Moved(c, src, dst, index), Landing(c, src, dst, index)), "/");
    if before != "" && after != "" && after != before
    then RewriteRef(ref, Relabel(Split(before, '/'), Split(after, '/'), Last(src).F?))
    else ref
  }

  lemma MovedResolves(c: Container, src: seq<Seg>, dst: seq<Seg>, index: int, q: seq<string>)
    requires Movable(c, src, dst)
    ensures FoundID(Lookup(MovedAndCascaded(c, src, dst, index), q)) == FoundID(Lookup(Moved(c, src, dst, index), q))
  {
    hide Lookup, Moved, Landing, Rewrite;
    MovedRelocates(c, src, dst, index);
    var d, b := Moved(c, src, dst, index), Landing(c, src, dst, index);
    RewriteLookup(d, q, Relabel(Split(Join(Names(c, src), "/"), '/'), Split(Join(Names(d, b), "/"), '/'), Last(b).F?));
  }

  lemma {:induction false} JoinEnds(names: seq<string>)
    requires names != [] && names[|names| - 1] != ""
    ensures Join(names, "/") != ""
  {
  }

  /** A reference to the moved node leads to its new place exactly when every name on the way is clean. */
  lemma {:induction false} MovedRefLeads(c: Container, src: seq<Seg>, dst: seq<Seg>, index: int, ref: string)
    requires Movable(c, src, dst) && Has(Moved(c, src, dst, index), Landing(c, src, dst, index))
    requires Targets(SplitChainPath(ref), Names(c, src), Last(src).F?)
    ensures var names := Names(Moved(c, src, dst, index), Landing(c, src, dst, index));
            SplitChainPath(MovedRef(c, src, dst, index, ref)) == names + SplitChainPath(ref)[|src|..] <==> AllClean(names)
  {
    hide SplitChainPath, IsClean, RewriteRef, Moved, Landing, Split;
    MovedRelocates(c, src, dst, index);
    var was, names := Names(c, src), Names(Moved(c, src, dst, index), Landing(c, src, dst, index));
    var parts, moved := SplitChainPath(ref), MovedRef(c, src, dst, index, ref);
    SplitIsClean(ref);
    FrontIsClean(was, parts);
    CleanPathRoundTrip(was);
    SplitIsClean(moved);
    if SplitChainPath(moved) == names + parts[|src|..] {
      FrontIsClean(names, SplitChainPath(moved));
    }
    assert names[|names| - 1] == was[|was| - 1] && IsClean(was[|was| - 1]);
    NotBlank(was[|was| - 1]);
    JoinEnds(names);
    if AllClean(names) {
      CleanPathRoundTrip(names);
      if Join(names, "/") == Join(was, "/") {
        assert names == was && parts == was + parts[|src|..];
      } else {
        RewrittenLeads(ref, Relabel(was, names, Last(src).F?));
      }
    }
  }

  lemma NotBlank(name: string)
    requires IsClean(name)
    ensures name != ""
  {
  }

  /** Exactly when MoveNode keeps a reference on target, for every reference that has one. One to the node, or
      into it: every name on the new path is clean and no earlier sibling answers for its name there. Any other:
      it still reads as it did, and the node does not capture it in its new place. */
  lemma {:induction false} MoveKeepsRefsIff(c: Container, src: seq<Seg>, dst: seq<Seg>, index: int, ref: string)
    requires Movable(c, src, dst) && WellNamed(c) && UniqueIDs(c)
    requires Resolve(c, ref).Some? && Resolve(c, ref).value.id != ""
    ensures Has(Moved(c, src, dst, index), Landing(c, src, dst, index))
    ensures var d, b, parts := Moved(c, src, dst, index), Landing(c, src, dst, index), SplitChainPath(ref);
            && (FoundID(Resolve(MovedAndCascaded(c, src, dst, index), MovedRef(c, src, dst, index, ref))) == FoundID(Resolve(c, ref))
                <==> if Targets(parts, Names(c, src), Last(src).F?) then AllClean(Names(d, b)) && !EarlierTakes(d, b, parts[|src|..])
                     else SplitChainPath(MovedRef(c, src, dst, index, ref)) == parts && !Captures(d, b, parts))
  {
    hide Lookup, SplitChainPath, WellNamed, Relocated, UniqueIDs, Captures, EarlierTakes, Moved, Landing, MovedAndCascaded, MovedRef;
    MovedRelocates(c, src, dst, index);
    var parts, q := SplitChainPath(ref), SplitChainPath(MovedRef(c, src, dst, index, ref));
    MovedResolves(c, src, dst, index, q);
    SameTargetIff(c, src, Moved(c, src, dst, index), Landing(c, src, dst, index), parts, q);
    if Targets(parts, Names(c, src), Last(src).F?) {
      MovedRefLeads(c, src, dst, index, ref);
    }
  }
}
