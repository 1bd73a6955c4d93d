/** The value-level specification of the tree mutators of `internal/session/items.go`: what each leaves
    of the collections, and the invariant that every run of them keeps. */
module Edits {
  import opened Text
  import opened Model
  import opened Tree
  import opened Census
  import opened ChainRefs
  import opened Cascade
  import opened MoveNode

  /** A tree node ID: the collection index, then folder and request segments; "0/f1/r2" is
      NodeID(0, [F(1), R(2)]). */
  datatype NodeRef = NodeRef(col: int, segs: seq<Seg>)

  datatype Result<T> = Ok(value: T) | Err(message: string)

  /** `deletedNode`: what undo needs. */
  datatype DeletedNode = DeletedNode(parentFolderID: string, index: nat, col: nat, node: Node)

  predicate Blank(name: string) { TrimSpace(name) == "" }

  // ----- deep copies with fresh IDs -----

  /** How many IDs copying takes from the supply. */
  function IDsIn(c: Container): nat
    decreases c, 1
  {
    |c.requests| + IDsInFolders(c.folders)
  }

  function IDsInFolders(fs: seq<Folder>): nat
    decreases fs, 0
  {
    if fs == [] then 0 else 1 + IDsIn(fs[0].items) + IDsInFolders(fs[1..])
  }

  /** `deepCopyFolder`: the folder's own ID first, then its requests', then its subfolders'. */
  function CopyFolder(f: Folder, mint: nat -> string, n: nat): Folder
    decreases f, 2
  {
    f.(id := mint(n), items := CopyItems(f.items, mint, n + 1))
  }

  function CopyItems(c: Container, mint: nat -> string, n: nat): Container
    decreases c, 1
  {
    Container(CopyFolders(c.folders, mint, n + |c.requests|), CopyRequests(c.requests, mint, n))
  }

  function CopyFolders(fs: seq<Folder>, mint: nat -> string, n: nat): seq<Folder>
    decreases fs, 0
  {
    if fs == [] then []
    else [CopyFolder(fs[0], mint, n)] + CopyFolders(fs[1..], mint, n + 1 + IDsIn(fs[0].items))
  }

  function CopyRequests(rs: seq<Request>, mint: nat -> string, n: nat): seq<Request> {
    if rs == [] then [] else [rs[0].(id := mint(n))] + CopyRequests(rs[1..], mint, n + 1)
  }

  function CopyNode(x: Node, mint: nat -> string, n: nat): Node {
    match x
    case FolderNode(f) => FolderNode(CopyFolder(f, mint, n).(name := f.name + " (copy)"))
    case RequestNode(r) => RequestNode(r.(id := mint(n), name := r.name + " (copy)"))
  }

  function CopyCost(x: Node): nat {
    match x
    case FolderNode(f) => 1 + IDsIn(f.items)
    case RequestNode(_) => 1
  }

  /** Every ID counted in m was issued by the supply between lo and hi, and is counted once. */
  ghost predicate Issued(m: multiset<Ident>, mint: nat -> string, lo: nat, hi: nat) {
    forall k <- m :: m[k] == 1 && exists j: nat :: lo <= j < hi && k.id == mint(j)
  }

  ghost predicate Supply(mint: nat -> string) {
    && (forall i: nat, j: nat :: mint(i) == mint(j) ==> i == j)
    && (forall i: nat :: mint(i) != "")
  }

  lemma {:induction false} IssuedUnion(x: multiset<Ident>, y: multiset<Ident>, mint: nat -> string, lo: nat, mid: nat, hi: nat)
    requires Supply(mint) && lo <= mid <= hi
    requires Issued(x, mint, lo, mid) && Issued(y, mint, mid, hi)
    ensures Issued(x + y, mint, lo, hi)
  {
    forall k | k in x + y
      ensures (x + y)[k] == 1 && exists j: nat :: lo <= j < hi && k.id == mint(j)
    {
      if k in x {
        var i: nat :| lo <= i < mid && k.id == mint(i);
        forall j: nat | mid <= j < hi ensures k.id != mint(j) {
        }
        assert k !in y;
      }
    }
  }

  // ----- what a copy keeps -----

  function Anonymous(c: Container): Container {
    Container(seq(|c.folders|, i requires 0 <= i < |c.folders| => AnonymousFolder(c.folders[i])),
              seq(|c.requests|, i requires 0 <= i < |c.requests| => c.requests[i].(id := "")))
  }

  /** A folder with every ID in it blanked. */
  function AnonymousFolder(f: Folder): Folder {
    f.(id := "", items := Anonymous(f.items))
  }

  /** A copy is the original under a new name but for the IDs, at every depth and in the same order. */
  lemma {:induction false} CopyKeepsAll(x: Node, mint: nat -> string, n: nat)
    ensures match x
            case RequestNode(r) =>
              CopyNode(x, mint, n).RequestNode?
              && CopyNode(x, mint, n).request.(id := r.id) == r.(name := r.name + " (copy)")
            case FolderNode(f) =>
              CopyNode(x, mint, n).FolderNode?
              && AnonymousFolder(CopyNode(x, mint, n).folder) == AnonymousFolder(f).(name := f.name + " (copy)")
  {
    if x.FolderNode? {
      CopiedFolder(x.folder, mint, n);
    }
  }

  lemma {:induction false} CopiedFolder(f: Folder, mint: nat -> string, n: nat)
    ensures AnonymousFolder(CopyFolder(f, mint, n)) == AnonymousFolder(f)
    decreases f, 2
  {
    var c := f.items;
    CopiedRequests(c.requests, mint, n + 1);
    CopiedFolders(c.folders, mint, n + 1 + |c.requests|);
    assert Anonymous(CopyItems(c, mint, n + 1)) == Anonymous(c);
  }

  lemma {:induction false} CopiedFolders(fs: seq<Folder>, mint: nat -> string, n: nat)
    ensures var gs := CopyFolders(fs, mint, n);
            |gs| == |fs| && forall i :: 0 <= i < |fs| ==> AnonymousFolder(gs[i]) == AnonymousFolder(fs[i])
    decreases fs, 0
  {
    if fs != [] {
      CopiedFolder(fs[0], mint, n);
      CopiedFolders(fs[1..], mint, n + 1 + IDsIn(fs[0].items));
    }
  }

  lemma {:induction false} CopiedRequests(rs: seq<Request>, mint: nat -> string, n: nat)
    ensures var qs := CopyRequests(rs, mint, n);
            |qs| == |rs| && forall i :: 0 <= i < |rs| ==> qs[i].(id := "") == rs[i].(id := "")
  {
    if rs != [] {
      CopiedRequests(rs[1..], mint, n + 1);
    }
  }

  // ----- which IDs a copy uses -----

  lemma {:induction false} CopyFolderIssued(f: Folder, mint: nat -> string, n: nat)
    requires Supply(mint)
    ensures Issued(TallyFolder(CopyFolder(f, mint, n), IdentOf), mint, n, n + 1 + IDsIn(f.items))
    decreases f, 2
  {
    CopyItemsIssued(f.items, mint, n + 1);
    var g := CopyFolder(f, mint, n);
    IssuedUnion(multiset{IdentOf(Header(g))}, IDs(g.items), mint, n, n + 1, n + 1 + IDsIn(f.items));
  }

  lemma {:induction false} CopyItemsIssued(c: Container, mint: nat -> string, n: nat)
    requires Supply(mint)
    ensures Issued(IDs(CopyItems(c, mint, n)), mint, n, n + IDsIn(c))
    decreases c, 1
  {
    CopyRequestsIssued(c.requests, mint, n);
    CopyFoldersIssued(c.folders, mint, n + |c.requests|);
    var d := CopyItems(c, mint, n);
    IssuedUnion(TallyRequests(d.requests, IdentOf), TallyFolders(d.folders, IdentOf), mint,
                n, n + |c.requests|, n + IDsIn(c));
  }

  lemma {:induction false} CopyFoldersIssued(fs: seq<Folder>, mint: nat -> string, n: nat)
    requires Supply(mint)
    ensures Issued(TallyFolders(CopyFolders(fs, mint, n), IdentOf), mint, n, n + IDsInFolders(fs))
    decreases fs, 0
  {
    if fs != [] {
      var mid := n + 1 + IDsIn(fs[0].items);
      CopyFolderIssued(fs[0], mint, n);
      CopyFoldersIssued(fs[1..], mint, mid);
      assert CopyFolders(fs, mint, n)[1..] == CopyFolders(fs[1..], mint, mid);
      IssuedUnion(TallyFolder(CopyFolder(fs[0], mint, n), IdentOf),
                  TallyFolders(CopyFolders(fs[1..], mint, mid), IdentOf), mint, n, mid, n + IDsInFolders(fs));
    }
  }

  lemma {:induction false} CopyRequestsIssued(rs: seq<Request>, mint: nat -> string, n: nat)
    requires Supply(mint)
    ensures Issued(TallyRequests(CopyRequests(rs, mint, n), IdentOf), mint, n, n + |rs|)
  {
    if rs != [] {
      CopyRequestsIssued(rs[1..], mint, n + 1);
      assert CopyRequests(rs, mint, n)[1..] == CopyRequests(rs[1..], mint, n + 1);
      var r := rs[0].(id := mint(n));
      IssuedUnion(multiset{RequestID(r.id)}, TallyRequests(CopyRequests(rs[1..], mint, n + 1), IdentOf), mint,
                  n, n + 1, n + |rs|);
    }
  }

  /** The copy carries no ID of the original: all its IDs are new and pairwise distinct. */
  lemma {:induction false} CopyIsFresh(x: Node, mint: nat -> string, n: nat)
    requires Supply(mint)
    ensures Issued(TallyNode(CopyNode(x, mint, n), IdentOf), mint, n, n + CopyCost(x))
  {
    if x.FolderNode? {
      CopyFolderIssued(x.folder, mint, n);
      var g := CopyFolder(x.folder, mint, n);
      assert CopyNode(x, mint, n).folder.items == g.items;
    }
  }

  // ----- the session -----

  /** Does id name a collection, a folder or a request that exists? */
  ghost predicate Exists(cols: seq<Collection>, id: NodeRef) {
    0 <= id.col < |cols| && (id.segs == [] || Has(cols[id.col].items, id.segs))
  }

  ghost predicate ContainerExists(cols: seq<Collection>, id: NodeRef) {
    0 <= id.col < |cols| && IsContainer(cols[id.col].items, id.segs)
  }

  function WithItems(cols: seq<Collection>, ci: int, items: Container): seq<Collection>
    requires 0 <= ci < |cols|
  {
    cols[ci := cols[ci].(items := items)]
  }

  /** What RenameItem leaves of the collection: renamed, then cascaded. */
  function Renamed(c: Container, a: seq<Seg>, name: string): Container
    requires Has(c, a)
  {
    var path := Join(Names(c, a), "/");
    var d := RenameAt(c, a, name);
    if path == "" then d
    else
      var parts := Split(path, '/');
      Rewrite(d, Relabel(parts, Parent'(parts) + [name], Last(a).F?))
  }

  /** The model IDs that collection ci holds, and those of the node whose delete can be undone into it. */
  ghost function Held(cols: seq<Collection>, pending: Option<DeletedNode>, ci: nat): multiset<Ident>
    requires ci < |cols|
  {
    IDs(cols[ci].items) +
    if pending.Some? && pending.value.col == ci then TallyNode(pending.value.node, IdentOf) else multiset{}
  }

  ghost predicate NotIssued(m: multiset<Ident>, mint: nat -> string, next: nat) {
    forall k: nat :: k >= next ==> FolderID(mint(k)) !in m && RequestID(mint(k)) !in m
  }

  /** The invariant of every run: IDs are unique in each collection, also together with the node that
      undo would bring back, and the ID supply has not been anticipated. */
  ghost predicate Consistent(cols: seq<Collection>, pending: Option<DeletedNode>, mint: nat -> string, next: nat) {
    && Supply(mint)
    && (pending.Some? ==> pending.value.col < |cols|)
    && forall ci :: 0 <= ci < |cols| ==>
                      Unique(Held(cols, pending, ci)) && NotIssued(Held(cols, pending, ci), mint, next)
  }

  // ----- keeping the invariant -----

  /** Any edit of one collection that holds no more IDs than before plus newly issued ones. */
  lemma {:induction false} StaysConsistent(cols: seq<Collection>, cols': seq<Collection>,
                        pending: Option<DeletedNode>, pending': Option<DeletedNode>,
                        mint: nat -> string, next: nat, next': nat, ci: nat, x: multiset<Ident>)
    requires Consistent(cols, pending, mint, next)
    requires |cols| == |cols'| && next <= next' && ci < |cols|
    requires pending'.Some? ==> pending'.value.col < |cols|
    requires Issued(x, mint, next, next')
    requires Held(cols', pending', ci) <= Held(cols, pending, ci) + x
    requires forall i :: 0 <= i < |cols| && i != ci ==> Held(cols', pending', i) <= Held(cols, pending, i)
    ensures Consistent(cols', pending', mint, next')
  {
    forall i | 0 <= i < |cols'|
      ensures Unique(Held(cols', pending', i)) && NotIssued(Held(cols', pending', i), mint, next')
    {
      var y := if i == ci then x else multiset{};
      Bounded(Held(cols, pending, i), y, Held(cols', pending', i), mint, next, next');
    }
  }

  lemma {:induction false} Bounded(m: multiset<Ident>, x: multiset<Ident>, m': multiset<Ident>, mint: nat -> string, next: nat, next': nat)
    requires Supply(mint) && next <= next'
    requires Unique(m) && NotIssued(m, mint, next) && Issued(x, mint, next, next')
    requires m' <= m + x
    ensures Unique(m') && NotIssued(m', mint, next')
  {
    forall k | k in m' && k.id != "" ensures m'[k] == 1 {
      assert m'[k] <= (m + x)[k];
      if k in x {
        var j: nat :| next <= j < next' && k.id == mint(j);
        assert k == FolderID(mint(j)) || k == RequestID(mint(j));
        assert k !in m;
      }
    }
    forall k: nat | k >= next' ensures FolderID(mint(k)) !in m' && RequestID(mint(k)) !in m' {
      IssuedExcludes(x, mint, next, next', k);
      assert FolderID(mint(k)) !in m + x && RequestID(mint(k)) !in m + x;
    }
  }

  lemma {:induction false} IssuedExcludes(x: multiset<Ident>, mint: nat -> string, lo: nat, hi: nat, k: nat)
    requires Supply(mint) && Issued(x, mint, lo, hi) && k >= hi
    ensures FolderID(mint(k)) !in x && RequestID(mint(k)) !in x
  {
    forall j: nat | lo <= j < hi ensures mint(j) != mint(k) {
    }
    assert FolderID(mint(k)).id == mint(k) && RequestID(mint(k)).id == mint(k);
  }

  // ----- back-filling a container's missing ID -----

  /** The collections after `folderIDForContainer(id)`. */
  function Filled(cols: seq<Collection>, id: NodeRef, fresh_: string): seq<Collection> {
    if id.segs == [] || !(0 <= id.col < |cols|) || !IsContainer(cols[id.col].items, id.segs) then cols
    else
      ContainerIsFolder(cols[id.col].items, id.segs);
      WithItems(cols, id.col, Backfill(cols[id.col].items, id.segs, fresh_))
  }

  function ParentRef(id: NodeRef): NodeRef {
    if id.segs == [] then id else NodeRef(id.col, Parent(id.segs))
  }

  lemma BackfillInPlace(c: Container, a: seq<Seg>, id: string)
    requires Has(c, a) && Last(a).F? && NodeID(Pick(c, a)) == ""
    ensures var d := At(c, Parent(a));
            var i := Last(a).i;
            Backfill(c, a, id) == Graft(c, Parent(a), d.(folders := d.folders[i := d.folders[i].(id := id)]))
  {
    PasteCut(c, a);
    var d := At(c, Parent(a));
    var i := Last(a).i;
    var n := SetNodeID(Pick(c, a), id);
    GraftAt(c, Parent(a), CutChild(d, Last(a)));
    assert PasteChild(CutChild(d, Last(a)), Last(a), n) == d.(folders := d.folders[i := d.folders[i].(id := id)]);
  }

  function IDCost(n: Node): nat {
    if NodeID(n) == "" then 1 else 0
  }

  lemma {:induction false} BackfillConsistent(cols: seq<Collection>, pending: Option<DeletedNode>, mint: nat -> string, next: nat,
                           ci: nat, a: seq<Seg>)
    requires Consistent(cols, pending, mint, next)
    requires ci < |cols| && Has(cols[ci].items, a)
    ensures Consistent(WithItems(cols, ci, Backfill(cols[ci].items, a, mint(next))), pending, mint,
                       next + IDCost(Pick(cols[ci].items, a)))
  {
    var c := cols[ci].items;
    if NodeID(Pick(c, a)) == "" {
      var x := BackfillAdds(c, a, mint, next);
      StaysConsistent(cols, WithItems(cols, ci, Backfill(c, a, mint(next))), pending, pending, mint, next, next + 1, ci, x);
    } else {
      assert WithItems(cols, ci, c) == cols;
    }
  }

  lemma {:induction false} BackfillAdds(c: Container, a: seq<Seg>, mint: nat -> string, next: nat) returns (x: multiset<Ident>)
    requires Has(c, a) && NodeID(Pick(c, a)) == ""
    ensures Issued(x, mint, next, next + 1)
    ensures IDs(Backfill(c, a, mint(next))) <= IDs(c) + x
  {
    BackfillIDs(c, a, mint(next));
    x := multiset{if NodeIdent(Pick(c, a)).FolderID? then FolderID(mint(next)) else RequestID(mint(next))};
  }

  lemma RenamedIDs(c: Container, a: seq<Seg>, name: string)
    requires Has(c, a)
    ensures IDs(Renamed(c, a, name)) == IDs(c)
  {
    RenameRelocates(c, a, name);
    RelocatedIDs(c, a, RenameAt(c, a, name), a);
    var path := Join(Names(c, a), "/");
    if path != "" {
      var parts := Split(path, '/');
      RewriteIDs(RenameAt(c, a, name), Relabel(parts, Parent'(parts) + [name], Last(a).F?));
    }
  }

  /** Filling in an ID changes neither what exists nor any name. */
  lemma FilledExists(cols: seq<Collection>, p: NodeRef, fresh_: string, id: NodeRef)
    ensures |Filled(cols, p, fresh_)| == |cols|
    ensures Exists(Filled(cols, p, fresh_), id) <==> Exists(cols, id)
    ensures ContainerExists(Filled(cols, p, fresh_), id) <==> ContainerExists(cols, id)
  {
    if p.segs != [] && 0 <= p.col < |cols| && IsContainer(cols[p.col].items, p.segs) && id.col == p.col {
      ContainerIsFolder(cols[p.col].items, p.segs);
      BackfillAt(cols[p.col].items, p.segs, fresh_, id.segs);
    }
  }

  lemma {:induction false} DeleteConsistent(cols: seq<Collection>, pending: Option<DeletedNode>, mint: nat -> string, next: nat,
                         ci: nat, a: seq<Seg>, gone: DeletedNode)
    requires Consistent(cols, pending, mint, next)
    requires ci < |cols| && Has(cols[ci].items, a)
    requires gone.col == ci && gone.node == Pick(cols[ci].items, a)
    ensures Consistent(WithItems(cols, ci, Cut(cols[ci].items, a)), Some(gone), mint, next)
  {
    CutTally(cols[ci].items, a, IdentOf);
    StaysConsistent(cols, WithItems(cols, ci, Cut(cols[ci].items, a)), pending, Some(gone), mint, next, next, ci, multiset{});
  }

  /** An edit that keeps the IDs of the collection it changes. */
  lemma {:induction false} SameIDsConsistent(cols: seq<Collection>, pending: Option<DeletedNode>, mint: nat -> string, next: nat,
                          ci: nat, col: Collection)
    requires Consistent(cols, pending, mint, next)
    requires ci < |cols| && IDs(col.items) == IDs(cols[ci].items)
    ensures Consistent(cols[ci := col], pending, mint, next)
  {
    StaysConsistent(cols, cols[ci := col], pending, pending, mint, next, next, ci, multiset{});
  }

  /** Pasting a node whose IDs were just issued. */
  lemma {:induction false} PasteConsistent(cols: seq<Collection>, pending: Option<DeletedNode>, mint: nat -> string, next: nat, next': nat,
                        ci: nat, a: seq<Seg>, n: Node)
    requires Consistent(cols, pending, mint, next) && next <= next'
    requires ci < |cols| && CanPaste(cols[ci].items, a, n)
    requires Issued(TallyNode(n, IdentOf), mint, next, next')
    ensures Consistent(WithItems(cols, ci, Paste(cols[ci].items, a, n)), pending, mint, next')
  {
    PasteTally(cols[ci].items, a, n, IdentOf);
    StaysConsistent(cols, WithItems(cols, ci, Paste(cols[ci].items, a, n)), pending, pending, mint, next, next', ci,
                    TallyNode(n, IdentOf));
  }

  /** The copy goes right after the original. */
  function CopyAddress(a: seq<Seg>): seq<Seg>
    requires a != []
  {
    Parent(a) + [SegLike(Last(a), Last(a).i + 1)]
  }

  lemma {:induction false} DuplicateConsistent(cols: seq<Collection>, pending: Option<DeletedNode>, mint: nat -> string, next: nat,
                            ci: nat, a: seq<Seg>)
    requires Consistent(cols, pending, mint, next)
    requires ci < |cols| && Has(cols[ci].items, a)
    ensures var c := cols[ci].items;
            var n := CopyNode(Pick(c, a), mint, next);
            && CanPaste(c, CopyAddress(a), n)
            && Paste(c, CopyAddress(a), n) == Graft(c, Parent(a), PasteChild(At(c, Parent(a)), Last(CopyAddress(a)), n))
            && Consistent(WithItems(cols, ci, Paste(c, CopyAddress(a), n)), pending, mint, next + CopyCost(Pick(c, a)))
  {
    var c := cols[ci].items;
    var n := CopyNode(Pick(c, a), mint, next);
    assert Parent(CopyAddress(a)) == Parent(a);
    CopyIsFresh(Pick(c, a), mint, next);
    PasteConsistent(cols, pending, mint, next, next + CopyCost(Pick(c, a)), ci, CopyAddress(a), n);
  }

  /** Pasting the node held for undo, and holding it no longer. */
  lemma {:induction false} RestoreConsistent(cols: seq<Collection>, gone: DeletedNode, mint: nat -> string, next: nat, a: seq<Seg>)
    requires Consistent(cols, Some(gone), mint, next)
    requires CanPaste(cols[gone.col].items, a, gone.node)
    ensures Consistent(WithItems(cols, gone.col, Paste(cols[gone.col].items, a, gone.node)), None, mint, next)
  {
    PasteTally(cols[gone.col].items, a, gone.node, IdentOf);
    StaysConsistent(cols, WithItems(cols, gone.col, Paste(cols[gone.col].items, a, gone.node)), Some(gone), None,
                    mint, next, next, gone.col, multiset{});
  }

  // ----- specifications of undo and move -----

  /** The container undo goes back into: the root, or the folder with the captured model ID. */
  function UndoParent(c: Container, folderID: string): Option<seq<Seg>> {
    if folderID == "" then Some([]) else Find(c, FolderID(folderID))
  }

  lemma UndoParentIsContainer(c: Container, folderID: string)
    requires UndoParent(c, folderID).Some?
    ensures IsContainer(c, UndoParent(c, folderID).value)
    ensures ContainerID(c, UndoParent(c, folderID).value) == folderID
  {
    if folderID != "" {
      FindSound(c, FolderID(folderID));
      ContainerIsFolder(c, UndoParent(c, folderID).value);
    }
  }

  function NodeSeg(n: Node, i: int): Seg {
    if n.FolderNode? then F(i) else R(i)
  }

  /** Where a node goes in the container with the given folder ID: at the index clamped to the number
      of siblings of its kind. */
  function PlaceFor(c: Container, folderID: string, n: Node, index: int): seq<Seg>
    requires UndoParent(c, folderID).Some?
  {
    var p := UndoParent(c, folderID).value;
    UndoParentIsContainer(c, folderID);
    p + [NodeSeg(n, Clamp(index, Room(At(c, p), NodeSeg(n, 0))))]
  }

  lemma PlaceFits(c: Container, folderID: string, n: Node, index: int)
    requires UndoParent(c, folderID).Some?
    ensures CanPaste(c, PlaceFor(c, folderID, n, index), n)
    ensures Parent(PlaceFor(c, folderID, n, index)) == UndoParent(c, folderID).value
    ensures IsContainer(c, UndoParent(c, folderID).value)
  {
    UndoParentIsContainer(c, folderID);
  }

  function Placed(c: Container, folderID: string, n: Node, index: int): Container
    requires UndoParent(c, folderID).Some?
  {
    PlaceFits(c, folderID, n, index);
    Paste(c, PlaceFor(c, folderID, n, index), n)
  }

  /** Where undo puts the node. */
  function UndoAddress(c: Container, gone: DeletedNode): seq<Seg>
    requires UndoParent(c, gone.parentFolderID).Some?
  {
    PlaceFor(c, gone.parentFolderID, gone.node, gone.index)
  }

  /** Delete followed by undo is the identity on the tree, and the node gets its old address back. */
  lemma DeleteThenUndo(c: Container, a: seq<Seg>, gone: DeletedNode)
    requires UniqueIDs(c) && Has(c, a)
    requires gone.node == Pick(c, a) && gone.index == Last(a).i
    requires gone.parentFolderID == ContainerID(c, Parent(a))
    requires Parent(a) != [] ==> gone.parentFolderID != ""
    ensures UndoParent(Cut(c, a), gone.parentFolderID) == Some(Parent(a))
    ensures UndoAddress(Cut(c, a), gone) == a
    ensures CanPaste(Cut(c, a), a, gone.node) && Paste(Cut(c, a), a, gone.node) == c
  {
    PasteCut(c, a);
    ParentStays(c, a);
    hide IDs, Graft, Find, CutChild, PasteChild;
    assert a == Parent(a) + [Last(a)];
  }

  /** The container of a node that is cut out is found again by its ID, one child short. */
  lemma ParentStays(c: Container, a: seq<Seg>)
    requires UniqueIDs(c) && Has(c, a)
    requires Parent(a) != [] ==> ContainerID(c, Parent(a)) != ""
    ensures UndoParent(Cut(c, a), ContainerID(c, Parent(a))) == Some(Parent(a))
    ensures IsContainer(Cut(c, a), Parent(a)) && At(Cut(c, a), Parent(a)) == CutChild(At(c, Parent(a)), Last(a))
  {
    var d := Cut(c, a);
    GraftKeepsID(c, Parent(a), CutChild(At(c, Parent(a)), Last(a)));
    GraftAt(c, Parent(a), CutChild(At(c, Parent(a)), Last(a)));
    if Parent(a) != [] {
      CutTally(c, a, IdentOf);
      forall k | k in IDs(d) && k.id != "" ensures IDs(d)[k] == 1 {
        assert k in IDs(c);
      }
      ContainerIsFolder(d, Parent(a));
      FindUnique(d, Parent(a));
    }
  }

  /** RenameItem keeps every chain step of the collection on its target when the new name is clean and
      siblings are distinct before and after. */
  lemma RenameKeepsChains(c: Container, a: seq<Seg>, name: string, s: ChainStep)
    requires Has(c, a) && WellNamed(c) && WellNamed(RenameAt(c, a, name))
    requires AllClean(Names(c, a)) && IsClean(name)
    requires !StepTarget(c, s).NoTarget?
    ensures var m := Relabel(Names(c, a), Parent'(Names(c, a)) + [name], Last(a).F?);
            && Renamed(c, a, name) == Rewrite(RenameAt(c, a, name), m)
            && StepTarget(Renamed(c, a, name), RewriteStep(s, m)) == RewriteTarget(StepTarget(c, s), m)
  {
    RenameRelocates(c, a, name);
    CleanPathRoundTrip(Names(c, a));
    ChainStepsKeepTargets(c, a, RenameAt(c, a, name), a, s);
  }

  /** A collection with a request "L" and a request whose chain names it. */
  function StrandedExample(): Container {
    Container([], [NewRequest("1", "L"), NewRequest("2", "U").(chain := [ChainStep("x", "L", "")])])
  }

  lemma BlankPaddedName()
    ensures TrimSpace(" L") == "L" && SplitChainPath(" L") == ["L"] && SplitChainPath("L") == ["L"]
  {
    assert TrimLeft(" L") == TrimLeft("L") == "L";
    SplitFree("L", '/');
    SplitFree(" L", '/');
    CleanPiecesFixed(["L"]);
    assert [" L"][1..] == [] && CleanPieces([]) == Some([]);
    assert CleanPieces([" L"]) == Some(["L"] + []);
  }

  /** RenameItem accepts " L". The reference that named the request is rewritten, and then names
      nothing: the new name is not clean. */
  lemma RenameStrandsReference()
    ensures !Blank(" L") && !IsClean(" L")
    ensures Resolve(StrandedExample(), "L") == Some(StrandedExample().requests[0])
    ensures Has(StrandedExample(), [R(0)])
    ensures var d := Renamed(StrandedExample(), [R(0)], " L");
            |d.requests| == 2 && d.requests[1].chain == [ChainStep("x", " L", "")] && Resolve(d, " L") == None
  {
    var c := StrandedExample();
    BlankPaddedName();
    assert Parent([R(0)]) == [] && Names(c, [R(0)]) == ["L"] && Join(["L"], "/") == "L";
    SplitFree("L", '/');
    var m := Relabel(["L"], [" L"], false);
    assert Parent'(["L"]) + [" L"] == [" L"];
    var e := RenameAt(c, [R(0)], " L");
    assert e.requests == [c.requests[0].(name := " L"), c.requests[1]];
    assert [" L"] + ["L"][1..] == [" L"] && RewriteRef("L", m) == " L";
    RewriteLookup(e, ["L"], m);
    assert FirstNamed(e.requests, "L") == None by { FirstNamedMiss(e.requests, "L"); }
    assert Rewrite(e, m).requests[1].chain == [ChainStep("x", " L", "")];
  }

  /** What RenameItem makes of a reference. */
  function RenamedRef(c: Container, a: seq<Seg>, name: string, ref: string): string
    requires Has(c, a)
  {
    var path := Join(Names(c, a), "/");
    if path == "" then ref
    else RewriteRef(ref, Relabel(Split(path, '/'), Parent'(Split(path, '/')) + [name], Last(a).F?))
  }

  lemma RenamedResolves(c: Container, a: seq<Seg>, name: string, q: seq<string>)
    requires Has(c, a)
    ensures FoundID(Lookup(Renamed(c, a, name), q)) == FoundID(Lookup(RenameAt(c, a, name), q))
  {
    hide RenameAt, Lookup;
    var path := Join(Names(c, a), "/");
    if path != "" {
      var parts := Split(path, '/');
      RewriteLookup(RenameAt(c, a, name), q, Relabel(parts, Parent'(parts) + [name], Last(a).F?));
    }
  }

  /** Exactly when RenameItem keeps a reference on target, for every reference that has one. One to the node, or
      into it: the new name is clean and no earlier sibling answers for it. Any other: it still reads as it did,
      which it does unless the old path was not clean and read like it, and the node does not capture it under
      the new name. */
  lemma {:induction false} RenameKeepsRefsIff(c: Container, a: seq<Seg>, name: string, ref: string)
    requires Has(c, a) && WellNamed(c) && UniqueIDs(c)
    requires Resolve(c, ref).Some? && Resolve(c, ref).value.id != ""
    ensures Has(RenameAt(c, a, name), a)
    ensures var parts := SplitChainPath(ref);
            && (FoundID(Resolve(Renamed(c, a, name), RenamedRef(c, a, name, ref))) == FoundID(Resolve(c, ref))
                <==> if Targets(parts, Names(c, a), Last(a).F?)
                     then IsClean(name) && !SiblingTakes(At(c, Parent(a)), Last(a), name, parts[|a|..])
                     else SplitChainPath(RenamedRef(c, a, name, ref)) == parts && !Captures(RenameAt(c, a, name), a, parts))
  {
    hide Lookup, SplitChainPath, WellNamed, Renamed, RewriteRef, Relocated, UniqueIDs, SiblingTakes, RenameAt, IsClean, Captures, Rewrite;
    var parts, q := SplitChainPath(ref), SplitChainPath(RenamedRef(c, a, name, ref));
    RenameRelocates(c, a, name);
    RenamedResolves(c, a, name, q);
    if Targets(parts, Names(c, a), Last(a).F?) {
      SplitIsClean(ref);
      FrontIsClean(Names(c, a), parts);
      CleanPathRoundTrip(Names(c, a));
      RenameKeepsTargetsIff(c, a, name, ref);
      RewriteLookup(RenameAt(c, a, name), q, Relabel(Names(c, a), Parent'(Names(c, a)) + [name], Last(a).F?));
    } else {
      SameTargetIff(c, a, RenameAt(c, a, name), a, parts, q);
    }
  }

  // ----- references that a rename misdirects -----

  lemma OneName(name: string)
    requires IsClean(name)
    ensures SplitChainPath(name) == [name]
  {
    SplitFree(name, '/');
    CleanPiecesFixed([name]);
  }

  /** Requests "A" and "B", and one whose chain names "B". */
  function SiblingExample(): Container {
    Container([], [NewRequest("1", "A"), NewRequest("2", "B"), NewRequest("3", "U").(chain := [ChainStep("x", "B", "")])])
  }

  lemma SiblingNames()
    ensures IsClean("A") && IsClean("B") && SplitChainPath("A") == ["A"] && SplitChainPath("B") == ["B"]
    ensures Split("A", '/') == ["A"] && Split("B", '/') == ["B"]
  {
    OneName("A");
    OneName("B");
    SplitFree("A", '/');
    SplitFree("B", '/');
  }

  /** Renaming "B" to the clean name of its earlier sibling turns the chain to that sibling. */
  lemma RenameTurnsReference()
    ensures IsClean("A") && FoundID(Resolve(SiblingExample(), "B")) == Some("2") && Has(SiblingExample(), [R(1)])
    ensures var d := Renamed(SiblingExample(), [R(1)], "A");
            |d.requests| == 3 && d.requests[2].chain == [ChainStep("x", "A", "")] && FoundID(Resolve(d, "A")) == Some("1")
  {
    var c := SiblingExample();
    SiblingNames();
    assert Parent([R(1)]) == [] && Names(c, [R(1)]) == ["B"] && Join(["B"], "/") == "B";
    var m := Relabel(["B"], ["A"], false);
    assert Parent'(["B"]) + ["A"] == ["A"];
    var e := RenameAt(c, [R(1)], "A");
    assert e.requests == [c.requests[0], c.requests[1].(name := "A"), c.requests[2]];
    assert ["A"] + ["B"][1..] == ["A"] && RewriteRef("B", m) == "A";
    RewriteLookup(e, ["A"], m);
    assert Rewrite(e, m).requests[2].chain == [ChainStep("x", "A", "")];
    assert c.requests[1..][0] == c.requests[1];
  }

  /** Renaming "A" to the name of its later sibling captures the chain that names that sibling. */
  lemma RenameCapturesReference()
    ensures FoundID(Resolve(SiblingExample(), "B")) == Some("2") && Has(SiblingExample(), [R(0)])
    ensures var d := Renamed(SiblingExample(), [R(0)], "B");
            |d.requests| == 3 && d.requests[2].chain == [ChainStep("x", "B", "")] && FoundID(Resolve(d, "B")) == Some("1")
  {
    var c := SiblingExample();
    SiblingNames();
    assert Parent([R(0)]) == [] && Names(c, [R(0)]) == ["A"] && Join(["A"], "/") == "A";
    var m := Relabel(["A"], ["B"], false);
    assert Parent'(["A"]) + ["B"] == ["B"];
    var e := RenameAt(c, [R(0)], "B");
    assert e.requests == [c.requests[0].(name := "B"), c.requests[1], c.requests[2]];
    assert !(["A"] <= ["B"]) && RewriteRef("B", m) == "B";
    RewriteLookup(e, ["B"], m);
    assert Rewrite(e, m).requests[2].chain == [ChainStep("x", "B", "")];
    assert c.requests[1..][0] == c.requests[1];
  }

  /** A request called "a/b" beside a folder "a" with a request "b". */
  function MisreadExample(): Container {
    Container([NewFolder("1", "a").(items := Container([], [NewRequest("2", "b")]))], [NewRequest("3", "a/b")])
  }

  lemma MisreadNames()
    ensures Split("a/b", '/') == ["a", "b"] && SplitChainPath("a/b") == ["a", "b"]
    ensures SplitChainPath("a/z") == ["a", "z"] && Join(["a", "z"], "/") == "a/z"
  {
    assert "a" + ['/'] + "b" == "a/b" && "a" + ['/'] + "z" == "a/z";
    SplitCons("a", '/', "b");
    SplitCons("a", '/', "z");
    SplitFree("b", '/');
    SplitFree("z", '/');
    CleanPiecesFixed(["a", "b"]);
    CleanPiecesFixed(["a", "z"]);
    assert ["a", "z"][1..] == ["z"];
  }

  /** Renaming the request "a/b" rewrites the references to the request "b" of the folder "a". */
  lemma RenameMisreadsPath()
    ensures var c := MisreadExample();
            && Has(c, [R(0)]) && FoundID(Resolve(c, "a/b")) == Some("2")
            && RenamedRef(c, [R(0)], "z", "a/b") == "a/z" && Resolve(Renamed(c, [R(0)], "z"), "a/z") == None
  {
    var c := MisreadExample();
    MisreadNames();
    assert Parent([R(0)]) == [] && Names(c, [R(0)]) == ["a/b"] && Join(["a/b"], "/") == "a/b";
    assert ["a", "b"][1..] == ["b"] && ["a", "z"][1..] == ["z"];
    assert Lookup(c.folders[0].items, ["b"]) == Some(NewRequest("2", "b"));
    assert LookupFrom(c, 0, ["a", "b"]) == Some(NewRequest("2", "b"));
    assert Parent'(["a", "b"]) + ["z"] == ["a", "z"] && ["a", "z"] + ["a", "b"][2..] == ["a", "z"];
    var e := RenameAt(c, [R(0)], "z");
    assert e.folders == c.folders;
    assert Lookup(e.folders[0].items, ["z"]) == None;
    assert LookupFrom(e, 0, ["a", "z"]) == None;
    RewriteLookup(e, ["a", "z"], Relabel(["a", "b"], ["a", "z"], false));
  }

  /** Does `folderIDForContainer(id)` mint an ID? */
  predicate NeedsID(cols: seq<Collection>, id: NodeRef) {
    && 0 <= id.col < |cols| && id.segs != []
    && IsContainer(cols[id.col].items, id.segs) && ContainerID(cols[id.col].items, id.segs) == ""
  }

  /** The cheap tests that MoveNode makes before it touches anything. */
  predicate MoveAdmitted(cols: seq<Collection>, src: NodeRef, dst: NodeRef) {
    src.segs != [] && 0 <= src.col < |cols| && src.col == dst.col && !(src.segs <= dst.segs)
  }

  /** The tree MoveNode moves in: the old one, with missing IDs of the destination folder and of the
      moved node filled in. */
  function MoveBase(cols: seq<Collection>, src: NodeRef, dst: NodeRef, mint: nat -> string, next: nat): Container
    requires MoveAdmitted(cols, src, dst) && Exists(cols, src)
  {
    FilledExists(cols, dst, mint(next), src);
    Backfill(Filled(cols, dst, mint(next))[src.col].items, src.segs,
             mint(NextAfter(cols, dst, next)))
  }

  lemma {:induction false} FillConsistent(cols: seq<Collection>, pending: Option<DeletedNode>, mint: nat -> string, next: nat, id: NodeRef)
    requires Consistent(cols, pending, mint, next)
    ensures Consistent(Filled(cols, id, mint(next)), pending, mint, NextAfter(cols, id, next))
    ensures !NeedsID(cols, id) ==> Filled(cols, id, mint(next)) == cols
    ensures ContainerExists(cols, id) && id.segs != [] ==>
              ContainerExists(Filled(cols, id, mint(next)), id)
              && ContainerID(Filled(cols, id, mint(next))[id.col].items, id.segs) != ""
  {
    FilledExists(cols, id, mint(next), id);
    if 0 <= id.col < |cols| && id.segs != [] && IsContainer(cols[id.col].items, id.segs) {
      var c := cols[id.col].items;
      ContainerIsFolder(c, id.segs);
      BackfillKeeps(c, id.segs, mint(next));
      ContainerIsFolder(Backfill(c, id.segs, mint(next)), id.segs);
      if NeedsID(cols, id) {
        BackfillConsistent(cols, pending, mint, next, id.col, id.segs);
      } else {
        assert cols[id.col := cols[id.col]] == cols;
      }
    }
  }

  function NextAfter(cols: seq<Collection>, dst: NodeRef, next: nat): nat {
    next + if NeedsID(cols, dst) then 1 else 0
  }

  lemma {:induction false} MoveBaseMovable(cols: seq<Collection>, pending: Option<DeletedNode>, mint: nat -> string, next: nat,
                        src: NodeRef, dst: NodeRef)
    requires Consistent(cols, pending, mint, next)
    requires MoveAdmitted(cols, src, dst) && Exists(cols, src) && ContainerExists(cols, dst)
    ensures var c := MoveBase(cols, src, dst, mint, next);
            && Movable(c, src.segs, dst.segs)
            && NodeID(Pick(c, src.segs)) != ""
            && (dst.segs != [] ==> ContainerID(c, dst.segs) != "")
  {
    FillConsistent(cols, pending, mint, next, dst);
    FilledExists(cols, dst, mint(next), src);
    FilledExists(cols, dst, mint(next), dst);
    var d := Filled(cols, dst, mint(next))[src.col].items;
    var id := mint(NextAfter(cols, dst, next));
    BackfillKeeps(d, src.segs, id);
    BackfillAt(d, src.segs, id, dst.segs);
    assert dst.segs != src.segs;
    if dst.segs != [] {
      ContainerIsFolder(d, dst.segs);
      ContainerIsFolder(Backfill(d, src.segs, id), dst.segs);
    }
  }

  /** How far MoveNode advances the ID supply. */
  function MoveNext(cols: seq<Collection>, src: NodeRef, dst: NodeRef, mint: nat -> string, next: nat): nat
    requires MoveAdmitted(cols, src, dst) && Exists(cols, src)
  {
    FilledExists(cols, dst, mint(next), src);
    NextAfter(cols, dst, next) + IDCost(Pick(Filled(cols, dst, mint(next))[src.col].items, src.segs))
  }

  lemma {:induction false} MoveBaseConsistent(cols: seq<Collection>, pending: Option<DeletedNode>, mint: nat -> string, next: nat,
                           src: NodeRef, dst: NodeRef)
    requires Consistent(cols, pending, mint, next)
    requires MoveAdmitted(cols, src, dst) && Exists(cols, src)
    ensures var c := MoveBase(cols, src, dst, mint, next);
            && Consistent(WithItems(cols, src.col, c), pending, mint, MoveNext(cols, src, dst, mint, next))
            && UniqueIDs(c)
  {
    var f := Filled(cols, dst, mint(next));
    var n := NextAfter(cols, dst, next);
    FillConsistent(cols, pending, mint, next, dst);
    FilledExists(cols, dst, mint(next), src);
    var c := MoveBase(cols, src, dst, mint, next);
    BackfillConsistent(f, pending, mint, n, src.col, src.segs);
    assert WithItems(f, src.col, c) == WithItems(cols, src.col, c);
    HeldUnique(WithItems(cols, src.col, c), pending, mint, MoveNext(cols, src, dst, mint, next), src.col);
  }

  function Wanted(src: seq<Seg>, dst: seq<Seg>, index: int): int
    requires src != []
  {
    // A target index past the source moves down with the removal.
    if Parent(src) == dst && Last(src).i < index then index - 1 else index
  }

  /** The second half of MoveNode on values: the node goes into the folder with the given ID, is found
      again by its own ID, and the references are rewritten if its path is not `oldPath`. */
  function Reinserted(c: Container, folderID: string, n: Node, index: int, oldPath: string): (Container, seq<Seg>)
    requires UndoParent(c, folderID).Some?
  {
    PlaceFits(c, folderID, n, index);
    var d := Placed(c, folderID, n, index);
    CutPaste(c, PlaceFor(c, folderID, n, index), n);
    FindComplete(d, PlaceFor(c, folderID, n, index));
    FindSound(d, NodeIdent(n));
    var b := Find(d, NodeIdent(n)).value;
    (Cascaded(d, b, oldPath), b)
  }

  /** After the source is out, the destination is found by its ID, and reinserting there gives the
      specified tree and address. */
  lemma ReinsertIsMove(c: Container, src: seq<Seg>, dst: seq<Seg>, index: int)
    requires Movable(c, src, dst) && UniqueIDs(c) && NodeID(Pick(c, src)) != ""
    requires dst != [] ==> ContainerID(c, dst) != ""
    ensures UndoParent(Cut(c, src), ContainerID(c, dst)) == Some(Shift(dst, src))
    ensures Reinserted(Cut(c, src), ContainerID(c, dst), Pick(c, src), Wanted(src, dst, index), Join(Names(c, src), "/"))
            == (MovedAndCascaded(c, src, dst, index), Landing(c, src, dst, index))
  {
    ShiftTracks(c, dst, src);
    LandingFits(c, src, dst, index);
    if dst != [] { DestinationFound(c, src, dst); }
    var folderID := ContainerID(c, dst);
    PlaceFits(Cut(c, src), folderID, Pick(c, src), Wanted(src, dst, index));
    assert PlaceFor(Cut(c, src), folderID, Pick(c, src), Wanted(src, dst, index)) == Landing(c, src, dst, index);
    MovedNodeFound(c, src, dst, index);
    MovedRelocates(c, src, dst, index);
  }

  lemma {:induction false} HeldUnique(cols: seq<Collection>, pending: Option<DeletedNode>, mint: nat -> string, next: nat, ci: nat)
    requires Consistent(cols, pending, mint, next) && ci < |cols|
    ensures UniqueIDs(cols[ci].items)
  {
    forall k | k in IDs(cols[ci].items) && k.id != "" ensures IDs(cols[ci].items)[k] == 1 {
      assert k in Held(cols, pending, ci) && Held(cols, pending, ci)[k] >= IDs(cols[ci].items)[k];
    }
  }

  lemma {:induction false} MoveConsistent(cols: seq<Collection>, pending: Option<DeletedNode>, mint: nat -> string, next: nat,
                       ci: nat, c: Container, src: seq<Seg>, dst: seq<Seg>, index: int)
    requires ci < |cols| && Consistent(WithItems(cols, ci, c), pending, mint, next)
    requires Movable(c, src, dst)
    ensures Consistent(WithItems(cols, ci, MovedAndCascaded(c, src, dst, index)), pending, mint, next)
  {
    var d := Moved(c, src, dst, index);
    MoveConserves(c, src, dst, index, IdentOf);
    MovedRelocates(c, src, dst, index);
    var before := Join(Names(c, src), "/");
    var after := Join(Names(d, Landing(c, src, dst, index)), "/");
    RewriteIDs(d, Relabel(Split(before, '/'), Split(after, '/'), Last(src).F?));
    var w := WithItems(cols, ci, c);
    var e := MovedAndCascaded(c, src, dst, index);
    SameIDsConsistent(w, pending, mint, next, ci, w[ci].(items := e));
    assert w[ci := w[ci].(items := e)] == WithItems(cols, ci, e);
  }

  /** With the source out, is the destination still to be found by its model ID? */
  ghost predicate DestinationSurvives(cols: seq<Collection>, src: NodeRef, dst: NodeRef, mint: nat -> string, next: nat)
    requires MoveAdmitted(cols, src, dst) && Exists(cols, src) && ContainerExists(cols, dst)
  {
    FilledExists(cols, dst, mint(next), dst);
    FilledExists(cols, dst, mint(next), src);
    var f := Filled(cols, dst, mint(next))[src.col].items;
    BackfillKeeps(f, src.segs, mint(NextAfter(cols, dst, next)));
    UndoParent(Cut(MoveBase(cols, src, dst, mint, next), src.segs), ContainerID(f, dst.segs)).Some?
  }

  /** The steps of MoveNode, one after the other, on values. */
  function MoveSteps(cols: seq<Collection>, src: NodeRef, dst: NodeRef, index: int, mint: nat -> string, next: nat)
    : (Container, seq<Seg>)
    requires MoveAdmitted(cols, src, dst) && Exists(cols, src) && ContainerExists(cols, dst)
    requires DestinationSurvives(cols, src, dst, mint, next)
  {
    FilledExists(cols, dst, mint(next), dst);
    FilledExists(cols, dst, mint(next), src);
    var f := Filled(cols, dst, mint(next))[src.col].items;
    BackfillKeeps(f, src.segs, mint(NextAfter(cols, dst, next)));
    var c := MoveBase(cols, src, dst, mint, next);
    Reinserted(Cut(c, src.segs), ContainerID(f, dst.segs), Pick(c, src.segs), Wanted(src.segs, dst.segs, index),
               Join(Names(f, src.segs), "/"))
  }

  /** The destination never goes away, the steps add up to the specified move, and the invariant holds. */
  lemma {:induction false} MoveReady(cols: seq<Collection>, pending: Option<DeletedNode>, mint: nat -> string, next: nat,
                  src: NodeRef, dst: NodeRef, index: int)
    requires Consistent(cols, pending, mint, next)
    requires MoveAdmitted(cols, src, dst) && Exists(cols, src) && ContainerExists(cols, dst)
    ensures var c := MoveBase(cols, src, dst, mint, next);
            && DestinationSurvives(cols, src, dst, mint, next)
            && Movable(c, src.segs, dst.segs)
            && MoveSteps(cols, src, dst, index, mint, next)
               == (MovedAndCascaded(c, src.segs, dst.segs, index), Landing(c, src.segs, dst.segs, index))
            && Consistent(WithItems(cols, src.col, MovedAndCascaded(c, src.segs, dst.segs, index)), pending, mint,
                          MoveNext(cols, src, dst, mint, next))
  {
    var c := MoveBase(cols, src, dst, mint, next);
    MoveBaseNames(cols, src, dst, mint, next);
    MoveBaseMovable(cols, pending, mint, next, src, dst);
    MoveBaseConsistent(cols, pending, mint, next, src, dst);
    ReinsertIsMove(c, src.segs, dst.segs, index);
    MoveConsistent(cols, pending, mint, MoveNext(cols, src, dst, mint, next), src.col, c, src.segs, dst.segs, index);
  }

  /** Back-filling does not change the path the cascade starts from, nor where the destination is. */
  lemma {:induction false} MoveBaseNames(cols: seq<Collection>, src: NodeRef, dst: NodeRef, mint: nat -> string, next: nat)
    requires MoveAdmitted(cols, src, dst) && Exists(cols, src) && ContainerExists(cols, dst)
    ensures var f := Filled(cols, dst, mint(next));
            var c := MoveBase(cols, src, dst, mint, next);
            && Exists(f, src) && ContainerExists(f, dst) && Has(c, src.segs)
            && Names(c, src.segs) == Names(f[src.col].items, src.segs)
            && IsContainer(c, dst.segs)
            && ContainerID(c, dst.segs) == ContainerID(f[src.col].items, dst.segs)
  {
    FilledExists(cols, dst, mint(next), src);
    FilledExists(cols, dst, mint(next), dst);
    var d := Filled(cols, dst, mint(next))[src.col].items;
    var id := mint(NextAfter(cols, dst, next));
    BackfillNames(d, src.segs, id);
    BackfillAt(d, src.segs, id, dst.segs);
    assert dst.segs != src.segs;
    if dst.segs != [] {
      ContainerIsFolder(d, dst.segs);
      ContainerIsFolder(Backfill(d, src.segs, id), dst.segs);
    }
  }
}
