/** The tree mutators of `internal/session/items.go` as methods of a session. */
module Session {
  import opened Text
  import opened Model
  import opened Tree
  import opened Census
  import opened ChainRefs
  import opened Cascade
  import opened MoveNode
  import opened Edits

  class Session {
    var cols: seq<Collection>
    var lastDeleted: Option<DeletedNode>
    const mint: nat -> string // model.NewID: its k-th answer
    var minted: nat

    ghost predicate Valid()
      reads this
    {
      Consistent(cols, lastDeleted, mint, minted)
    }

    method NewID() returns (id: string)
      modifies this`minted
      ensures id == mint(old(minted)) && minted == old(minted) + 1
    {
      id := mint(minted);
      minted := minted + 1;
    }

    /** `containerAtPtr`, reading. */
    method ContainerAt(id: NodeRef) returns (r: Option<Container>)
      ensures r.Some? <==> ContainerExists(cols, id)
      ensures r.Some? ==> r.value == At(cols[id.col].items, id.segs)
    {
      if id.col < 0 || id.col >= |cols| {
        return None;
      }
      var c := cols[id.col].items;
      for i := 0 to |id.segs|
        invariant IsContainer(cols[id.col].items, id.segs) <==> IsContainer(c, id.segs[i..])
        invariant IsContainer(c, id.segs[i..]) ==> At(c, id.segs[i..]) == At(cols[id.col].items, id.segs)
      {
        var s := id.segs[i];
        assert id.segs[i..][1..] == id.segs[i + 1..];
        if !s.F? || s.i < 0 || s.i >= |c.folders| {
          return None;
        }
        c := c.folders[s.i].items;
      }
      r := Some(c);
    }

    /** Writing back through the pointers that `containerAtPtr` returns. */
    method StoreAt(id: NodeRef, d: Container)
      requires ContainerExists(cols, id)
      modifies this`cols
      ensures cols == WithItems(old(cols), id.col, Graft(old(cols)[id.col].items, id.segs, d))
    {
      cols := WithItems(cols, id.col, Graft(cols[id.col].items, id.segs, d));
    }

    /** `nodeNamePath`, on an ID that names a folder or request. */
    method NodeNamePath(id: NodeRef) returns (path: string)
      ensures id.segs != [] && Exists(cols, id) ==> path == Join(Names(cols[id.col].items, id.segs), "/")
    {
      if |id.segs| < 1 || id.col < 0 || id.col >= |cols| {
        return "";
      }
      var c := cols[id.col].items;
      var parts: seq<string> := [];
      ghost var there := Exists(cols, id);
      for i := 0 to |id.segs|
        invariant there ==> i < |id.segs| ==> Has(c, id.segs[i..])
        invariant there && i < |id.segs| ==> Names(cols[id.col].items, id.segs) == parts + Names(c, id.segs[i..])
        invariant there && i == |id.segs| ==> Names(cols[id.col].items, id.segs) == parts
      {
        var s := id.segs[i];
        ghost var rest := id.segs[i..];
        assert rest[1..] == id.segs[i + 1..];
        if there {
          if |rest| > 1 { Descend(c, rest); } else { assert Parent(rest) == []; }
        }
        if s.F? {
          if s.i < 0 || s.i >= |c.folders| {
            return "";
          }
          parts := parts + [c.folders[s.i].name];
          c := c.folders[s.i].items;
        } else {
          if s.i < 0 || s.i >= |c.requests| {
            return "";
          }
          parts := parts + [c.requests[s.i].name];
        }
      }
      path := Join(parts, "/");
    }

    method RenameItem(id: NodeRef, name: string) returns (r: Result<()>)
      requires Valid()
      modifies this`cols
      ensures Valid()
      ensures r.Ok? <==> !Blank(name) && Exists(old(cols), id)
      ensures r.Err? ==> cols == old(cols)
      ensures r.Ok? && id.segs == [] ==> cols == old(cols)[id.col := old(cols)[id.col].(name := name)]
      ensures r.Ok? && id.segs != [] ==>
                cols == WithItems(old(cols), id.col, Renamed(old(cols)[id.col].items, id.segs, name))
    {
      if TrimSpace(name) == "" {
        return Err("name cannot be empty");
      }
      var oldPath := NodeNamePath(id);
      if id.segs == [] {
        if id.col < 0 || id.col >= |cols| {
          return Err("invalid collection index");
        }
        SameIDsConsistent(cols, lastDeleted, mint, minted, id.col, cols[id.col].(name := name));
        cols := cols[id.col := cols[id.col].(name := name)];
        return Ok(());
      }
      var named := SetName(id, name);
      if !named {
        return Err("invalid node");
      }
      if oldPath != "" {
        var oldParts := Split(oldPath, '/');
        var newParts := oldParts[|oldParts| - 1 := name];
        assert newParts == Parent'(oldParts) + [name];
        var items := CascadeChainRefs(cols[id.col].items, oldParts, newParts, Last(id.segs).F?);
        cols := WithItems(cols, id.col, items);
      }
      RenamedIDs(old(cols)[id.col].items, id.segs, name);
      SameIDsConsistent(old(cols), lastDeleted, mint, minted, id.col, cols[id.col]);
      assert cols == old(cols)[id.col := cols[id.col]];
      return Ok(());
    }

    /** The assignment to the name of a folder or request. */
    method SetName(id: NodeRef, name: string) returns (ok: bool)
      requires id.segs != []
      modifies this`cols
      ensures ok <==> Exists(old(cols), id)
      ensures !ok ==> cols == old(cols)
      ensures ok ==> cols == WithItems(old(cols), id.col, RenameAt(old(cols)[id.col].items, id.segs, name))
    {
      var parent := NodeRef(id.col, Parent(id.segs));
      var s := Last(id.segs);
      var at := ContainerAt(parent);
      if at == None || s.i < 0 || s.i >= Room(at.value, s) {
        return false;
      }
      var d := at.value;
      if s.F? {
        StoreAt(parent, d.(folders := d.folders[s.i := d.folders[s.i].(name := name)]));
      } else {
        StoreAt(parent, d.(requests := d.requests[s.i := d.requests[s.i].(name := name)]));
      }
      return true;
    }

    method DeleteItem(id: NodeRef) returns (r: Result<()>)
      requires Valid()
      modifies this
      ensures Valid()
      ensures r.Ok? <==> id.segs != [] && Exists(old(cols), id)
      ensures r.Err? ==> lastDeleted == old(lastDeleted)
      ensures r.Err? ==> cols == if id.segs == [] then old(cols) else Filled(old(cols), ParentRef(id), mint(old(minted)))
      ensures r.Ok? ==>
                var filled := Filled(old(cols), ParentRef(id), mint(old(minted)));
                && Exists(filled, id)
                && var c := filled[id.col].items;
                   && cols == WithItems(filled, id.col, Cut(c, id.segs))
                   && lastDeleted == Some(DeletedNode(ContainerID(c, Parent(id.segs)), Last(id.segs).i, id.col, Pick(c, id.segs)))
                   && (Parent(id.segs) != [] ==> lastDeleted.value.parentFolderID != "")
    {
      if id.segs == [] {
        return Err("collections are removed via workspace management");
      }
      var parent := NodeRef(id.col, Parent(id.segs));
      FilledExists(cols, parent, mint(minted), id);
      FillConsistent(cols, lastDeleted, mint, minted, parent);
      var parentID := FolderIDForContainer(parent);
      var at := ContainerAt(parent);
      var s := Last(id.segs);
      if at == None || s.i < 0 || s.i >= Room(at.value, s) {
        return Err("invalid node");
      }
      ghost var filled, pending := cols, lastDeleted;
      ghost var c := cols[id.col].items;
      var d := at.value;
      if s.F? {
        lastDeleted := Some(DeletedNode(parentID.GetOr(""), s.i, id.col, FolderNode(d.folders[s.i])));
        StoreAt(parent, d.(folders := Delete(d.folders, s.i)));
      } else {
        lastDeleted := Some(DeletedNode(parentID.GetOr(""), s.i, id.col, RequestNode(d.requests[s.i])));
        StoreAt(parent, d.(requests := Delete(d.requests, s.i)));
      }
      DeleteConsistent(filled, pending, mint, minted, id.col, id.segs, lastDeleted.value);
      return Ok(());
    }

    /** `folderIDForContainer`: the model ID of a container, filled in when the folder has none. */
    method FolderIDForContainer(id: NodeRef) returns (folderID: Option<string>)
      requires Supply(mint)
      modifies this`cols, this`minted
      ensures folderID.Some? <==> ContainerExists(old(cols), id)
      ensures folderID.None? ==> cols == old(cols)
      ensures folderID.Some? ==> cols == Filled(old(cols), id, mint(old(minted)))
      ensures folderID.Some? ==> ContainerExists(cols, id) && folderID.value == ContainerID(cols[id.col].items, id.segs)
      ensures folderID.Some? && id.segs != [] ==> folderID.value != ""
      ensures minted == NextAfter(old(cols), id, old(minted))
    {
      if id.segs == [] {
        return if 0 <= id.col < |cols| then Some("") else None;
      }
      var s := Last(id.segs);
      if !s.F? {
        ContainerIsFolder(if 0 <= id.col < |cols| then cols[id.col].items else EMPTY, id.segs);
        return None;
      }
      var parent := NodeRef(id.col, Parent(id.segs));
      var at := ContainerAt(parent);
      if 0 <= id.col < |cols| { ContainerIsFolder(cols[id.col].items, id.segs); }
      if at == None || s.i < 0 || s.i >= |at.value.folders| {
        return None;
      }
      ghost var c := cols[id.col].items;
      if at.value.folders[s.i].id == "" {
        var fresh_ := NewID();
        var d := at.value;
        StoreAt(parent, d.(folders := d.folders[s.i := d.folders[s.i].(id := fresh_)]));
        BackfillInPlace(c, id.segs, fresh_);
      }
      assert cols == Filled(old(cols), id, mint(old(minted)));
      ghost var c' := cols[id.col].items;
      BackfillKeeps(c, id.segs, mint(old(minted)));
      ContainerIsFolder(c', id.segs);
      var now := ContainerAt(parent);
      return Some(now.value.folders[s.i].id);
    }

    /** Find the container with the given folder ID, wherever it is now, and insert a node there at the
        clamped index: what undo and move have in common. */
    method PutIn(ci: nat, folderID: string, node: Node, index: int) returns (place: Option<seq<Seg>>)
      requires ci < |cols|
      modifies this`cols
      ensures place.Some? <==> UndoParent(old(cols)[ci].items, folderID).Some?
      ensures place.None? ==> cols == old(cols)
      ensures place.Some? ==> place.value == PlaceFor(old(cols)[ci].items, folderID, node, index)
      ensures place.Some? ==> cols == WithItems(old(cols), ci, Placed(old(cols)[ci].items, folderID, node, index))
    {
      var p := UndoParent(cols[ci].items, folderID); // containerByFolderID
      if p == None {
        return None;
      }
      PlaceFits(cols[ci].items, folderID, node, index);
      var target := NodeRef(ci, p.value);
      var at := ContainerAt(target);
      var d := at.value;
      match node {
        case FolderNode(f) =>
          var i := Clamp(index, |d.folders|);
          StoreAt(target, d.(folders := Insert(d.folders, i, f)));
          return Some(p.value + [F(i)]);
        case RequestNode(q) =>
          var i := Clamp(index, |d.requests|);
          StoreAt(target, d.(requests := Insert(d.requests, i, q)));
          return Some(p.value + [R(i)]);
      }
    }

    /** Undo of the last delete. */
    method RestoreLastDeleted() returns (r: Result<NodeRef>)
      requires Valid()
      modifies this
      ensures Valid()
      ensures r.Ok? <==> old(lastDeleted).Some? &&
                         UndoParent(old(cols)[old(lastDeleted).value.col].items, old(lastDeleted).value.parentFolderID).Some?
      ensures r.Err? ==> cols == old(cols) && lastDeleted == old(lastDeleted)
      ensures r.Ok? ==>
                var gone := old(lastDeleted).value;
                var c := old(cols)[gone.col].items;
                && CanPaste(c, UndoAddress(c, gone), gone.node)
                && cols == WithItems(old(cols), gone.col, Paste(c, UndoAddress(c, gone), gone.node))
                && r.value == NodeRef(gone.col, UndoAddress(c, gone))
                && lastDeleted == None // so undo cannot fire twice
    {
      if lastDeleted == None {
        return Err("nothing to undo");
      }
      var gone := lastDeleted.value;
      ghost var before := cols;
      var place := PutIn(gone.col, gone.parentFolderID, gone.node, gone.index);
      if place == None {
        return Err("cannot restore: parent container is gone");
      }
      PlaceFits(before[gone.col].items, gone.parentFolderID, gone.node, gone.index);
      RestoreConsistent(before, gone, mint, minted, place.value);
      lastDeleted := None;
      return Ok(NodeRef(gone.col, place.value));
    }

    /** Delete followed at once by undo: the same tree (up to a parent ID filled in) and the same node ID. */
    method DeleteAndUndo(id: NodeRef) returns (r: Result<NodeRef>)
      requires Valid()
      requires id.segs != [] && Exists(cols, id)
      modifies this
      ensures Valid() && lastDeleted == None
      ensures r == Ok(id)
      ensures cols == Filled(old(cols), ParentRef(id), mint(old(minted)))
    {
      var deleted := DeleteItem(id);
      ghost var filled := Filled(old(cols), ParentRef(id), mint(old(minted)));
      ghost var c := filled[id.col].items;
      assert UniqueIDs(c) by {
        CutTally(c, id.segs, IdentOf);
        assert Held(cols, lastDeleted, id.col) == IDs(c);
      }
      DeleteThenUndo(c, id.segs, lastDeleted.value);
      r := RestoreLastDeleted();
      assert cols == filled;
    }

    method DuplicateItem(id: NodeRef) returns (r: Result<NodeRef>)
      requires Valid()
      modifies this`cols, this`minted
      ensures Valid()
      ensures r.Ok? <==> id.segs != [] && Exists(old(cols), id)
      ensures r.Err? ==> cols == old(cols)
      ensures r.Ok? ==>
                var c := old(cols)[id.col].items;
                var b := CopyAddress(id.segs);
                var copy := CopyNode(Pick(c, id.segs), mint, old(minted));
                && CanPaste(c, b, copy)
                && cols == WithItems(old(cols), id.col, Paste(c, b, copy))
                && r.value == NodeRef(id.col, b)
    {
      if id.segs == [] {
        return Err("not duplicable");
      }
      var parent := NodeRef(id.col, Parent(id.segs));
      var s := Last(id.segs);
      var at := ContainerAt(parent);
      if at == None || s.i < 0 || s.i >= Room(at.value, s) {
        return Err("invalid node");
      }
      var d := at.value;
      var orig := ChildAt(d, s);
      var copy := CopyNode(orig, mint, minted);
      DuplicateConsistent(cols, lastDeleted, mint, minted, id.col, id.segs);
      minted := minted + CopyCost(orig);
      StoreAt(parent, PasteChild(d, SegLike(s, s.i + 1), copy));
      return Ok(NodeRef(id.col, CopyAddress(id.segs)));
    }

    method AddRequest(parent: NodeRef, name: string) returns (r: Result<NodeRef>)
      requires Valid()
      modifies this`cols, this`minted
      ensures Valid()
      ensures r.Ok? <==> !Blank(name) && ContainerExists(old(cols), parent)
      ensures r.Err? ==> cols == old(cols)
      ensures r.Ok? ==>
                var c := old(cols)[parent.col].items;
                var b := parent.segs + [R(|At(c, parent.segs).requests|)];
                var n := RequestNode(NewRequest(mint(old(minted)), name));
                && n.request.name == name && n.request.httpMethod == "GET" && n.request.chain == []
                && CanPaste(c, b, n)
                && cols == WithItems(old(cols), parent.col, Paste(c, b, n))
                && r.value == NodeRef(parent.col, b)
    {
      var at := ContainerAt(parent);
      if at == None {
        return Err("invalid parent");
      }
      if TrimSpace(name) == "" {
        return Err("name cannot be empty");
      }
      var d := at.value;
      ghost var b := parent.segs + [R(|d.requests|)];
      assert Parent(b) == parent.segs;
      var id := NewID();
      ghost var n := RequestNode(NewRequest(id, name));
      PasteConsistent(cols, lastDeleted, mint, minted - 1, minted, parent.col, b, n);
      assert d.requests + [NewRequest(id, name)] == Insert(d.requests, |d.requests|, NewRequest(id, name));
      StoreAt(parent, d.(requests := d.requests + [NewRequest(id, name)]));
      return Ok(NodeRef(parent.col, parent.segs + [R(|d.requests|)]));
    }

    method AddFolder(parent: NodeRef, name: string) returns (r: Result<NodeRef>)
      requires Valid()
      modifies this`cols, this`minted
      ensures Valid()
      ensures r.Ok? <==> !Blank(name) && ContainerExists(old(cols), parent)
      ensures r.Err? ==> cols == old(cols)
      ensures r.Ok? ==>
                var c := old(cols)[parent.col].items;
                var b := parent.segs + [F(|At(c, parent.segs).folders|)];
                var n := FolderNode(NewFolder(mint(old(minted)), name));
                && n.folder.name == name && n.folder.items == Container([], [])
                && CanPaste(c, b, n)
                && cols == WithItems(old(cols), parent.col, Paste(c, b, n))
                && r.value == NodeRef(parent.col, b)
    {
      var at := ContainerAt(parent);
      if at == None {
        return Err("invalid parent");
      }
      if TrimSpace(name) == "" {
        return Err("name cannot be empty");
      }
      var d := at.value;
      ghost var b := parent.segs + [F(|d.folders|)];
      assert Parent(b) == parent.segs;
      var id := NewID();
      ghost var n := FolderNode(NewFolder(id, name));
      assert IDs(n.folder.items) == IDs(EMPTY) == multiset{};
      assert TallyNode(n, IdentOf) == multiset{FolderID(id)};
      PasteConsistent(cols, lastDeleted, mint, minted - 1, minted, parent.col, b, n);
      assert d.folders + [NewFolder(id, name)] == Insert(d.folders, |d.folders|, NewFolder(id, name));
      StoreAt(parent, d.(folders := d.folders + [NewFolder(id, name)]));
      return Ok(NodeRef(parent.col, parent.segs + [F(|d.folders|)]));
    }

    /** The first half of MoveNode: pull the item out of its container, minting an ID if it has none. */
    method PullOut(src: NodeRef) returns (moved: Option<Node>)
      requires src.segs != []
      modifies this`cols, this`minted
      ensures moved.Some? <==> Exists(old(cols), src)
      ensures moved.None? ==> cols == old(cols) && minted == old(minted)
      ensures moved.Some? ==>
                var c := Backfill(old(cols)[src.col].items, src.segs, mint(old(minted)));
                && Has(c, src.segs) && moved.value == Pick(c, src.segs)
                && cols == WithItems(old(cols), src.col, Cut(c, src.segs))
      ensures moved.Some? ==> minted == old(minted) + IDCost(Pick(old(cols)[src.col].items, src.segs))
    {
      var parent := NodeRef(src.col, Parent(src.segs));
      var s := Last(src.segs);
      var at := ContainerAt(parent);
      if at == None || s.i < 0 || s.i >= Room(at.value, s) {
        return None;
      }
      BackfillKeeps(cols[src.col].items, src.segs, mint(minted));
      var node := ChildAt(at.value, s);
      if NodeID(node) == "" {
        var id := NewID();
        node := SetNodeID(node, id);
      }
      StoreAt(parent, CutChild(at.value, s));
      return Some(node);
    }

    method MoveNode(src: NodeRef, dst: NodeRef, index: int) returns (r: Result<NodeRef>)
      requires Valid()
      modifies this`cols, this`minted
      ensures Valid()
      ensures r.Ok? <==> MoveAdmitted(old(cols), src, dst) && Exists(old(cols), src) && ContainerExists(old(cols), dst)
      ensures r.Err? ==> cols == if MoveAdmitted(old(cols), src, dst) then Filled(old(cols), dst, mint(old(minted))) else old(cols)
      ensures r.Ok? ==>
                var c := MoveBase(old(cols), src, dst, mint, old(minted));
                && Movable(c, src.segs, dst.segs)
                && cols == WithItems(old(cols), src.col, MovedAndCascaded(c, src.segs, dst.segs, index))
                && r.value == NodeRef(src.col, Landing(c, src.segs, dst.segs, index))
    {
      hide Filled, MoveBase, MovedAndCascaded, Landing, MoveSteps, MoveNext, NextAfter, DestinationSurvives, Consistent,
           Exists, ContainerExists, Movable, WithItems;
      if src.segs == [] {
        return Err("not movable");
      }
      var ci := src.col;
      if ci < 0 || ci >= |cols| {
        return Err("invalid node");
      }
      if ci != dst.col {
        return Err("cross-collection moves are not supported");
      }
      if src.segs <= dst.segs {
        return Err("cannot move a folder into itself");
      }
      FillConsistent(cols, lastDeleted, mint, minted, dst);
      FilledExists(cols, dst, mint(minted), src);
      if Exists(cols, src) && ContainerExists(cols, dst) {
        MoveReady(cols, lastDeleted, mint, minted, src, dst, index);
      }
      r := MoveWithin(src, dst, index);
    }

    /** MoveNode after its first tests. */
    method MoveWithin(src: NodeRef, dst: NodeRef, index: int) returns (r: Result<NodeRef>)
      requires Supply(mint)
      requires MoveAdmitted(cols, src, dst)
      requires Exists(cols, src) && ContainerExists(cols, dst) ==> DestinationSurvives(cols, src, dst, mint, minted)
      modifies this`cols, this`minted
      ensures r.Ok? <==> Exists(old(cols), src) && ContainerExists(old(cols), dst)
      ensures r.Err? ==> cols == Filled(old(cols), dst, mint(old(minted))) && minted == NextAfter(old(cols), dst, old(minted))
      ensures r.Ok? ==>
                var (d, b) := MoveSteps(old(cols), src, dst, index, mint, old(minted));
                && cols == WithItems(old(cols), src.col, d) && r.value == NodeRef(src.col, b)
                && minted == MoveNext(old(cols), src, dst, mint, old(minted))
    {
      hide Names, Backfill, Cascaded, Rewrite, Join, Find;
      FilledExists(cols, dst, mint(minted), src);
      var dstFolderID := FolderIDForContainer(dst);
      if dstFolderID == None {
        return Err("invalid drop target");
      }
      var oldPath := NodeNamePath(src);
      var moved := PullOut(src);
      if moved == None {
        return Err("invalid node");
      }
      var landed := Reinsert(src.col, dstFolderID.value, moved.value, Wanted(src.segs, dst.segs, index), oldPath);
      return Ok(landed);
    }

    /** Put the moved node into its destination, find out where it is now, and cascade. */
    method Reinsert(ci: nat, folderID: string, node: Node, index: int, oldPath: string) returns (landed: NodeRef)
      requires ci < |cols| && UndoParent(cols[ci].items, folderID).Some?
      modifies this`cols
      ensures var (d, b) := Reinserted(old(cols)[ci].items, folderID, node, index, oldPath);
              landed == NodeRef(ci, b) && cols == WithItems(old(cols), ci, d)
    {
      ghost var c := cols[ci].items;
      PlaceFits(c, folderID, node, index);
      CutPaste(c, PlaceFor(c, folderID, node, index), node);
      var place := PutIn(ci, folderID, node, index);
      FindComplete(cols[ci].items, place.value);
      FindSound(cols[ci].items, NodeIdent(node));
      landed := NodeRef(ci, Find(cols[ci].items, NodeIdent(node)).value); // nodeIDOfModel
      CascadeMove(landed, oldPath);
    }

    /** The end of MoveNode: rewrite the references when the path of the node has changed. */
    method CascadeMove(landed: NodeRef, oldPath: string)
      requires landed.segs != [] && Exists(cols, landed)
      modifies this`cols
      ensures cols == WithItems(old(cols), landed.col, Cascaded(old(cols)[landed.col].items, landed.segs, oldPath))
    {
      if oldPath != "" {
        var newPath := NodeNamePath(landed);
        if newPath != "" && newPath != oldPath {
          var items := CascadeChainRefs(cols[landed.col].items, Split(oldPath, '/'), Split(newPath, '/'), Last(landed.segs).F?);
          cols := WithItems(cols, landed.col, items);
        }
      }
    }
  }
}
