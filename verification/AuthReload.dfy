/** What a save and a load do to auth inheritance: a request with an empty auth type comes back as one
    that inherits, so what it is sent with must not change. */
module AuthReload {
  import opened Text
  import opened Model
  import opened Tree
  import opened OpenCollection
  import opened StoreRoundTrip
  import opened SaveLoad
  import opened AuthSnapshot

  lemma {:induction false} SameContainers(was: Container, now: Container, p: seq<Seg>)
    requires Restored(was, now)
    ensures IsContainer(now, p) <==> IsContainer(was, p)
    ensures IsContainer(was, p) ==>
              && Restored(At(was, p), At(now, p))
              && PathAuths(now, p) == StoredAuths(PathAuths(was, p))
    decreases |p|
  {
    hide StoredAuth, StoredRequest;
    if p != [] && Opens(was, p[0]) {
      assert FolderRestored(was.folders[p[0].i], now.folders[p[0].i]);
      SameContainers(Sub(was, p[0]), Sub(now, p[0]), p[1..]);
    }
  }

  /** Folder auths as storing leaves them. */
  function StoredAuths(auths: seq<Auth>): (r: seq<Auth>)
    ensures |r| == |auths|
  {
    seq(|auths|, i requires 0 <= i < |auths| => StoredAuth(auths[i], "inherit"))
  }

  /** Inheriting through stored auths, innermost first with the collection's last, gives what was
      inherited, less the blocks of other types. */
  lemma {:induction false} StoredInherits(folders: seq<Auth>, root: Auth)
    ensures FirstConcrete(StoredAuths(folders) + [StoredAuth(root, "none")]) == OnType(FirstConcrete(folders + [root]))
  {
    hide OnType;
    assert OnType(BareAuth("none")) == BareAuth("none") by { NothingSelected(); }
    if folders == [] {
      assert StoredAuths([]) + [StoredAuth(root, "none")] == [StoredAuth(root, "none")];
      assert folders + [root] == [root];
      SameType(root);
    } else {
      SameType(folders[0]);
      StoredInherits(folders[1..], root);
      assert (folders + [root])[1..] == folders[1..] + [root];
      assert StoredAuths(folders)[1..] == StoredAuths(folders[1..]);
      assert (StoredAuths(folders) + [StoredAuth(root, "none")])[1..] == StoredAuths(folders[1..]) + [StoredAuth(root, "none")];
    }
  }

  lemma NothingSelected()
    ensures OnType(BareAuth("none")) == BareAuth("none")
  {
  }

  lemma SameType(a: Auth)
    ensures OnType(a).typ == a.typ
  {
  }

  lemma {:induction false} ReversedStored(auths: seq<Auth>)
    ensures Reverse(StoredAuths(auths)) == StoredAuths(Reverse(auths))
  {
  }

  /** Every request of a collection that has been saved and loaded has the effective auth it had, but for
      blocks of a type that is not selected. */
  lemma {:induction false} ReloadKeepsAuth(was: Collection, now: Collection, a: seq<Seg>)
    requires CollectionRestored(was, now) && Has(was.items, a) && Last(a).R?
    ensures Has(now.items, a) && Effective(now, a) == OnType(Effective(was, a))
  {
    hide OnType, StoredAuth;
    var p := Parent(a);
    SameContainers(was.items, now.items, p);
    var r := Pick(was.items, a).request;
    assert Pick(now.items, a).request == StoredRequest(r, Pick(now.items, a).request.id);
    var auths := PathAuths(was.items, p);
    ReverseCons(was.auth, auths);
    ReverseCons(now.auth, StoredAuths(auths));
    ReversedStored(auths);
    StoredInherits(Reverse(auths), was.auth);
    StoredAuthIs(r.auth);
  }

  lemma StoredAuthIs(a: Auth)
    ensures StoredAuth(a, "inherit") == if Configures(a) then OnType(a) else BareAuth("inherit")
    ensures OnType(a).typ == a.typ
  {
  }

  lemma {:induction false} ReverseCons<T>(x: T, s: seq<T>)
    ensures Reverse([x] + s) == Reverse(s) + [x]
  {
  }
}
