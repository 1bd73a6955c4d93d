/** Auth inheritance, computed twice: live, by walking up from a node ID, and frozen, by walking down
    while the chain finder's snapshot is cloned. */
module AuthSnapshot {
  import opened Text
  import opened Model
  import opened Tree
  import opened Census
  import opened ChainRefs

  // ----- auth.Resolve -----

  predicate Inherits(a: Auth) {
    a.typ == AUTH_INHERIT || a.typ == ""
  }

  function FirstConcrete(ancestors: seq<Auth>): Auth {
    if ancestors == [] then BareAuth(AUTH_NONE)
    else if !Inherits(ancestors[0]) then ancestors[0]
    else FirstConcrete(ancestors[1..])
  }

  /** `auth.Resolve`: ancestors are given innermost first. */
  function Resolve(own: Auth, ancestors: seq<Auth>): Auth {
    if !Inherits(own) then own else FirstConcrete(ancestors)
  }

  function Reverse<T>(s: seq<T>): (r: seq<T>)
    ensures |r| == |s|
    ensures forall i :: 0 <= i < |s| ==> r[i] == s[|s| - 1 - i]
  {
    if s == [] then [] else Reverse(s[1..]) + [s[0]]
  }

  lemma ReverseAppend<T>(s: seq<T>, x: T)
    ensures Reverse(s + [x]) == [x] + Reverse(s)
  {
  }

  // ----- the live walk, upwards -----

  /** The auths of the folders along p, outermost first. */
  function PathAuths(c: Container, p: seq<Seg>): (r: seq<Auth>)
    requires IsContainer(c, p)
    ensures |r| == |p|
  {
    if p == [] then [] else [c.folders[p[0].i].auth] + PathAuths(Sub(c, p[0]), p[1..])
  }

  /** Every container above a node: the collection root first, the immediate parent last. */
  function Outer(col: Collection, p: seq<Seg>): seq<Auth>
    requires IsContainer(col.items, p)
  {
    [col.auth] + PathAuths(col.items, p)
  }

  lemma PathAuthsLast(c: Container, p: seq<Seg>)
    requires p != [] && IsContainer(c, p)
    ensures IsContainer(c, Parent(p)) && Has(c, p) && Last(p).F?
    ensures PathAuths(c, p) == PathAuths(c, Parent(p)) + [Pick(c, p).folder.auth]
    decreases |p|
  {
    ContainerIsFolder(c, p);
    if |p| > 1 {
      Descend(c, p);
      PathAuthsLast(Sub(c, p[0]), p[1..]);
    } else {
      assert Parent(p) == [];
    }
  }

  /** `containerAuth`. */
  method ContainerAuth(cols: seq<Collection>, ci: int, segs: seq<Seg>) returns (r: Option<Auth>)
    ensures r.Some? <==> 0 <= ci < |cols| && IsContainer(cols[ci].items, segs)
    ensures r.Some? && segs == [] ==> r.value == cols[ci].auth
    ensures r.Some? && segs != [] ==> Has(cols[ci].items, segs) && Last(segs).F?
                                      && r.value == Pick(cols[ci].items, segs).folder.auth
  {
    if ci < 0 || ci >= |cols| {
      return None;
    }
    if segs == [] {
      return Some(cols[ci].auth);
    }
    var c := cols[ci].items;
    var last := BareAuth("");
    for i := 0 to |segs|
      invariant IsContainer(cols[ci].items, segs) <==> IsContainer(c, segs[i..])
      invariant IsContainer(c, segs[i..]) ==>
                  PathAuths(cols[ci].items, segs) == PathAuths(cols[ci].items, segs)[..i] + PathAuths(c, segs[i..])
      invariant IsContainer(c, segs[i..]) && i > 0 ==> last == PathAuths(cols[ci].items, segs)[i - 1]
    {
      var s := segs[i];
      assert segs[i..][1..] == segs[i + 1..];
      if !s.F? || s.i < 0 || s.i >= |c.folders| {
        return None;
      }
      last := c.folders[s.i].auth;
      c := c.folders[s.i].items;
    }
    PathAuthsLast(cols[ci].items, segs);
    return Some(last);
  }

  /** `AncestorAuths` of a folder or request that exists: its containers, innermost first. The loop
      climbs until an ID is its own parent, which only a collection root is. */
  method AncestorAuths(cols: seq<Collection>, ci: int, segs: seq<Seg>) returns (out: seq<Auth>)
    requires 0 <= ci < |cols| && Has(cols[ci].items, segs)
    ensures out == Reverse(Outer(cols[ci], Parent(segs)))
  {
    out := [];
    var p := Parent(segs);
    ghost var c := cols[ci].items;
    var climbing := true;
    while climbing
      invariant climbing ==> IsContainer(c, p)
      invariant climbing ==> out + Reverse(Outer(cols[ci], p)) == Reverse(Outer(cols[ci], Parent(segs)))
      invariant !climbing ==> out == Reverse(Outer(cols[ci], Parent(segs)))
      decreases climbing, |p|
    {
      var a := ContainerAuth(cols, ci, p);
      if p == [] {
        assert Reverse(Outer(cols[ci], p)) == [cols[ci].auth];
        out := out + [a.value];
        climbing := false;
      } else {
        PathAuthsLast(c, p);
        assert Outer(cols[ci], p) == Outer(cols[ci], Parent(p)) + [a.value];
        ReverseAppend(Outer(cols[ci], Parent(p)), a.value);
        assert out + ([a.value] + Reverse(Outer(cols[ci], Parent(p)))) == (out + [a.value]) + Reverse(Outer(cols[ci], Parent(p)));
        out := out + [a.value];
        p := Parent(p);
      }
    }
  }

  /** What `EffectiveAuth` answers for the request at a. */
  function Effective(col: Collection, a: seq<Seg>): Auth
    requires Has(col.items, a) && Last(a).R?
  {
    Resolve(Pick(col.items, a).request.auth, Reverse(Outer(col, Parent(a))))
  }

  method EffectiveAuth(cols: seq<Collection>, ci: int, a: seq<Seg>) returns (r: Auth)
    requires 0 <= ci < |cols| && Has(cols[ci].items, a) && Last(a).R?
    ensures r == Effective(cols[ci], a)
  {
    var ancestors := AncestorAuths(cols, ci, a);
    r := Resolve(Pick(cols[ci].items, a).request.auth, ancestors);
  }

  /** The innermost container that configures auth, one whose type is neither empty nor "inherit",
      decides; when there is none the answer is the type "none". */
  lemma {:induction false} NearestDecides(outer: seq<Auth>)
    ensures forall k :: 0 <= k < |outer| && Configures(outer[k]) && (forall j :: k < j < |outer| ==> !Configures(outer[j]))
              ==> FirstConcrete(Reverse(outer)) == outer[k]
    ensures (forall k :: 0 <= k < |outer| ==> !Configures(outer[k])) ==> FirstConcrete(Reverse(outer)) == BareAuth("none")
  {
    if outer != [] {
      var n := |outer| - 1;
      var init := outer[..n];
      assert outer == init + [outer[n]];
      ReverseAppend(init, outer[n]);
      assert Reverse(outer)[1..] == Reverse(init);
      NearestDecides(init);
      forall k | 0 <= k < |outer| && Configures(outer[k]) && (forall j :: k < j < |outer| ==> !Configures(outer[j]))
        ensures FirstConcrete(Reverse(outer)) == outer[k]
      {
        assert k < n ==> !Configures(outer[n]) && init[k] == outer[k];
      }
    }
  }

  predicate Configures(a: Auth) { a.typ != "" && a.typ != "inherit" }

  /** The auth of one container: of the collection itself, or of a folder. */
  function AuthAt(col: Collection, p: seq<Seg>): Auth
    requires IsContainer(col.items, p)
  {
    if p == [] then col.auth
    else
      ContainerIsFolder(col.items, p);
      Pick(col.items, p).folder.auth
  }

  lemma {:induction false} ContainersAbove(c: Container, p: seq<Seg>, k: nat)
    requires IsContainer(c, p) && k <= |p|
    ensures IsContainer(c, p[..k])
    ensures PathAuths(c, p[..k]) == PathAuths(c, p)[..k]
    decreases |p|
  {
    if k > 0 {
      ContainersAbove(Sub(c, p[0]), p[1..], k - 1);
      assert p[..k][1..] == p[1..][..k - 1];
    }
  }

  lemma {:induction false} OuterIs(col: Collection, p: seq<Seg>, k: nat)
    requires IsContainer(col.items, p) && k <= |p|
    ensures IsContainer(col.items, p[..k]) && Outer(col, p)[k] == AuthAt(col, p[..k])
  {
    ContainersAbove(col.items, p, k);
    if k > 0 {
      PathAuthsLast(col.items, p[..k]);
      assert PathAuths(col.items, p[..k])[k - 1] == PathAuths(col.items, p)[k - 1];
    }
  }

  /** What `auth.Resolve` is meant to answer for the request at a: its own auth if that configures
      anything; otherwise the auth of the container p above it that does while none between them does; and
      the type "none" when none above it does. */
  lemma {:induction false} EffectiveIs(col: Collection, a: seq<Seg>)
    requires Has(col.items, a) && Last(a).R?
    ensures forall k :: 0 <= k < |a| ==> IsContainer(col.items, a[..k])
    ensures var own := Pick(col.items, a).request.auth; Configures(own) ==> Effective(col, a) == own
    ensures !Configures(Pick(col.items, a).request.auth) ==>
              && (forall k :: 0 <= k < |a| && Configures(AuthAt(col, a[..k]))
                              && (forall j :: k < j < |a| ==> !Configures(AuthAt(col, a[..j])))
                    ==> Effective(col, a) == AuthAt(col, a[..k]))
              && ((forall k :: 0 <= k < |a| ==> !Configures(AuthAt(col, a[..k]))) ==> Effective(col, a) == BareAuth("none"))
  {
    hide AuthAt, Outer;
    var p := Parent(a);
    OuterLength(col, p);
    forall k | 0 <= k < |a|
      ensures IsContainer(col.items, a[..k]) && Outer(col, p)[k] == AuthAt(col, a[..k])
    {
      OuterIs(col, p, k);
      assert p[..k] == a[..k];
    }
    NearestDecides(Outer(col, p));
  }

  lemma OuterLength(col: Collection, p: seq<Seg>)
    requires IsContainer(col.items, p)
    ensures |Outer(col, p)| == |p| + 1
  {
  }

  // ----- nodes just added -----

  lemma {:induction false} GraftedAuths(c: Container, p: seq<Seg>, d: Container)
    requires IsContainer(c, p)
    ensures IsContainer(Graft(c, p, d), p) && PathAuths(Graft(c, p, d), p) == PathAuths(c, p)
  {
    if p != [] {
      GraftedAuths(Sub(c, p[0]), p[1..], d);
    }
  }

  lemma {:induction false} AuthsBelow(c: Container, p: seq<Seg>, i: int)
    requires IsContainer(c, p) && Opens(At(c, p), F(i))
    ensures IsContainer(c, p + [F(i)])
    ensures PathAuths(c, p + [F(i)]) == PathAuths(c, p) + [At(c, p).folders[i].auth]
  {
    var q := p + [F(i)];
    if p == [] {
      assert q[1..] == [];
    } else {
      AuthsBelow(Sub(c, p[0]), p[1..], i);
      assert q[1..] == p[1..] + [F(i)];
    }
  }

  /** A request that `AddRequest` has just appended to the container p, in a folder that `AddFolder` has
      just appended to it or directly, gets what p's containers configure: the collection's auth, if p is
      the collection and that is set. */
  lemma {:induction false} AddedInherits(col: Collection, p: seq<Seg>, folderID: string, folderName: string, id: string, name: string)
    requires IsContainer(col.items, p)
    ensures var b := p + [R(|At(col.items, p).requests|)];
            var direct := RequestNode(NewRequest(id, name));
            CanPaste(col.items, b, direct)
            && Has(Paste(col.items, b, direct), b)
            && Effective(col.(items := Paste(col.items, b, direct)), b) == FirstConcrete(Reverse(Outer(col, p)))
    ensures var f := p + [F(|At(col.items, p).folders|)];
            var folder := FolderNode(NewFolder(folderID, folderName));
            var inner := RequestNode(NewRequest(id, name));
            CanPaste(col.items, f, folder)
            && CanPaste(Paste(col.items, f, folder), f + [R(0)], inner)
            && var after := Paste(Paste(col.items, f, folder), f + [R(0)], inner);
            Has(after, f + [R(0)])
            && Effective(col.(items := after), f + [R(0)]) == FirstConcrete(Reverse(Outer(col, p)))
    ensures p == [] && Configures(col.auth) ==> FirstConcrete(Reverse(Outer(col, p))) == col.auth
  {
    var c := col.items;
    var b, f := p + [R(|At(c, p).requests|)], p + [F(|At(c, p).folders|)];
    assert Parent(b) == p && Parent(f) == p;
    var node := RequestNode(NewRequest(id, name));
    CutPaste(c, b, node);
    GraftedAuths(c, p, PasteChild(At(c, p), Last(b), node));
    var folder := FolderNode(NewFolder(folderID, folderName));
    var d := Paste(c, f, folder);
    CutPaste(c, f, folder);
    GraftedAuths(c, p, PasteChild(At(c, p), Last(f), folder));
    ContainerIsFolder(d, f);
    GraftAt(c, p, PasteChild(At(c, p), Last(f), folder));
    AuthsBelow(d, p, |At(c, p).folders|);
    var e := f + [R(0)];
    assert Parent(e) == f;
    CutPaste(d, e, node);
    GraftedAuths(d, f, PasteChild(At(d, f), Last(e), node));
    var outer := Outer(col, p);
    var deeper := Outer(col.(items := Paste(d, e, node)), f);
    assert deeper == outer + [BareAuth("")];
    ReverseAppend(outer, BareAuth(""));
    assert Reverse(deeper)[1..] == Reverse(outer);
    NearestDecides(outer);
    if p == [] {
      assert outer == [col.auth];
    }
  }

  // ----- the frozen walk, downwards -----

  function Freeze(r: Request, ancestors: seq<Auth>): Request {
    r.(auth := Resolve(r.auth, Reverse(ancestors)))
  }

  /** The snapshot of a container under the given ancestors, outermost first. */
  function Snapshot(c: Container, ancestors: seq<Auth>): Container {
    Container(seq(|c.folders|, i requires 0 <= i < |c.folders| => SnapshotFolder(c.folders[i], ancestors)),
              seq(|c.requests|, i requires 0 <= i < |c.requests| => Freeze(c.requests[i], ancestors)))
  }

  function SnapshotFolder(f: Folder, ancestors: seq<Auth>): Folder {
    Folder(f.id, f.name, Snapshot(f.items, ancestors + [f.auth]), f.auth, [])
  }

  /** `cloneRequestsWithAuth`. */
  method CloneRequestsWithAuth(requests: seq<Request>, ancestors: seq<Auth>) returns (out: seq<Request>)
    ensures |out| == |requests|
    ensures forall i :: 0 <= i < |requests| ==> out[i] == Freeze(requests[i], ancestors)
  {
    var rev := ancestors;
    for i := 0 to |ancestors|
      invariant |rev| == |ancestors|
      invariant forall k :: 0 <= k < i ==> rev[|ancestors| - 1 - k] == ancestors[k]
    {
      rev := rev[|ancestors| - 1 - i := ancestors[i]];
    }
    assert rev == Reverse(ancestors) by {
      forall k | 0 <= k < |rev| ensures rev[k] == Reverse(ancestors)[k] {
        assert rev[|ancestors| - 1 - (|ancestors| - 1 - k)] == ancestors[|ancestors| - 1 - k];
      }
    }
    out := requests;
    for i := 0 to |requests|
      invariant |out| == |requests|
      invariant forall k :: 0 <= k < i ==> out[k] == Freeze(requests[k], ancestors)
      invariant forall k :: i <= k < |requests| ==> out[k] == requests[k]
    {
      out := out[i := requests[i].(auth := Resolve(requests[i].auth, rev))];
    }
  }

  /** `cloneFoldersWithAuth`. */
  method CloneFoldersWithAuth(folders: seq<Folder>, ancestors: seq<Auth>) returns (out: seq<Folder>)
    ensures |out| == |folders|
    ensures forall i :: 0 <= i < |folders| ==> out[i] == SnapshotFolder(folders[i], ancestors)
    decreases folders
  {
    out := folders;
    for i := 0 to |folders|
      invariant |out| == |folders|
      invariant forall k :: 0 <= k < i ==> out[k] == SnapshotFolder(folders[k], ancestors)
      invariant forall k :: i <= k < |folders| ==> out[k] == folders[k]
    {
      var f := folders[i];
      var child := ancestors + [f.auth];
      var fs := CloneFoldersWithAuth(f.items.folders, child);
      var rs := CloneRequestsWithAuth(f.items.requests, child);
      assert Container(fs, rs) == Snapshot(f.items, child);
      out := out[i := Folder(f.id, f.name, Container(fs, rs), f.auth, [])];
    }
  }

  // ----- the two agree -----

  lemma SnapshotAt(c: Container, p: seq<Seg>, ancestors: seq<Auth>)
    ensures IsContainer(Snapshot(c, ancestors), p) <==> IsContainer(c, p)
    ensures IsContainer(c, p) ==> At(Snapshot(c, ancestors), p) == Snapshot(At(c, p), ancestors + PathAuths(c, p))
  {
    if p == [] {
      assert ancestors + PathAuths(c, p) == ancestors;
    } else if Opens(c, p[0]) {
      var inner := ancestors + [c.folders[p[0].i].auth];
      SnapshotAt(Sub(c, p[0]), p[1..], inner);
      assert Sub(Snapshot(c, ancestors), p[0]) == Snapshot(Sub(c, p[0]), inner);
      if IsContainer(c, p) {
        assert inner + PathAuths(Sub(c, p[0]), p[1..]) == ancestors + PathAuths(c, p);
      }
    }
  }

  /** For every request of the collection, at whatever depth: the snapshot holds the same request at the
      same address, and its frozen auth is the live effective auth of its node ID. */
  lemma FrozenIsEffective(col: Collection, a: seq<Seg>)
    requires Has(col.items, a) && Last(a).R?
    ensures Has(Snapshot(col.items, [col.auth]), a)
    ensures Pick(Snapshot(col.items, [col.auth]), a)
            == RequestNode(Pick(col.items, a).request.(auth := Effective(col, a)))
  {
    SnapshotAt(col.items, Parent(a), [col.auth]);
  }

  /** Where `findRequestInContainer` finds the request it returns. */
  function LookupAddress(c: Container, parts: seq<string>): Option<seq<Seg>>
    decreases c, 1, 0
  {
    if parts == [] then None
    else if |parts| == 1 then
      var i := NameIndex(c.requests, parts[0]);
      if i < |c.requests| then Some([R(i)]) else None
    else LookupAddressFrom(c, 0, parts)
  }

  function LookupAddressFrom(c: Container, i: nat, parts: seq<string>): Option<seq<Seg>>
    requires |parts| > 1
    decreases c, 0, |c.folders| - i
  {
    if i >= |c.folders| then None
    else if c.folders[i].name == parts[0] && LookupAddress(c.folders[i].items, parts[1..]).Some?
    then Some([F(i)] + LookupAddress(c.folders[i].items, parts[1..]).value)
    else LookupAddressFrom(c, i + 1, parts)
  }

  function NameIndex(rs: seq<Request>, name: string): (i: nat)
    ensures i <= |rs|
  {
    if rs == [] || rs[0].name == name then 0 else NameIndex(rs[1..], name) + 1
  }

  ghost predicate FoundAt(c: Container, a: Option<seq<Seg>>, r: Option<Request>) {
    match (a, r)
    case (None, None) => true
    case (Some(p), Some(q)) => Has(c, p) && Last(p).R? && Pick(c, p) == RequestNode(q)
    case _ => false
  }

  lemma LookupHasAddress(c: Container, parts: seq<string>)
    ensures FoundAt(c, LookupAddress(c, parts), Lookup(c, parts))
    decreases c, 1, 0
  {
    if |parts| == 1 {
      NameIndexFirst(c.requests, parts[0]);
      assert Parent([R(NameIndex(c.requests, parts[0]))]) == [];
    } else if |parts| > 1 {
      LookupFromHasAddress(c, 0, parts);
    }
  }

  lemma NameIndexFirst(rs: seq<Request>, name: string)
    ensures FirstNamed(rs, name) == if NameIndex(rs, name) < |rs| then Some(rs[NameIndex(rs, name)]) else None
  {
  }

  lemma LookupFromHasAddress(c: Container, i: nat, parts: seq<string>)
    requires |parts| > 1
    ensures FoundAt(c, LookupAddressFrom(c, i, parts), LookupFrom(c, i, parts))
    decreases c, 0, |c.folders| - i
  {
    if i < |c.folders| {
      LookupHasAddress(c.folders[i].items, parts[1..]);
      LookupFromHasAddress(c, i + 1, parts);
      if c.folders[i].name == parts[0] && Lookup(c.folders[i].items, parts[1..]).Some? {
        var p := LookupAddress(c.folders[i].items, parts[1..]).value;
        Descend(c, [F(i)] + p);
        assert ([F(i)] + p)[1..] == p;
      }
    }
  }

  /** Names are untouched by the snapshot, so a path is found at the same address in both. */
  lemma SnapshotSameAddress(c: Container, parts: seq<string>, ancestors: seq<Auth>)
    ensures LookupAddress(Snapshot(c, ancestors), parts) == LookupAddress(c, parts)
    decreases c, 1, 0
  {
    if |parts| == 1 {
      SameNameIndex(c.requests, Snapshot(c, ancestors).requests, parts[0]);
    } else if |parts| > 1 {
      SnapshotSameAddressFrom(c, 0, parts, ancestors);
    }
  }

  lemma SameNameIndex(rs: seq<Request>, qs: seq<Request>, name: string)
    requires |rs| == |qs| && forall i :: 0 <= i < |rs| ==> rs[i].name == qs[i].name
    ensures NameIndex(rs, name) == NameIndex(qs, name)
  {
  }

  lemma SnapshotSameAddressFrom(c: Container, i: nat, parts: seq<string>, ancestors: seq<Auth>)
    requires |parts| > 1
    ensures LookupAddressFrom(Snapshot(c, ancestors), i, parts) == LookupAddressFrom(c, i, parts)
    decreases c, 0, |c.folders| - i
  {
    if i < |c.folders| {
      SnapshotSameAddress(c.folders[i].items, parts[1..], ancestors + [c.folders[i].auth]);
      SnapshotSameAddressFrom(c, i + 1, parts, ancestors);
    }
  }

  /** `FindRequestByPath` on the snapshot: the request the live lookup finds, with its auth resolved as
      Send would resolve it for that node. */
  lemma SnapshotFindsByPath(col: Collection, ref: string)
    ensures var snap := Snapshot(col.items, [col.auth]);
            match ChainRefs.Resolve(col.items, ref)
            case None => ChainRefs.Resolve(snap, ref) == None
            case Some(r) =>
              exists a :: Has(col.items, a) && Last(a).R? && Pick(col.items, a) == RequestNode(r)
                          && ChainRefs.Resolve(snap, ref) == Some(r.(auth := Effective(col, a)))
  {
    var parts := SplitChainPath(ref);
    LookupHasAddress(col.items, parts);
    LookupHasAddress(Snapshot(col.items, [col.auth]), parts);
    SnapshotSameAddress(col.items, parts, [col.auth]);
    if Lookup(col.items, parts).Some? {
      FrozenIsEffective(col, LookupAddress(col.items, parts).value);
    }
  }

  // ----- the ID index -----

  function IndexRequests(rs: seq<Request>, m: map<string, Request>): map<string, Request> {
    if rs == [] then m
    else IndexRequests(rs[1..], if rs[0].id != "" then m[rs[0].id := rs[0]] else m)
  }

  function Index(c: Container, m: map<string, Request>): map<string, Request>
    decreases c, 1
  {
    IndexFolders(c.folders, IndexRequests(c.requests, m))
  }

  function IndexFolders(fs: seq<Folder>, m: map<string, Request>): map<string, Request>
    decreases fs, 0
  {
    if fs == [] then m else IndexFolders(fs[1..], Index(fs[0].items, m))
  }

  /** `indexRequestsByID`. */
  method IndexRequestsByID(c: Container, dst: map<string, Request>) returns (m: map<string, Request>)
    ensures m == Index(c, dst)
    decreases c
  {
    m := dst;
    assert c.requests[0..] == c.requests && c.folders[0..] == c.folders;
    for i := 0 to |c.requests|
      invariant IndexRequests(c.requests, dst) == IndexRequests(c.requests[i..], m)
    {
      assert c.requests[i..][1..] == c.requests[i + 1..];
      if c.requests[i].id != "" {
        m := m[c.requests[i].id := c.requests[i]];
      }
    }
    for i := 0 to |c.folders|
      invariant Index(c, dst) == IndexFolders(c.folders[i..], m)
    {
      assert c.folders[i..][1..] == c.folders[i + 1..];
      m := IndexRequestsByID(c.folders[i].items, m);
    }
  }

  /** Every indexed request sits in the tree (or was indexed before), under its own ID. */
  ghost predicate IndexedFrom(c: Container, m: map<string, Request>, id: string, r: Request) {
    (id in m && m[id] == r) || exists a :: Has(c, a) && Pick(c, a) == RequestNode(r) && r.id == id && id != ""
  }

  lemma IndexRequestsSound(rs: seq<Request>, m: map<string, Request>)
    ensures m.Keys <= IndexRequests(rs, m).Keys
    ensures forall id <- IndexRequests(rs, m) :: (id in m && IndexRequests(rs, m)[id] == m[id]) ||
              exists i :: 0 <= i < |rs| && rs[i] == IndexRequests(rs, m)[id] && rs[i].id == id && id != ""
    ensures forall i :: 0 <= i < |rs| && rs[i].id != "" ==> rs[i].id in IndexRequests(rs, m)
  {
    if rs != [] {
      var m' := if rs[0].id != "" then m[rs[0].id := rs[0]] else m;
      IndexRequestsSound(rs[1..], m');
      forall id | id in IndexRequests(rs, m)
        ensures (id in m && IndexRequests(rs, m)[id] == m[id]) ||
                exists i :: 0 <= i < |rs| && rs[i] == IndexRequests(rs, m)[id] && rs[i].id == id && id != ""
      {
        if i :| 0 <= i < |rs[1..]| && rs[1..][i] == IndexRequests(rs, m)[id] && rs[1..][i].id == id && id != "" {
          assert rs[i + 1] == IndexRequests(rs, m)[id];
        }
      }
    }
  }

  lemma IndexSound(c: Container, m: map<string, Request>)
    ensures m.Keys <= Index(c, m).Keys
    ensures forall id <- Index(c, m) :: IndexedFrom(c, m, id, Index(c, m)[id])
    decreases c, 1
  {
    var n := IndexRequests(c.requests, m);
    IndexRequestsSound(c.requests, m);
    IndexFoldersSound(c, 0, n);
    assert c.folders[0..] == c.folders;
    forall id | id in Index(c, m) ensures IndexedFrom(c, m, id, Index(c, m)[id]) {
      var r := Index(c, m)[id];
      if id in n && n[id] == r && !(id in m && m[id] == r) {
        var i :| 0 <= i < |c.requests| && c.requests[i] == r && r.id == id && id != "";
        assert Parent([R(i)]) == [];
        assert Has(c, [R(i)]) && Pick(c, [R(i)]) == RequestNode(r);
      }
    }
  }

  lemma IndexedBelow(c: Container, k: nat, m: map<string, Request>, id: string, r: Request)
    requires k < |c.folders| && IndexedFrom(c.folders[k].items, m, id, r)
    ensures IndexedFrom(c, m, id, r)
  {
    if !(id in m && m[id] == r) {
      var d := c.folders[k].items;
      var a :| Has(d, a) && Pick(d, a) == RequestNode(r) && r.id == id && id != "";
      Descend(c, [F(k)] + a);
      assert ([F(k)] + a)[1..] == a;
      assert Pick(c, [F(k)] + a) == RequestNode(r);
    }
  }

  lemma IndexFoldersSound(c: Container, k: nat, m: map<string, Request>)
    requires k <= |c.folders|
    ensures m.Keys <= IndexFolders(c.folders[k..], m).Keys
    ensures forall id <- IndexFolders(c.folders[k..], m) :: IndexedFrom(c, m, id, IndexFolders(c.folders[k..], m)[id])
    decreases c, 0, |c.folders| - k
  {
    if k < |c.folders| {
      var d := c.folders[k].items;
      assert c.folders[k..][1..] == c.folders[k + 1..];
      var n := Index(d, m);
      IndexSound(d, m);
      IndexFoldersSound(c, k + 1, n);
      forall id | id in IndexFolders(c.folders[k..], m)
        ensures IndexedFrom(c, m, id, IndexFolders(c.folders[k..], m)[id])
      {
        var r := IndexFolders(c.folders[k..], m)[id];
        if id in n && n[id] == r {
          IndexedBelow(c, k, m, id, r);
        }
      }
    }
  }

  lemma IndexComplete(c: Container, m: map<string, Request>, a: seq<Seg>)
    requires Has(c, a) && Last(a).R? && Pick(c, a).request.id != ""
    ensures Pick(c, a).request.id in Index(c, m)
    decreases |a|
  {
    var n := IndexRequests(c.requests, m);
    IndexRequestsSound(c.requests, m);
    assert c.folders[0..] == c.folders;
    if |a| == 1 {
      assert Parent(a) == [];
      IndexFoldersSound(c, 0, n);
    } else {
      Descend(c, a);
      IndexFoldersReach(c, 0, n, a);
    }
  }

  lemma IndexFoldersReach(c: Container, k: nat, m: map<string, Request>, a: seq<Seg>)
    requires |a| > 1 && Opens(c, a[0]) && k <= a[0].i
    requires Has(Sub(c, a[0]), a[1..]) && Last(a[1..]).R? && Pick(Sub(c, a[0]), a[1..]).request.id != ""
    ensures Pick(Sub(c, a[0]), a[1..]).request.id in IndexFolders(c.folders[k..], m)
    decreases |a|, a[0].i - k
  {
    assert c.folders[k..][1..] == c.folders[k + 1..];
    var n := Index(c.folders[k].items, m);
    if k == a[0].i {
      IndexComplete(Sub(c, a[0]), m, a[1..]);
      IndexFoldersSound(c, k + 1, n);
    } else {
      IndexFoldersReach(c, k + 1, n, a);
    }
  }

  /** With unique IDs, `FindRequestByID` on the snapshot answers every request of the collection by its
      own ID, with the live effective auth of the node that carries it, and answers no other ID. */
  lemma SnapshotFindsByID(col: Collection, id: string)
    requires UniqueIDs(col.items) && id != ""
    ensures var byID := Index(Snapshot(col.items, [col.auth]), map[]);
            match Find(col.items, RequestID(id))
            case None => id !in byID
            case Some(a) => Has(col.items, a) && Last(a).R?
                            && id in byID && byID[id] == Pick(col.items, a).request.(auth := Effective(col, a))
  {
    var snap := Snapshot(col.items, [col.auth]);
    var byID := Index(snap, map[]);
    FindSound(col.items, RequestID(id));
    if Find(col.items, RequestID(id)).Some? {
      var a := Find(col.items, RequestID(id)).value;
      FrozenIsEffective(col, a);
      IndexComplete(snap, map[], a);
    }
    if id in byID {
      IndexSound(snap, map[]);
      assert IndexedFrom(snap, map[], id, byID[id]);
      var b :| Has(snap, b) && Pick(snap, b) == RequestNode(byID[id]) && byID[id].id == id;
      SnapshotAt(col.items, Parent(b), [col.auth]);
      FindUnique(col.items, b);
      FrozenIsEffective(col, b);
    }
  }
}
