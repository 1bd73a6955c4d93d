/** What a tree holds, counted with multiplicity, and how a node is found again by its model ID
    after positions have shifted. */
module Census {
  import opened Text
  import opened Model
  import opened Tree

  /** A folder without its children, or a whole request. */
  datatype Item = FolderItem(id: string, name: string, auth: Auth, variables: seq<Variable>)
                | RequestItem(request: Request)

  function Header(f: Folder): Item {
    FolderItem(f.id, f.name, f.auth, f.variables)
  }

  // ----- tallies -----

  function TallyRequests<T>(rs: seq<Request>, key: Item -> T): multiset<T> {
    if rs == [] then multiset{}
    else multiset{key(RequestItem(rs[0]))} + TallyRequests(rs[1..], key)
  }

  function TallyFolder<T>(f: Folder, key: Item -> T): multiset<T>
    decreases f, 2
  {
    multiset{key(Header(f))} + Tally(f.items, key)
  }

  function TallyFolders<T>(fs: seq<Folder>, key: Item -> T): multiset<T>
    decreases fs, 0
  {
    if fs == [] then multiset{} else TallyFolder(fs[0], key) + TallyFolders(fs[1..], key)
  }

  /** key of every folder and request in the tree. */
  function Tally<T>(c: Container, key: Item -> T): multiset<T>
    decreases c, 1
  {
    TallyRequests(c.requests, key) + TallyFolders(c.folders, key)
  }

  function TallyNode<T>(n: Node, key: Item -> T): multiset<T> {
    match n
    case FolderNode(f) => TallyFolder(f, key)
    case RequestNode(r) => multiset{key(RequestItem(r))}
  }

  lemma {:induction false} TallyRequestsConcat<T>(xs: seq<Request>, ys: seq<Request>, key: Item -> T)
    ensures TallyRequests(xs + ys, key) == TallyRequests(xs, key) + TallyRequests(ys, key)
  {
    if xs == [] {
      assert xs + ys == ys;
    } else {
      assert (xs + ys)[1..] == xs[1..] + ys;
      TallyRequestsConcat(xs[1..], ys, key);
    }
  }

  lemma {:induction false} TallyFoldersConcat<T>(xs: seq<Folder>, ys: seq<Folder>, key: Item -> T)
    ensures TallyFolders(xs + ys, key) == TallyFolders(xs, key) + TallyFolders(ys, key)
    decreases |xs|
  {
    if xs == [] {
      assert xs + ys == ys;
    } else {
      assert (xs + ys)[1..] == xs[1..] + ys;
      TallyFoldersConcat(xs[1..], ys, key);
    }
  }

  lemma {:induction false} CutChildTally<T>(c: Container, s: Seg, key: Item -> T)
    requires InRange(c, s)
    ensures Tally(c, key) == Tally(CutChild(c, s), key) + TallyNode(ChildAt(c, s), key)
  {
    if s.F? { DeleteFolderTally(c.folders, s.i, key); } else { DeleteRequestTally(c.requests, s.i, key); }
  }

  lemma {:induction false} DeleteFolderTally<T>(fs: seq<Folder>, i: nat, key: Item -> T)
    requires i < |fs|
    ensures TallyFolders(fs, key) == TallyFolders(Delete(fs, i), key) + TallyFolder(fs[i], key)
  {
    var tail := [fs[i]] + fs[i + 1..];
    assert fs == fs[..i] + tail;
    TallyFoldersConcat(fs[..i], tail, key);
    TallyFoldersConcat(fs[..i], fs[i + 1..], key);
    assert tail[1..] == fs[i + 1..];
  }

  lemma {:induction false} DeleteRequestTally<T>(rs: seq<Request>, i: nat, key: Item -> T)
    requires i < |rs|
    ensures TallyRequests(rs, key) == TallyRequests(Delete(rs, i), key) + multiset{key(RequestItem(rs[i]))}
  {
    var tail := [rs[i]] + rs[i + 1..];
    assert rs == rs[..i] + tail;
    TallyRequestsConcat(rs[..i], tail, key);
    TallyRequestsConcat(rs[..i], rs[i + 1..], key);
    assert tail[1..] == rs[i + 1..];
  }

  /** Replacing the items of one folder changes the tally by exactly that difference. */
  lemma {:induction false} SetSubTally<T>(c: Container, s: Seg, d: Container, key: Item -> T)
    requires Opens(c, s)
    ensures Tally(SetSub(c, s, d), key) + Tally(Sub(c, s), key) == Tally(c, key) + Tally(d, key)
  {
    var e := SetSub(c, s, d);
    CutChildTally(c, s, key);
    CutChildTally(e, s, key);
    assert CutChild(e, s) == CutChild(c, s);
    assert Header(e.folders[s.i]) == Header(c.folders[s.i]);
  }

  lemma Cancel<T>(x: multiset<T>, y: multiset<T>, z: multiset<T>)
    requires x + z == y + z
    ensures x == y
  {
    forall e: T ensures x[e] == y[e] {
      assert (x + z)[e] == (y + z)[e];
    }
  }

  /** A cut removes the node it returns, with everything inside it, and nothing else. */
  lemma {:induction false} CutTally<T>(c: Container, a: seq<Seg>, key: Item -> T)
    requires Has(c, a)
    ensures Tally(c, key) == Tally(Cut(c, a), key) + TallyNode(Pick(c, a), key)
    decreases |a|
  {
    if |a| == 1 {
      assert Parent(a) == [];
      CutChildTally(c, a[0], key);
    } else {
      Descend(c, a);
      var d := Sub(c, a[0]);
      CutTally(d, a[1..], key);
      SetSubTally(c, a[0], Cut(d, a[1..]), key);
      Cancel(Tally(Cut(c, a), key) + TallyNode(Pick(c, a), key), Tally(c, key), Tally(Cut(d, a[1..]), key));
    }
  }

  lemma {:induction false} PasteTally<T>(c: Container, a: seq<Seg>, n: Node, key: Item -> T)
    requires CanPaste(c, a, n)
    ensures Tally(Paste(c, a, n), key) == Tally(c, key) + TallyNode(n, key)
  {
    CutPaste(c, a, n);
    CutTally(Paste(c, a, n), a, key);
  }

  // ----- identities -----

  datatype Ident = FolderID(id: string) | RequestID(id: string)

  function IdentOf(x: Item): Ident {
    match x
    case FolderItem(id, _, _, _) => FolderID(id)
    case RequestItem(r) => RequestID(r.id)
  }

  function NodeIdent(n: Node): Ident {
    match n
    case FolderNode(f) => FolderID(f.id)
    case RequestNode(r) => RequestID(r.id)
  }

  function IDs(c: Container): multiset<Ident> {
    Tally(c, IdentOf)
  }

  /** No two folders and no two requests share a non-empty model ID. */
  ghost predicate UniqueIDs(c: Container) {
    Unique(IDs(c))
  }

  ghost predicate Unique(m: multiset<Ident>) {
    forall k <- m :: k.id != "" ==> m[k] == 1
  }

  // ----- finding a node by its ID -----

  /** `nodeIDOfModel`: requests of a container first, then its folders in order, depth first. */
  function Find(c: Container, k: Ident): Option<seq<Seg>>
    decreases c, 1, 0
  {
    match k
    case RequestID(id) =>
      var i := RequestIndex(c.requests, id);
      if i < |c.requests| then Some([R(i)]) else FindFrom(c, 0, k)
    case FolderID(_) => FindFrom(c, 0, k)
  }

  function FindFrom(c: Container, i: nat, k: Ident): Option<seq<Seg>>
    decreases c, 0, |c.folders| - i
  {
    if i >= |c.folders| then None
    else if k == FolderID(c.folders[i].id) then Some([F(i)])
    else match Find(c.folders[i].items, k)
      case Some(p) => Some([F(i)] + p)
      case None => FindFrom(c, i + 1, k)
  }

  function RequestIndex(rs: seq<Request>, id: string): (i: nat)
    ensures i <= |rs|
    ensures i < |rs| ==> rs[i].id == id
    ensures forall j :: 0 <= j < i ==> rs[j].id != id
  {
    if rs == [] || rs[0].id == id then 0 else RequestIndex(rs[1..], id) + 1
  }

  lemma FindSound(c: Container, k: Ident)
    ensures Find(c, k).Some? ==> Has(c, Find(c, k).value) && NodeIdent(Pick(c, Find(c, k).value)) == k
    decreases c, 1, 0
  {
    if k.RequestID? && RequestIndex(c.requests, k.id) < |c.requests| {
      assert Parent([R(RequestIndex(c.requests, k.id))]) == [];
    } else {
      FindFromSound(c, 0, k);
    }
  }

  lemma FindFromSound(c: Container, i: nat, k: Ident)
    ensures FindFrom(c, i, k).Some? ==>
              Has(c, FindFrom(c, i, k).value) && NodeIdent(Pick(c, FindFrom(c, i, k).value)) == k
    decreases c, 0, |c.folders| - i
  {
    if i < |c.folders| {
      FindSound(c.folders[i].items, k);
      if k == FolderID(c.folders[i].id) {
        assert Parent([F(i)]) == [];
      } else if Find(c.folders[i].items, k).Some? {
        var p := Find(c.folders[i].items, k).value;
        Descend(c, [F(i)] + p);
        assert ([F(i)] + p)[1..] == p;
      } else {
        FindFromSound(c, i + 1, k);
      }
    }
  }

  /** A node that is in the tree is found. */
  lemma FindComplete(c: Container, a: seq<Seg>)
    requires Has(c, a)
    ensures Find(c, NodeIdent(Pick(c, a))).Some?
    decreases |a|
  {
    var k := NodeIdent(Pick(c, a));
    if |a| == 1 {
      assert Parent(a) == [];
      if a[0].F? {
        FindFromReaches(c, 0, a[0].i, k);
      }
    } else {
      Descend(c, a);
      FindComplete(Sub(c, a[0]), a[1..]);
      FindFromReaches(c, 0, a[0].i, k);
    }
  }

  lemma FindFromReaches(c: Container, i: nat, j: nat, k: Ident)
    requires i <= j < |c.folders|
    requires k == FolderID(c.folders[j].id) || Find(c.folders[j].items, k).Some?
    ensures FindFrom(c, i, k).Some?
    decreases j - i
  {
    if i < j {
      FindFromReaches(c, i + 1, j, k);
    }
  }

  // ----- one address per ID -----

  lemma CountsOwn(c: Container, a: seq<Seg>)
    requires Has(c, a)
    ensures NodeIdent(Pick(c, a)) in IDs(c)
  {
    CutTally(c, a, IdentOf);
  }

  /** Two different addresses carrying one ID count it twice. */
  lemma TwoAddresses(c: Container, a: seq<Seg>, b: seq<Seg>)
    requires Has(c, a) && Has(c, b) && a != b
    requires NodeIdent(Pick(c, a)) == NodeIdent(Pick(c, b))
    ensures IDs(c)[NodeIdent(Pick(c, a))] >= 2
    decreases |a|
  {
    if a[0] != b[0] {
      InSlot(c, a);
      InSlot(c, b);
      DifferentSlots(c, a[0], b[0], NodeIdent(Pick(c, a)));
    } else {
      assert a[1..] != b[1..] by { assert a == [a[0]] + a[1..] && b == [b[0]] + b[1..]; }
      if |a| > 1 && |b| > 1 {
        Descend(c, a);
        Descend(c, b);
        TwoAddresses(Sub(c, a[0]), a[1..], b[1..]);
        CutChildTally(c, a[0], IdentOf);
      } else {
        NestedAddresses(c, if |a| > 1 then a else b, if |a| > 1 then b else a);
      }
    }
  }

  lemma DifferentSlots(c: Container, s: Seg, t: Seg, k: Ident)
    requires InRange(c, s) && InRange(c, t) && s != t
    requires k in TallyNode(ChildAt(c, s), IdentOf) && k in TallyNode(ChildAt(c, t), IdentOf)
    ensures IDs(c)[k] >= 2
  {
    var u := if s.F? == t.F? && t.i > s.i then (if t.F? then F(t.i - 1) else R(t.i - 1)) else t;
    assert ChildAt(CutChild(c, s), u) == ChildAt(c, t);
    CutChildTally(c, s, IdentOf);
    CutChildTally(CutChild(c, s), u, IdentOf);
  }

  lemma NestedAddresses(c: Container, long: seq<Seg>, short: seq<Seg>)
    requires Has(c, long) && Has(c, short) && |long| > 1 && |short| == 1 && long[0] == short[0]
    requires NodeIdent(Pick(c, long)) == NodeIdent(Pick(c, short))
    ensures IDs(c)[NodeIdent(Pick(c, long))] >= 2
  {
    Descend(c, long);
    assert Parent(short) == [];
    CountsOwn(Sub(c, long[0]), long[1..]);
    CutChildTally(c, long[0], IdentOf);
  }

  /** The ID of a node is counted in the top-level child its address goes through. */
  lemma InSlot(c: Container, a: seq<Seg>)
    requires Has(c, a)
    ensures InRange(c, a[0]) && NodeIdent(Pick(c, a)) in TallyNode(ChildAt(c, a[0]), IdentOf)
  {
    if |a| == 1 {
      assert Parent(a) == [];
    } else {
      Descend(c, a);
      CountsOwn(Sub(c, a[0]), a[1..]);
    }
  }

  /** With unique IDs, searching by ID returns the node's own address. */
  lemma FindUnique(c: Container, a: seq<Seg>)
    requires UniqueIDs(c) && Has(c, a) && NodeIdent(Pick(c, a)).id != ""
    ensures Find(c, NodeIdent(Pick(c, a))) == Some(a)
  {
    var k := NodeIdent(Pick(c, a));
    FindComplete(c, a);
    FindSound(c, k);
    var b := Find(c, k).value;
    if a != b {
      TwoAddresses(c, a, b);
      CountsOwn(c, a);
    }
  }
}
