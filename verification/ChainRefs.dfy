/** Chain references: slash-separated name paths, how they are looked up in a tree, and the cascade
    that rewrites them when a folder or request is renamed or moved. */
module ChainRefs {
  import opened Text
  import opened Model
  import opened Tree
  import opened Census

  // ----- parsing a reference -----

  /** A name that survives being written into a reference and read back. */
  predicate IsClean(name: string) {
    name != "" && Trimmed(name) && '/' !in name && name != "." && name != ".."
  }

  predicate AllClean(parts: seq<string>) {
    forall i :: 0 <= i < |parts| ==> IsClean(parts[i])
  }

  /** The trimmed non-empty pieces, or None when one of them is "." or "..". */
  function CleanPieces(raw: seq<string>): Option<seq<string>> {
    if raw == [] then Some([])
    else
      var p := TrimSpace(raw[0]);
      if p == "." || p == ".." then None
      else match CleanPieces(raw[1..])
        case None => None
        case Some(rest) => Some(if p == "" then rest else [p] + rest)
  }

  function DropSlash(ref: string): string {
    if ref != "" && ref[0] == '/' then ref[1..] else ref
  }

  /** `splitChainPath`; a rejected reference has no segments. */
  function SplitChainPath(ref: string): seq<string> {
    CleanPieces(Split(DropSlash(ref), '/')).GetOr([])
  }

  function Prepend(parts: seq<string>, rest: Option<seq<string>>): Option<seq<string>> {
    match rest
    case None => None
    case Some(q) => Some(parts + q)
  }

  /** The loop of `splitChainPath`. */
  method ParseChainPath(ref: string) returns (parts: seq<string>)
    ensures parts == SplitChainPath(ref)
  {
    var raw := Split(DropSlash(ref), '/');
    parts := [];
    assert raw[0..] == raw && CleanPieces(raw) == Prepend([], CleanPieces(raw)) by {
      if CleanPieces(raw).Some? { assert [] + CleanPieces(raw).value == CleanPieces(raw).value; }
    }
    for i := 0 to |raw|
      invariant CleanPieces(raw) == Prepend(parts, CleanPieces(raw[i..]))
    {
      var p := TrimSpace(raw[i]);
      assert raw[i..][1..] == raw[i + 1..];
      var rest := CleanPieces(raw[i + 1..]);
      assert rest.Some? ==> parts + ([p] + rest.value) == (parts + [p]) + rest.value;
      if p == "" {
        continue;
      }
      if p == "." || p == ".." {
        return [];
      }
      parts := parts + [p];
    }
  }

  lemma CleanPiecesClean(raw: seq<string>)
    requires forall p <- raw :: '/' !in p
    ensures CleanPieces(raw).Some? ==> AllClean(CleanPieces(raw).value)
  {
    if raw != [] {
      TrimSpaceTrimmed(raw[0]);
      CleanPiecesClean(raw[1..]);
    }
  }

  lemma SplitIsClean(ref: string)
    ensures AllClean(SplitChainPath(ref))
  {
    CleanPiecesClean(Split(DropSlash(ref), '/'));
  }

  lemma CleanPiecesFixed(parts: seq<string>)
    requires AllClean(parts)
    ensures CleanPieces(parts) == Some(parts)
  {
    if parts != [] {
      TrimSpaceFixed(parts[0]);
      CleanPiecesFixed(parts[1..]);
      assert [parts[0]] + parts[1..] == parts;
    }
  }

  /** A path of clean names, joined and parsed again, is itself. */
  lemma SplitOfJoin(parts: seq<string>)
    requires parts != [] && AllClean(parts)
    ensures SplitChainPath(Join(parts, "/")) == parts
  {
    var ref := Join(parts, "/");
    assert ref[0] == parts[0][0];
    SplitJoin(parts, '/');
    CleanPiecesFixed(parts);
  }

  // ----- looking a path up -----

  function FirstNamed(rs: seq<Request>, name: string): Option<Request> {
    if rs == [] then None
    else if rs[0].name == name then Some(rs[0])
    else FirstNamed(rs[1..], name)
  }

  /** `findRequestInContainer`. */
  function Lookup(c: Container, parts: seq<string>): Option<Request>
    decreases c, 1, 0
  {
    if parts == [] then None
    else if |parts| == 1 then FirstNamed(c.requests, parts[0])
    else LookupFrom(c, 0, parts)
  }

  function LookupFrom(c: Container, i: nat, parts: seq<string>): Option<Request>
    requires |parts| > 1
    decreases c, 0, |c.folders| - i
  {
    if i >= |c.folders| then None
    else if c.folders[i].name == parts[0] && Lookup(c.folders[i].items, parts[1..]).Some?
    then Lookup(c.folders[i].items, parts[1..])
    else LookupFrom(c, i + 1, parts)
  }

  /** The request a reference string names. */
  function Resolve(c: Container, ref: string): Option<Request> {
    Lookup(c, SplitChainPath(ref))
  }

  /** Sibling folders have distinct names, and so have sibling requests, at every level. */
  ghost predicate WellNamed(c: Container) {
    && (forall i, j :: 0 <= i < j < |c.folders| ==> c.folders[i].name != c.folders[j].name)
    && (forall i, j :: 0 <= i < j < |c.requests| ==> c.requests[i].name != c.requests[j].name)
    && (forall i :: 0 <= i < |c.folders| ==> WellNamed(c.folders[i].items))
  }

  lemma LookupFromHit(c: Container, i: nat, j: nat, parts: seq<string>)
    requires WellNamed(c) && |parts| > 1 && i <= j < |c.folders| && c.folders[j].name == parts[0]
    ensures LookupFrom(c, i, parts) == Lookup(c.folders[j].items, parts[1..])
    decreases |c.folders| - i
  {
    if i < j {
      LookupFromHit(c, i + 1, j, parts);
    } else {
      LookupFromMiss(c, i + 1, parts);
    }
  }

  lemma LookupFromMiss(c: Container, i: nat, parts: seq<string>)
    requires |parts| > 1
    requires forall j :: i <= j < |c.folders| ==> c.folders[j].name != parts[0]
    ensures LookupFrom(c, i, parts) == None
    decreases |c.folders| - i
  {
    if i < |c.folders| {
      LookupFromMiss(c, i + 1, parts);
    }
  }

  lemma FirstNamedHit(rs: seq<Request>, j: nat)
    requires forall i, k :: 0 <= i < k < |rs| ==> rs[i].name != rs[k].name
    requires j < |rs|
    ensures FirstNamed(rs, rs[j].name) == Some(rs[j])
  {
    if j > 0 {
      FirstNamedHit(rs[1..], j - 1);
    }
  }

  lemma FirstNamedMiss(rs: seq<Request>, name: string)
    requires forall i :: 0 <= i < |rs| ==> rs[i].name != name
    ensures FirstNamed(rs, name) == None
  {
  }

  // ----- the name path of a node -----

  function NodeName(n: Node): string {
    match n
    case FolderNode(f) => f.name
    case RequestNode(r) => r.name
  }

  /** The names from the top of the collection down to the node at a. */
  function Names(c: Container, a: seq<Seg>): (names: seq<string>)
    requires Has(c, a)
    ensures |names| == |a| && names[|a| - 1] == NodeName(Pick(c, a))
    decreases |a|
  {
    if |a| == 1 then
      assert Parent(a) == [];
      [NodeName(ChildAt(c, a[0]))]
    else
      Descend(c, a);
      [c.folders[a[0].i].name] + Names(Sub(c, a[0]), a[1..])
  }

  /** Does a reference with these segments point at the node called `names` (a request), or at a
      request inside it (a folder)? */
  predicate Targets(parts: seq<string>, names: seq<string>, folder: bool) {
    names <= parts && if folder then |parts| > |names| else |parts| == |names|
  }

  /** What a path finds inside a node, given the segments past the node's own names. */
  function Inside(n: Node, tail: seq<string>): Option<Request> {
    match n
    case FolderNode(f) => Lookup(f.items, tail)
    case RequestNode(r) => Some(r)
  }

  /** The heart of both rename and move: cutting a node removes exactly the paths that target it,
      and those paths are answered by the node itself. */
  lemma CutLookup(c: Container, a: seq<Seg>, parts: seq<string>)
    requires WellNamed(c) && Has(c, a)
    ensures var hit := Targets(parts, Names(c, a), Last(a).F?);
            && Lookup(Cut(c, a), parts) == (if hit then None else Lookup(c, parts))
            && (hit ==> Lookup(c, parts) == Inside(Pick(c, a), parts[|a|..]))
    decreases |a|
  {
    if |a| == 1 {
      assert Parent(a) == [];
      if a[0].F? { CutFolderLookup(c, a[0].i, parts); } else { CutRequestLookup(c, a[0].i, parts); }
    } else {
      Descend(c, a);
      if |parts| > 1 {
        NamesStep(c, a, parts);
        if parts[0] == c.folders[a[0].i].name {
          CutLookup(Sub(c, a[0]), a[1..], parts[1..]);
          CutBelowHit(c, a, parts);
        } else {
          SameElsewhere(c, Cut(c, a), a[0].i, 0, parts);
        }
      }
    }
  }

  lemma CutBelowHit(c: Container, a: seq<Seg>, parts: seq<string>)
    requires WellNamed(c) && |a| > 1 && Has(c, a) && |parts| > 1
    requires Opens(c, a[0]) && Has(Sub(c, a[0]), a[1..]) && parts[0] == c.folders[a[0].i].name
    ensures Lookup(c, parts) == Lookup(Sub(c, a[0]), parts[1..])
    ensures Lookup(Cut(c, a), parts) == Lookup(Cut(Sub(c, a[0]), a[1..]), parts[1..])
  {
    Descend(c, a);
    LookupFromHit(c, 0, a[0].i, parts);
    CutWellNamed(c, a);
    LookupFromHit(Cut(c, a), 0, a[0].i, parts);
  }

  lemma NamesStep(c: Container, a: seq<Seg>, parts: seq<string>)
    requires |a| > 1 && Has(c, a) && |parts| > 1
    ensures Opens(c, a[0]) && Has(Sub(c, a[0]), a[1..])
    ensures forall folder ::
              Targets(parts, Names(c, a), folder) <==>
              parts[0] == c.folders[a[0].i].name && Targets(parts[1..], Names(Sub(c, a[0]), a[1..]), folder)
    ensures |parts| >= |a| ==> parts[|a|..] == parts[1..][|a[1..]|..]
  {
    Descend(c, a);
    var names := Names(c, a);
    assert names[1..] == Names(Sub(c, a[0]), a[1..]);
    PrefixStep(names, parts);
  }

  lemma SameElsewhere(c: Container, d: Container, k: nat, i: nat, parts: seq<string>)
    requires |parts| > 1 && k < |c.folders| == |d.folders|
    requires parts[0] != c.folders[k].name == d.folders[k].name
    requires forall j :: 0 <= j < |c.folders| && j != k ==> c.folders[j] == d.folders[j]
    ensures LookupFrom(c, i, parts) == LookupFrom(d, i, parts)
    decreases |c.folders| - i
  {
    if i < |c.folders| {
      SameElsewhere(c, d, k, i + 1, parts);
    }
  }

  lemma CutFolderLookup(c: Container, k: nat, parts: seq<string>)
    requires WellNamed(c) && k < |c.folders|
    ensures var d := CutChild(c, F(k));
            var hit := |parts| > 1 && parts[0] == c.folders[k].name;
            && Lookup(d, parts) == (if hit then None else Lookup(c, parts))
            && (hit ==> Lookup(c, parts) == Lookup(c.folders[k].items, parts[1..]))
  {
    var d := CutChild(c, F(k));
    if |parts| > 1 {
      if j: nat :| j < |c.folders| && c.folders[j].name == parts[0] {
        LookupFromHit(c, 0, j, parts);
        if j == k {
          LookupFromMiss(d, 0, parts);
        } else {
          LookupFromHit(d, 0, if j < k then j else j - 1, parts);
        }
      } else {
        LookupFromMiss(c, 0, parts);
        LookupFromMiss(d, 0, parts);
      }
    }
  }

  lemma CutRequestLookup(c: Container, k: nat, parts: seq<string>)
    requires WellNamed(c) && k < |c.requests|
    ensures var d := CutChild(c, R(k));
            var hit := parts == [c.requests[k].name];
            && Lookup(d, parts) == (if hit then None else Lookup(c, parts))
            && (hit ==> Lookup(c, parts) == Some(c.requests[k]))
  {
    var d := CutChild(c, R(k));
    if |parts| == 1 {
      if j: nat :| j < |c.requests| && c.requests[j].name == parts[0] {
        FirstNamedHit(c.requests, j);
        if j == k {
          FirstNamedMiss(d.requests, parts[0]);
        } else {
          FirstNamedHit(d.requests, if j < k then j else j - 1);
        }
      } else {
        FirstNamedMiss(c.requests, parts[0]);
        FirstNamedMiss(d.requests, parts[0]);
      }
    } else if |parts| > 1 {
      SameFolders(c, d, 0, parts);
    }
  }

  lemma SameFolders(c: Container, d: Container, i: nat, parts: seq<string>)
    requires |parts| > 1 && c.folders == d.folders
    ensures LookupFrom(c, i, parts) == LookupFrom(d, i, parts)
    decreases |c.folders| - i
  {
    if i < |c.folders| {
      SameFolders(c, d, i + 1, parts);
    }
  }

  lemma CutWellNamed(c: Container, a: seq<Seg>)
    requires WellNamed(c) && Has(c, a)
    ensures WellNamed(Cut(c, a))
    decreases |a|
  {
    if |a| == 1 {
      assert Parent(a) == [];
    } else {
      Descend(c, a);
      CutWellNamed(Sub(c, a[0]), a[1..]);
    }
  }
}
