/** `internal/storage/store.go`: writing a tree of folders and requests into a directory and reading
    it back. A directory is a map from names to entries; YAML is taken as exact on the file shapes of
    `OpenCollection`, so a file is what each of the four unmarshal calls makes of its bytes. */
module Store {
  import opened Text
  import opened Model
  import opened OpenCollection
  import opened FileNames
  import opened Listing

  datatype Content = Content(collection: Option<CollectionFile>, folder: Option<FolderFile>,
                             request: Option<RequestFile>, environment: Option<EnvironmentFile>)
  datatype Entry = File(content: Content) | Dir(entries: map<string, Entry>)

  const COLLECTION_FILE := "opencollection.yml"
  const FOLDER_FILE := "folder.yml"
  const ENVIRONMENTS := "environments"
  const YML := ".yml"

  /** The base names items may not take, and the entries a sweep never removes. */
  const RESERVED: set<string> := {"opencollection", "folder", "environments"}
  const KEPT: set<string> := {COLLECTION_FILE, FOLDER_FILE, ENVIRONMENTS}

  function RequestEntry(f: RequestFile): Entry { File(Content(None, None, Some(f), None)) }
  function FolderEntry(f: FolderFile): Entry { File(Content(None, Some(f), None, None)) }

  // ----- names -----

  function Elems(xs: seq<string>): set<string> { set x <- xs }

  /** The names handed to the first n bases in turn, starting from the taken names `used`. */
  function NamesFor(bases: seq<string>, used: set<string>, n: nat): (names: seq<string>)
    requires n <= |bases|
    ensures |names| == n
  {
    if n == 0 then []
    else
      var before := NamesFor(bases, used, n - 1);
      before + [FreshName(bases[n - 1], used + Elems(before))]
  }

  lemma {:induction false} NamesForPrefix(bases: seq<string>, used: set<string>, m: nat, n: nat)
    requires m <= n <= |bases|
    ensures NamesFor(bases, used, n)[..m] == NamesFor(bases, used, m)
  {
    if m < n {
      NamesForPrefix(bases, used, m, n - 1);
      assert NamesFor(bases, used, n)[..m] == NamesFor(bases, used, n - 1)[..m];
    }
  }

  lemma NamesForStep(bases: seq<string>, used: set<string>, n: nat)
    requires n < |bases|
    ensures NamesFor(bases, used, |bases|)[n] == FreshName(bases[n], used + Elems(NamesFor(bases, used, n)))
    ensures Elems(NamesFor(bases, used, n + 1))
         == Elems(NamesFor(bases, used, n)) + {NamesFor(bases, used, |bases|)[n]}
  {
    hide FreshName;
    NamesForPrefix(bases, used, n + 1, |bases|);
    assert NamesFor(bases, used, |bases|)[n] == NamesFor(bases, used, n + 1)[n];
  }

  /** The names are slugs, pairwise distinct, and none of them was taken before. */
  lemma {:induction false} NamesForFresh(bases: seq<string>, used: set<string>, n: nat)
    requires n <= |bases|
    requires forall b <- bases :: IsSlug(b)
    ensures forall i :: 0 <= i < n ==> NamesFor(bases, used, n)[i] !in used && IsSlug(NamesFor(bases, used, n)[i])
    ensures forall i, j :: 0 <= i < j < n ==> NamesFor(bases, used, n)[i] != NamesFor(bases, used, n)[j]
  {
    if n > 0 {
      NamesForFresh(bases, used, n - 1);
      var before := NamesFor(bases, used, n - 1);
      assert bases[n - 1] in bases;
      FreshNameIsSlug(bases[n - 1], used + Elems(before));
      assert forall i :: 0 <= i < n - 1 ==> before[i] in Elems(before);
    }
  }

  function RequestBase(r: Request, i: nat): string { Slug(r.name, "request-" + Itoa(i + 1)) }
  function FolderBase(f: Folder, j: nat): string { Slug(f.name, "folder-" + Itoa(j + 1)) }

  /** The slugs of a container's requests, then of its folders. */
  function Bases(items: Container): (bases: seq<string>)
    ensures |bases| == |items.requests| + |items.folders|
  {
    seq(|items.requests|, i requires 0 <= i < |items.requests| => RequestBase(items.requests[i], i))
    + seq(|items.folders|, j requires 0 <= j < |items.folders| => FolderBase(items.folders[j], j))
  }

  function Names(items: Container): (names: seq<string>)
    ensures |names| == |items.requests| + |items.folders|
  {
    NamesFor(Bases(items), RESERVED, |Bases(items)|)
  }

  function RequestKey(items: Container, i: nat): string
    requires i < |items.requests|
  {
    Names(items)[i] + YML
  }

  function FolderKey(items: Container, j: nat): string
    requires j < |items.folders|
  {
    Names(items)[|items.requests| + j]
  }

  lemma WordsAreSlugs()
    ensures IsSlug("request") && IsSlug("folder") && IsSlug("env")
  {
  }

  lemma BasesAreSlugs(items: Container)
    ensures forall b <- Bases(items) :: IsSlug(b)
  {
    WordsAreSlugs();
    forall i | 0 <= i < |items.requests|
      ensures IsSlug(RequestBase(items.requests[i], i))
    {
      NumberedIsSlug("request", i + 1);
      SlugIsSlug(items.requests[i].name, "request-" + Itoa(i + 1));
    }
    forall j | 0 <= j < |items.folders|
      ensures IsSlug(FolderBase(items.folders[j], j))
    {
      NumberedIsSlug("folder", j + 1);
      SlugIsSlug(items.folders[j].name, "folder-" + Itoa(j + 1));
    }
  }

  lemma NamesAreFresh(items: Container)
    ensures forall i :: 0 <= i < |Names(items)| ==> Names(items)[i] !in RESERVED && IsSlug(Names(items)[i])
    ensures forall i, j :: 0 <= i < j < |Names(items)| ==> Names(items)[i] != Names(items)[j]
  {
    BasesAreSlugs(items);
    NamesForFresh(Bases(items), RESERVED, |Bases(items)|);
  }

  lemma YmlInjective(a: string, b: string)
    requires a + YML == b + YML
    ensures a == b
  {
    assert |a + YML| == |a| + 4 && |b + YML| == |b| + 4;
    assert a == (a + YML)[..|a|] == (b + YML)[..|b|] == b;
  }

  /** The keys of the first n requests and m folders. */
  ghost function Keys(items: Container, n: nat, m: nat): set<string>
    requires n <= |items.requests| && m <= |items.folders|
  {
    (set i | 0 <= i < n :: RequestKey(items, i)) + (set j | 0 <= j < m :: FolderKey(items, j))
  }

  ghost function AllKeys(items: Container): set<string> {
    Keys(items, |items.requests|, |items.folders|)
  }

  lemma ReservedKeys()
    ensures COLLECTION_FILE == "opencollection" + YML && FOLDER_FILE == "folder" + YML
    ensures '.' in COLLECTION_FILE && '.' in FOLDER_FILE
  {
    assert COLLECTION_FILE[14] == '.' && FOLDER_FILE[6] == '.';
  }

  /** Everything the proofs below need of the keys: no two items share one, and none is reserved. */
  ghost predicate KeysApart(items: Container) {
    && (forall i :: 0 <= i < |items.requests| ==> RequestKey(items, i) !in KEPT)
    && (forall i :: 0 <= i < |items.requests| ==> HasSuffix(RequestKey(items, i), YML))
    && (forall j :: 0 <= j < |items.folders| ==> FolderKey(items, j) !in KEPT)
    && (forall i, j :: 0 <= i < |items.requests| && 0 <= j < |items.folders| ==> RequestKey(items, i) != FolderKey(items, j))
    && (forall i, j :: 0 <= i < j < |items.requests| ==> RequestKey(items, i) != RequestKey(items, j))
    && (forall i, j :: 0 <= i < j < |items.folders| ==> FolderKey(items, i) != FolderKey(items, j))
  }

  lemma KeysAreApart(items: Container)
    ensures KeysApart(items)
  {
    hide Names;
    NamesAreFresh(items);
    ReservedKeys();
    var names := Names(items);
    forall i | 0 <= i < |items.requests|
      ensures RequestKey(items, i) !in KEPT && HasSuffix(RequestKey(items, i), YML) && '.' in RequestKey(items, i)
    {
      var k := names[i] + YML;
      assert k[|names[i]|] == '.' && k[|names[i]|..] == YML;
      if k == COLLECTION_FILE {
        YmlInjective(names[i], "opencollection");
      } else if k == FOLDER_FILE {
        YmlInjective(names[i], "folder");
      } else {
        assert '.' !in ENVIRONMENTS;
      }
    }
    forall i, j | 0 <= i < j < |items.requests|
      ensures RequestKey(items, i) != RequestKey(items, j)
    {
      if RequestKey(items, i) == RequestKey(items, j) {
        YmlInjective(names[i], names[j]);
      }
    }
    forall j | 0 <= j < |items.folders|
      ensures '.' !in FolderKey(items, j) && FolderKey(items, j) !in KEPT
    {
    }
  }

  // ----- saving -----

  /** A directory the sweep takes for a collection folder, or a YAML file. */
  predicate Sweepable(name: string, e: Entry) {
    match e
    case Dir(entries) => FOLDER_FILE in entries
    case File(_) => HasSuffix(name, YML)
  }

  predicate Survives(name: string, e: Entry) {
    name in KEPT || !Sweepable(name, e)
  }

  function Swept(dir: map<string, Entry>, keep: set<string>): map<string, Entry> {
    map k | k in dir && (k in keep || !Sweepable(k, dir[k])) :: dir[k]
  }

  /** `sweepDir` on a directory that exists. */
  method SweepDir(dir: map<string, Entry>, keep: set<string>) returns (after: map<string, Entry>)
    ensures after == Swept(dir, keep)
  {
    hide SweptOver, Sweepable;
    var entries := ReadDir(dir);
    ListsEach(entries, dir.Keys);
    after := dir;
    assert SweptOver(dir, keep, [], dir) by {
      SweepStarts(dir, keep);
    }
    for i := 0 to |entries|
      invariant SweptOver(dir, keep, entries[..i], after)
    {
      var name := entries[i];
      assert name in entries && entries[..i + 1] == entries[..i] + [name];
      SweepStep(dir, keep, entries[..i], name, after);
      if name !in keep && Sweepable(name, dir[name]) {
        after := after - {name};
      }
    }
    assert entries[..|entries|] == entries;
    SweepEnds(dir, keep, entries, after);
  }

  lemma SweepStarts(dir: map<string, Entry>, keep: set<string>)
    ensures SweptOver(dir, keep, [], dir)
  {
  }

  lemma SweepStep(dir: map<string, Entry>, keep: set<string>, done: seq<string>, name: string, now: map<string, Entry>)
    requires name in dir && SweptOver(dir, keep, done, now)
    ensures SweptOver(dir, keep, done + [name], if name !in keep && Sweepable(name, dir[name]) then now - {name} else now)
  {
    hide Sweepable;
  }

  lemma SweepEnds(dir: map<string, Entry>, keep: set<string>, done: seq<string>, now: map<string, Entry>)
    requires SweptOver(dir, keep, done, now)
    requires forall k :: k in done <==> k in dir
    ensures now == Swept(dir, keep)
  {
    hide Sweepable;
  }

  /** The sweep has dealt with the names in `done`. */
  ghost predicate SweptOver(dir: map<string, Entry>, keep: set<string>, done: seq<string>, now: map<string, Entry>) {
    && (forall k :: k in now <==> k in dir && (k in done ==> k in keep || !Sweepable(k, dir[k])))
    && (forall k <- now :: now[k] == dir[k])
  }

  /** Whatever a user keeps in a collection directory: files without the suffix ".yml", directories
      without a "folder.yml", and the three reserved names stay as they are; any other file or directory
      that is not one of the items goes. */
  lemma StrangersSurvive(dir: map<string, Entry>, items: Container, after: map<string, Entry>, k: string)
    requires IsSaved(dir, items, after) && k in dir && k !in AllKeys(items)
    ensures var stays := match dir[k]
                         case File(_) => !(exists stem: string :: k == stem + ".yml")
                         case Dir(entries) => "folder.yml" !in entries;
            if stays || k == "opencollection.yml" || k == "folder.yml" || k == "environments"
            then k in after && after[k] == dir[k] else k !in after
  {
    hide RequestPut, FolderPut, AllKeys, Keys, Names;
    if HasSuffix(k, ".yml") {
      assert k == k[..|k| - 4] + ".yml";
    }
    if stem: string :| k == stem + ".yml" {
      assert k[|stem|..] == ".yml";
    }
  }

  function PriorRequest(dir: map<string, Entry>, key: string): Option<RequestFile> {
    if key in dir && dir[key].File? then dir[key].content.request else None
  }

  function PriorFolder(dir: map<string, Entry>): Option<FolderFile> {
    if FOLDER_FILE in dir && dir[FOLDER_FILE].File? then dir[FOLDER_FILE].content.folder else None
  }

  /** What `MkdirAll` leaves at a name that holds no file. */
  function SubDir(dir: map<string, Entry>, key: string): map<string, Entry> {
    if key in dir && dir[key].Dir? then dir[key].entries else map[]
  }

  function SavedFolder(f: Folder, seqNo: int, prev: Option<FolderFile>): FolderFile {
    var ff := FolderFile(FreshInfo(f.name, "", "folder", seqNo), AuthToFile(f.auth), VarRowsOf(f.variables), map[]);
    if prev.None? then ff
    else ff.(extra := prev.value.extra, info := ff.info.(extra := prev.value.info.extra),
             auth := MergeAuth(ff.auth, prev.value.auth))
  }

  /** The directory at `name` with the folder's own file written and its items not yet saved. */
  function Made(dir: map<string, Entry>, name: string, f: Folder, seqNo: int): map<string, Entry> {
    var sub := SubDir(dir, name);
    sub[FOLDER_FILE := FolderEntry(SavedFolder(f, seqNo, PriorFolder(sub)))]
  }

  function Opened(dir: map<string, Entry>, items: Container, j: nat): map<string, Entry>
    requires j < |items.folders|
  {
    Made(dir, FolderKey(items, j), items.folders[j], j + 1)
  }

  ghost predicate RequestPut(dir: map<string, Entry>, items: Container, i: nat, now: map<string, Entry>)
    requires i < |items.requests|
  {
    var k := RequestKey(items, i);
    k in now && now[k] == RequestEntry(SavedRequest(items.requests[i], i + 1, PriorRequest(dir, k)))
  }

  ghost predicate FolderPut(dir: map<string, Entry>, items: Container, j: nat, now: map<string, Entry>)
    requires j < |items.folders|
    decreases items, 0
  {
    var k := FolderKey(items, j);
    k in now && now[k].Dir? && IsSaved(Opened(dir, items, j), items.folders[j].items, now[k].entries)
  }

  /** `after` is what saving `items` into `dir` leaves: every request in its own file, every folder in
      its own directory, and of the rest exactly what a sweep leaves alone. */
  ghost predicate IsSaved(dir: map<string, Entry>, items: Container, after: map<string, Entry>)
    decreases items, 1
  {
    && (forall i | 0 <= i < |items.requests| :: RequestPut(dir, items, i, after))
    && (forall j | 0 <= j < |items.folders| :: FolderPut(dir, items, j, after))
    && (forall k | k !in AllKeys(items) :: k in after <==> k in dir && Survives(k, dir[k]))
    && (forall k | k !in AllKeys(items) && k in after :: k in dir && after[k] == dir[k])
  }

  ghost predicate RequestClash(dir: map<string, Entry>, items: Container) {
    exists i :: 0 <= i < |items.requests| && RequestKey(items, i) in dir && dir[RequestKey(items, i)].Dir?
  }

  /** Some name an item needs is held by an entry of the wrong kind. */
  ghost predicate Clash(dir: map<string, Entry>, items: Container)
    decreases items, 1
  {
    || RequestClash(dir, items)
    || exists j :: 0 <= j < |items.folders| && FolderClash(dir, items, j)
  }

  ghost predicate FolderClash(dir: map<string, Entry>, items: Container, j: nat)
    requires j < |items.folders|
    decreases items, 0
  {
    FolderBlocked(dir, FolderKey(items, j), items.folders[j], j + 1)
  }

  ghost predicate FolderBlocked(dir: map<string, Entry>, name: string, f: Folder, seqNo: int)
    decreases f, 2
  {
    || (name in dir && dir[name].File?)
    || (FOLDER_FILE in SubDir(dir, name) && SubDir(dir, name)[FOLDER_FILE].Dir?)
    || Clash(Made(dir, name, f, seqNo), f.items)
  }

  /** The state of the directory once n requests and m folders are in place and nothing is swept. */
  ghost predicate Staged(dir: map<string, Entry>, items: Container, n: nat, m: nat, now: map<string, Entry>)
    requires n <= |items.requests| && m <= |items.folders|
  {
    && (forall i | 0 <= i < n :: RequestPut(dir, items, i, now))
    && (forall j | 0 <= j < m :: FolderPut(dir, items, j, now))
    && (forall k | k !in Keys(items, n, m) :: k in now <==> k in dir)
    && (forall k | k !in Keys(items, n, m) && k in now :: now[k] == dir[k])
  }

  lemma NextRequestKey(items: Container, n: nat)
    requires n < |items.requests|
    ensures RequestKey(items, n) !in Keys(items, n, 0)
    ensures Keys(items, n + 1, 0) == Keys(items, n, 0) + {RequestKey(items, n)}
    ensures forall i :: 0 <= i < n ==> RequestKey(items, i) != RequestKey(items, n)
  {
    hide RequestKey, FolderKey;
    KeysAreApart(items);
  }

  lemma StageRequest(dir: map<string, Entry>, items: Container, n: nat, now: map<string, Entry>)
    requires n < |items.requests| && Staged(dir, items, n, 0, now)
    ensures RequestKey(items, n) in now <==> RequestKey(items, n) in dir
    ensures RequestKey(items, n) in now ==> now[RequestKey(items, n)] == dir[RequestKey(items, n)]
    ensures Staged(dir, items, n + 1, 0, now[RequestKey(items, n) :=
      RequestEntry(SavedRequest(items.requests[n], n + 1, PriorRequest(dir, RequestKey(items, n))))])
  {
    hide RequestKey, FolderKey, SavedRequest, Keys, PriorRequest, FolderPut;
    NextRequestKey(items, n);
    var k := RequestKey(items, n);
    var next := now[k := RequestEntry(SavedRequest(items.requests[n], n + 1, PriorRequest(dir, k)))];
    forall i | 0 <= i < n + 1
      ensures RequestPut(dir, items, i, next)
    {
      if i < n {
        assert RequestPut(dir, items, i, now);
        assert RequestKey(items, i) != k;
      }
    }
  }

  lemma StageFolder(dir: map<string, Entry>, items: Container, m: nat, now: map<string, Entry>, sub: map<string, Entry>)
    requires m < |items.folders| && Staged(dir, items, |items.requests|, m, now)
    requires IsSaved(Opened(dir, items, m), items.folders[m].items, sub)
    ensures Staged(dir, items, |items.requests|, m + 1, now[FolderKey(items, m) := Dir(sub)])
  {
    hide RequestKey, FolderKey, SavedRequest, IsSaved, Opened;
    KeysAreApart(items);
    var k := FolderKey(items, m);
    assert Keys(items, |items.requests|, m + 1) == Keys(items, |items.requests|, m) + {k};
    var next := now[k := Dir(sub)];
    forall i | 0 <= i < |items.requests|
      ensures RequestPut(dir, items, i, next)
    {
      assert RequestPut(dir, items, i, now);
      assert RequestKey(items, i) != k;
    }
    forall j | 0 <= j < m + 1
      ensures FolderPut(dir, items, j, next)
    {
      if j < m {
        assert FolderPut(dir, items, j, now);
        assert FolderKey(items, j) != k;
      }
    }
  }

  lemma FolderUntouched(dir: map<string, Entry>, items: Container, m: nat, now: map<string, Entry>)
    requires m < |items.folders| && Staged(dir, items, |items.requests|, m, now)
    ensures FolderKey(items, m) in now <==> FolderKey(items, m) in dir
    ensures FolderKey(items, m) in now ==> now[FolderKey(items, m)] == dir[FolderKey(items, m)]
  {
    hide RequestKey, FolderKey, SavedRequest, IsSaved, Opened;
    KeysAreApart(items);
    assert FolderKey(items, m) !in Keys(items, |items.requests|, m);
  }

  lemma SweepFinishes(dir: map<string, Entry>, items: Container, now: map<string, Entry>)
    requires Staged(dir, items, |items.requests|, |items.folders|, now)
    ensures IsSaved(dir, items, Swept(now, KEPT + AllKeys(items)))
  {
    hide RequestKey, FolderKey, SavedRequest, Opened;
    var after := Swept(now, KEPT + AllKeys(items));
    forall i | 0 <= i < |items.requests|
      ensures RequestPut(dir, items, i, after)
    {
      assert RequestPut(dir, items, i, now);
      assert RequestKey(items, i) in AllKeys(items);
    }
    forall j | 0 <= j < |items.folders|
      ensures FolderPut(dir, items, j, after)
    {
      assert FolderPut(dir, items, j, now);
      assert FolderKey(items, j) in AllKeys(items);
    }
  }

  /** Writing one request over whatever its name holds; a directory there makes the write fail. */
  method WriteRequest(dir: map<string, Entry>, key: string, r: Request, seqNo: int)
    returns (ok: bool, after: map<string, Entry>)
    ensures ok <==> !(key in dir && dir[key].Dir?)
    ensures ok ==> after == dir[key := RequestEntry(SavedRequest(r, seqNo, PriorRequest(dir, key)))]
  {
    hide RequestFileOf, Replacing;
    var f := RequestToFile(r, seqNo);
    if key in dir {
      match dir[key]
      case Dir(_) =>
        return false, dir;
      case File(content) =>
        if content.request.Some? {
          f := MergeRequest(f, content.request.value);
        }
    }
    return true, dir[key := RequestEntry(f)];
  }

  /** Writing a folder's own file into its directory. */
  method WriteFolder(sub: map<string, Entry>, f: Folder, seqNo: int) returns (ok: bool, after: map<string, Entry>)
    ensures ok <==> !(FOLDER_FILE in sub && sub[FOLDER_FILE].Dir?)
    ensures ok ==> after == sub[FOLDER_FILE := FolderEntry(SavedFolder(f, seqNo, PriorFolder(sub)))]
  {
    hide AuthToFile, MergeAuth;
    var vars := VarsToFile(f.variables);
    var ff := FolderFile(FreshInfo(f.name, "", "folder", seqNo), AuthToFile(f.auth), vars, map[]);
    if FOLDER_FILE in sub {
      match sub[FOLDER_FILE]
      case Dir(_) =>
        return false, sub;
      case File(content) =>
        if content.folder.Some? {
          var prev := content.folder.value;
          ff := ff.(extra := prev.extra, info := ff.info.(extra := prev.info.extra), auth := MergeAuth(ff.auth, prev.auth));
        }
    }
    return true, sub[FOLDER_FILE := FolderEntry(ff)];
  }

  /** The request loop of `saveItems`, with the used names and the names to keep that it leaves. */
  method SaveRequests(dir: map<string, Entry>, items: Container)
    returns (ok: bool, after: map<string, Entry>, used: set<string>, keep: set<string>)
    ensures ok <==> !RequestClash(dir, items)
    ensures ok ==> Staged(dir, items, |items.requests|, 0, after)
    ensures ok ==> used == RESERVED + Elems(NamesFor(Bases(items), RESERVED, |items.requests|))
    ensures ok ==> keep == KEPT + Keys(items, |items.requests|, 0)
  {
    hide RequestKey, FolderKey, SavedRequest, NamesFor, IsSaved, Staged, FreshName, Slug, Keys, Names, PriorRequest;
    used, keep := RESERVED, KEPT;
    after := dir;
    StageNothing(dir, items);
    for i := 0 to |items.requests|
      invariant used == RESERVED + Elems(NamesFor(Bases(items), RESERVED, i))
      invariant keep == KEPT + Keys(items, i, 0)
      invariant Staged(dir, items, i, 0, after)
      invariant forall n :: 0 <= n < i ==> !(RequestKey(items, n) in dir && dir[RequestKey(items, n)].Dir?)
    {
      var name;
      NameTaken(items, i);
      name, used := UniqueName(Slug(items.requests[i].name, "request-" + Itoa(i + 1)), used);
      RequestKeyIs(items, i, name);
      keep := keep + {name + YML};
      StageRequest(dir, items, i, after);
      PriorsAgree(after, dir, name + YML);
      ok, after := WriteRequest(after, name + YML, items.requests[i], i + 1);
      if !ok {
        return;
      }
    }
    ok := true;
  }

  /** `saveItems`. It fails exactly when a name it needs is held by an entry of the wrong kind. */
  method SaveItems(dir: map<string, Entry>, items: Container) returns (ok: bool, after: map<string, Entry>)
    ensures ok <==> !Clash(dir, items)
    ensures ok ==> IsSaved(dir, items, after)
    decreases items
  {
    hide RequestKey, FolderKey, SavedFolder, NamesFor, IsSaved, Staged, Opened, FreshName, Slug, Keys, Names,
         PriorFolder, RequestClash;
    var used, keep;
    ok, after, used, keep := SaveRequests(dir, items);
    if !ok {
      return;
    }
    for j := 0 to |items.folders|
      invariant used == RESERVED + Elems(NamesFor(Bases(items), RESERVED, |items.requests| + j))
      invariant keep == KEPT + Keys(items, |items.requests|, j)
      invariant Staged(dir, items, |items.requests|, j, after)
      invariant forall m :: 0 <= m < j ==> !FolderClash(dir, items, m)
    {
      var name;
      NameTaken(items, |items.requests| + j);
      name, used := UniqueName(Slug(items.folders[j].name, "folder-" + Itoa(j + 1)), used);
      FolderKeyIs(items, j, name);
      keep := keep + {name};
      FolderUntouched(dir, items, j, after);
      var sub;
      ok, sub := SaveFolder(after, name, items.folders[j], j + 1);
      OpenedIs(dir, items, j);
      FolderClashIs(dir, after, items, j, name);
      if !ok {
        return;
      }
      StageFolder(dir, items, j, after, sub);
      after := after[name := Dir(sub)];
    }
    SweepFinishes(dir, items, after);
    after := SweepDir(after, keep);
    ok := true;
  }

  /** The body of the folder loop of `saveItems`: make the directory, write its file, save what it
      holds. */
  method SaveFolder(dir: map<string, Entry>, name: string, f: Folder, seqNo: int)
    returns (ok: bool, sub: map<string, Entry>)
    ensures ok <==> !FolderBlocked(dir, name, f, seqNo)
    ensures ok ==> IsSaved(Made(dir, name, f, seqNo), f.items, sub)
    decreases f
  {
    hide IsSaved, SavedFolder, PriorFolder, Clash;
    if name in dir && dir[name].File? {
      return false, map[];
    }
    sub := if name in dir then dir[name].entries else map[];
    ok, sub := WriteFolder(sub, f, seqNo);
    if ok {
      ok, sub := SaveItems(sub, f.items);
    }
  }

  lemma PriorsAgree(a: map<string, Entry>, b: map<string, Entry>, key: string)
    requires key in a <==> key in b
    requires key in a ==> a[key] == b[key]
    ensures PriorRequest(a, key) == PriorRequest(b, key)
  {
  }

  lemma StageNothing(dir: map<string, Entry>, items: Container)
    ensures Staged(dir, items, 0, 0, dir)
    ensures Keys(items, 0, 0) == {}
    ensures Elems(NamesFor(Bases(items), RESERVED, 0)) == {}
  {
  }

  /** One call of `uniqueName` hands out the next name and records it. */
  lemma NameTaken(items: Container, n: nat)
    requires n < |Bases(items)|
    ensures Names(items)[n] == FreshName(Bases(items)[n], RESERVED + Elems(NamesFor(Bases(items), RESERVED, n)))
    ensures RESERVED + Elems(NamesFor(Bases(items), RESERVED, n)) + {Names(items)[n]}
         == RESERVED + Elems(NamesFor(Bases(items), RESERVED, n + 1))
  {
    hide NamesFor, FreshName;
    NamesForStep(Bases(items), RESERVED, n);
  }

  lemma RequestKeyIs(items: Container, i: nat, name: string)
    requires i < |items.requests| && name == Names(items)[i]
    ensures RequestKey(items, i) == name + YML
    ensures Keys(items, i + 1, 0) == Keys(items, i, 0) + {name + YML}
  {
    hide Names;
  }

  lemma FolderKeyIs(items: Container, j: nat, name: string)
    requires j < |items.folders| && name == Names(items)[|items.requests| + j]
    ensures FolderKey(items, j) == name
    ensures Keys(items, |items.requests|, j + 1) == Keys(items, |items.requests|, j) + {name}
  {
    hide Names, RequestKey;
  }

  lemma OpenedIs(dir: map<string, Entry>, items: Container, j: nat)
    requires j < |items.folders|
    ensures Opened(dir, items, j) == Made(dir, FolderKey(items, j), items.folders[j], j + 1)
  {
    hide FolderKey, Made;
  }

  lemma FolderClashIs(dir: map<string, Entry>, now: map<string, Entry>, items: Container, j: nat, name: string)
    requires j < |items.folders| && name == FolderKey(items, j)
    requires name in now <==> name in dir
    requires name in now ==> now[name] == dir[name]
    ensures Made(now, name, items.folders[j], j + 1) == Made(dir, name, items.folders[j], j + 1)
    ensures FolderClash(dir, items, j) <==> FolderBlocked(now, name, items.folders[j], j + 1)
    ensures FolderClash(dir, items, j) ==> Clash(dir, items)
  {
    hide FolderKey, SavedFolder, PriorFolder;
  }
}
