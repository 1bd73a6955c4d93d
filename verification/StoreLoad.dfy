/** `loadItems` of `internal/storage/store.go`: reading a directory into a tree, whatever order the
    directory lists its entries in. */
module StoreLoad {
  import opened Text
  import opened Model
  import opened OpenCollection
  import opened Listing
  import opened Store

  /** The entries `loadItems` opens as request files. */
  predicate IsRequestPath(dir: map<string, Entry>, name: string) {
    && name in dir && dir[name].File?
    && name != COLLECTION_FILE && name != FOLDER_FILE && HasSuffix(name, YML)
  }

  /** Those it keeps: the file parses, and its type is absent or "http". */
  predicate HoldsRequest(dir: map<string, Entry>, name: string) {
    && IsRequestPath(dir, name)
    && var f := dir[name].content.request;
    f.Some? && (f.value.info.typ == "" || f.value.info.typ == "http")
  }

  /** The subdirectories it opens as folders. */
  predicate IsFolderPath(dir: map<string, Entry>, name: string) {
    name in dir && dir[name].Dir? && name != ENVIRONMENTS && FOLDER_FILE in dir[name].entries
  }

  predicate FolderFileReads(sub: map<string, Entry>) {
    FOLDER_FILE in sub && sub[FOLDER_FILE].File? && sub[FOLDER_FILE].content.folder.Some?
  }

  predicate HoldsFolder(dir: map<string, Entry>, name: string) {
    IsFolderPath(dir, name) && FolderFileReads(dir[name].entries)
  }

  function RequestPaths(dir: map<string, Entry>): set<string> {
    set k | k in dir && HoldsRequest(dir, k)
  }

  function FolderPaths(dir: map<string, Entry>): set<string> {
    set k | k in dir && HoldsFolder(dir, k)
  }

  /** Some file the walk opens does not parse, or a folder file is a directory. */
  ghost predicate Unreadable(d: Entry)
    requires d.Dir?
  {
    exists k :: k in d.entries && EntryUnreadable(d, k)
  }

  ghost predicate EntryUnreadable(d: Entry, k: string)
    requires d.Dir? && k in d.entries
    decreases d, 0
  {
    || (IsRequestPath(d.entries, k) && d.entries[k].content.request.None?)
    || (IsFolderPath(d.entries, k) && (!FolderFileReads(d.entries[k].entries) || Unreadable(d.entries[k])))
  }

  predicate RequestRead(dir: map<string, Entry>, name: string, r: Request) {
    HoldsRequest(dir, name) && r == RequestOf(dir[name].content.request.value, r.id)
  }

  ghost predicate FolderRead(dir: map<string, Entry>, name: string, f: Folder)
    decreases f, 1
  {
    && HoldsFolder(dir, name)
    && var ff := dir[name].entries[FOLDER_FILE].content.folder.value;
    && f.name == ff.info.name
    && f.auth == ReadAuth(ff.auth, AUTH_INHERIT)
    && f.variables == VariablesOf(ff.vars)
    && IsLoaded(dir[name].entries, f.items)
  }

  function RequestSeq(dir: map<string, Entry>, name: string): int {
    if HoldsRequest(dir, name) then dir[name].content.request.value.info.seqNo else 0
  }

  function FolderSeq(dir: map<string, Entry>, name: string): int {
    if HoldsFolder(dir, name) then dir[name].entries[FOLDER_FILE].content.folder.value.info.seqNo else 0
  }

  /** `items` is read from the request files `rn` and the directories `fn`: all there are, each once,
      ordered by the numbers they carry. */
  ghost predicate LoadedFrom(dir: map<string, Entry>, items: Container, rn: seq<string>, fn: seq<string>)
    decreases items, 0
  {
    && Lists(rn, RequestPaths(dir)) && Lists(fn, FolderPaths(dir))
    && |rn| == |items.requests| && |fn| == |items.folders|
    && (forall i | 0 <= i < |rn| :: RequestRead(dir, rn[i], items.requests[i]))
    && (forall j | 0 <= j < |fn| :: FolderRead(dir, fn[j], items.folders[j]))
    && (forall i, k | 0 <= i < k < |rn| :: RequestSeq(dir, rn[i]) <= RequestSeq(dir, rn[k]))
    && (forall j, k | 0 <= j < k < |fn| :: FolderSeq(dir, fn[j]) <= FolderSeq(dir, fn[k]))
  }

  ghost predicate IsLoaded(dir: map<string, Entry>, items: Container)
    decreases items, 1
  {
    exists rn: seq<string>, fn: seq<string> :: LoadedFrom(dir, items, rn, fn)
  }

  // ----- the method -----

  /** `model.NewID`. */
  method NewID() returns (id: string) {
    id := *;
  }

  ghost predicate RequestsFrom(dir: map<string, Entry>, xs: seq<Numbered<Request>>) {
    forall x <- xs :: RequestRead(dir, x.name, x.value) && x.seqNo == RequestSeq(dir, x.name)
  }

  ghost predicate FoldersFrom(dir: map<string, Entry>, xs: seq<Numbered<Folder>>) {
    forall x <- xs :: FolderRead(dir, x.name, x.value) && x.seqNo == FolderSeq(dir, x.name)
  }

  function Values<T>(xs: seq<Numbered<T>>): (vs: seq<T>)
    ensures |vs| == |xs|
  {
    seq(|xs|, i requires 0 <= i < |xs| => xs[i].value)
  }

  method ValuesOf<T>(xs: seq<Numbered<T>>) returns (vs: seq<T>)
    ensures vs == Values(xs)
  {
    vs := [];
    for i := 0 to |xs|
      invariant vs == Values(xs)[..i]
    {
      vs := vs + [xs[i].value];
    }
  }

  lemma ExtendNames<T>(xs: seq<Numbered<T>>, x: Numbered<T>)
    ensures NamesOf(xs + [x]) == NamesOf(xs) + [x.name]
  {
  }

  lemma ExtendPicked(names: seq<string>, name: string, keys: set<string>)
    ensures Picked(names + [name], keys) == if name in keys then Picked(names, keys) + [name] else Picked(names, keys)
  {
    assert (names + [name])[..|names|] == names;
  }

  /** The body of the directory loop for one subdirectory. */
  method LoadFolder(ghost d: Entry, ghost name: string, e: Entry) returns (ok: bool, f: Folder, seqNo: int)
    requires d.Dir? && name in d.entries && d.entries[name] == e && IsFolderPath(d.entries, name)
    ensures ok <==> !EntryUnreadable(d, name)
    ensures ok ==> FolderRead(d.entries, name, f) && seqNo == FolderSeq(d.entries, name)
    decreases e, 1
  {
    hide IsLoaded;
    var nothing := Folder("", "", EMPTY, BareAuth(AUTH_INHERIT), []);
    match e.entries[FOLDER_FILE]
    case Dir(_) =>
      return false, nothing, 0;
    case File(content) =>
      if content.folder.None? {
        return false, nothing, 0;
      }
      var ff := content.folder.value;
      var items;
      ok, items := LoadItems(e);
      if !ok {
        return false, nothing, 0;
      }
      var id := NewID();
      var vars := FileToVars(ff.vars);
      return true, Folder(id, ff.info.name, items, ReadAuth(ff.auth, AUTH_INHERIT), vars), ff.info.seqNo;
  }

  /** `loadItems`. It fails exactly when something it opens cannot be read. */
  method LoadItems(d: Entry) returns (ok: bool, items: Container)
    requires d.Dir?
    ensures ok <==> !Unreadable(d)
    ensures ok ==> IsLoaded(d.entries, items)
    decreases d, 0
  {
    hide RequestRead, FolderRead, IsLoaded, EntryUnreadable, Picked, NamesOf, RequestSeq, FolderSeq;
    var dir := d.entries;
    var entries := ReadDir(dir);
    ListsEach(entries, dir.Keys);
    var reqs: seq<Numbered<Request>>, fols: seq<Numbered<Folder>> := [], [];
    items := EMPTY;
    NothingPicked(dir);
    for i := 0 to |entries|
      invariant RequestsFrom(dir, reqs) && FoldersFrom(dir, fols)
      invariant NamesOf(reqs) == Picked(entries[..i], RequestPaths(dir))
      invariant NamesOf(fols) == Picked(entries[..i], FolderPaths(dir))
      invariant forall n :: 0 <= n < i ==> !EntryUnreadable(d, entries[n])
    {
      var name := entries[i];
      assert name in entries && entries[..i + 1] == entries[..i] + [name];
      ExtendPicked(entries[..i], name, RequestPaths(dir));
      ExtendPicked(entries[..i], name, FolderPaths(dir));
      if dir[name].Dir? {
        if name == ENVIRONMENTS || FOLDER_FILE !in dir[name].entries {
          EntrySkipped(d, name);
          continue;
        }
        var f, seqNo;
        ok, f, seqNo := LoadFolder(d, name, dir[name]);
        if !ok {
          return;
        }
        FolderIsHeld(d, name);
        ExtendNames(fols, Numbered(seqNo, name, f));
        fols := fols + [Numbered(seqNo, name, f)];
        continue;
      }
      if name == COLLECTION_FILE || name == FOLDER_FILE || !HasSuffix(name, YML) {
        EntrySkipped(d, name);
        continue;
      }
      var file := dir[name].content.request;
      RequestIsHeld(d, name);
      if file.None? {
        return false, EMPTY;
      }
      if file.value.info.typ != "" && file.value.info.typ != "http" {
        continue;
      }
      var id := NewID();
      var r := FileToRequest(file.value, id);
      RequestIsRead(dir, name, id);
      ExtendNames(reqs, Numbered(file.value.info.seqNo, name, r));
      reqs := reqs + [Numbered(file.value.info.seqNo, name, r)];
    }
    assert entries[..|entries|] == entries;
    AllReadable(d, entries);
    PickedLists(entries, dir.Keys, RequestPaths(dir));
    PickedLists(entries, dir.Keys, FolderPaths(dir));
    var sortedReqs := SortStable(reqs);
    var sortedFols := SortStable(fols);
    var requests := ValuesOf(sortedReqs);
    var folders := ValuesOf(sortedFols);
    items := Container(folders, requests);
    LoadedOnceSorted(dir, reqs, sortedReqs, fols, sortedFols);
    ok := true;
  }

  lemma NothingPicked(dir: map<string, Entry>)
    ensures Picked([], RequestPaths(dir)) == [] == NamesOf<Request>([])
    ensures Picked([], FolderPaths(dir)) == [] == NamesOf<Folder>([])
  {
  }

  lemma EntrySkipped(d: Entry, name: string)
    requires d.Dir? && name in d.entries
    requires !IsRequestPath(d.entries, name) && !IsFolderPath(d.entries, name)
    ensures !EntryUnreadable(d, name)
    ensures name !in RequestPaths(d.entries) && name !in FolderPaths(d.entries)
  {
  }

  lemma FolderIsHeld(d: Entry, name: string)
    requires d.Dir? && name in d.entries && IsFolderPath(d.entries, name) && !EntryUnreadable(d, name)
    ensures name in FolderPaths(d.entries) && name !in RequestPaths(d.entries)
  {
  }

  lemma RequestIsHeld(d: Entry, name: string)
    requires d.Dir? && name in d.entries && IsRequestPath(d.entries, name)
    ensures EntryUnreadable(d, name) <==> d.entries[name].content.request.None?
    ensures name !in FolderPaths(d.entries)
    ensures name in RequestPaths(d.entries) <==> HoldsRequest(d.entries, name)
  {
  }

  lemma RequestIsRead(dir: map<string, Entry>, name: string, id: string)
    requires HoldsRequest(dir, name)
    ensures RequestRead(dir, name, RequestOf(dir[name].content.request.value, id))
    ensures RequestSeq(dir, name) == dir[name].content.request.value.info.seqNo
  {
  }

  lemma AllReadable(d: Entry, entries: seq<string>)
    requires d.Dir? && forall k :: k in entries <==> k in d.entries
    requires forall n :: 0 <= n < |entries| ==> !EntryUnreadable(d, entries[n])
    ensures !Unreadable(d)
  {
    hide EntryUnreadable;
    forall k <- d.entries
      ensures !EntryUnreadable(d, k)
    {
      assert k in entries;
      var n :| 0 <= n < |entries| && entries[n] == k;
    }
  }

  lemma SameMembers<T>(xs: seq<T>, ys: seq<T>)
    requires multiset(xs) == multiset(ys)
    ensures forall y <- ys :: y in xs
  {
    forall y <- ys
      ensures y in xs
    {
      assert y in multiset(xs);
    }
  }

  lemma LoadedOnceSorted(dir: map<string, Entry>, reqs: seq<Numbered<Request>>, rs: seq<Numbered<Request>>,
                         fols: seq<Numbered<Folder>>, fs: seq<Numbered<Folder>>)
    requires RequestsFrom(dir, reqs) && SortedForm(reqs, rs) && Lists(NamesOf(reqs), RequestPaths(dir))
    requires FoldersFrom(dir, fols) && SortedForm(fols, fs) && Lists(NamesOf(fols), FolderPaths(dir))
    ensures IsLoaded(dir, Container(Values(fs), Values(rs)))
  {
    hide RequestRead, FolderRead, RequestSeq, FolderSeq, WithSeq;
    SameMembers(reqs, rs);
    SameMembers(fols, fs);
    assert forall i :: 0 <= i < |rs| ==> rs[i] in rs;
    assert forall j :: 0 <= j < |fs| ==> fs[j] in fs;
    assert LoadedFrom(dir, Container(Values(fs), Values(rs)), NamesOf(rs), NamesOf(fs));
  }
}
