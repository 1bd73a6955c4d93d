/** What becomes of the unknown YAML keys of a whole directory that is loaded and saved, with nothing changed
    in between but secrets filled in and blanked. A save names the files anew, takes unknown keys from
    whatever file it finds under the new name, and sweeps the rest. */
module DirectoryKeys {
  import opened Text
  import opened Model
  import opened OpenCollection
  import opened FileNames
  import opened Listing
  import opened Store
  import opened StoreLoad
  import opened StoreRoundTrip
  import opened StoreCollection
  import opened Secrets
  import opened SecretSplit
  import opened SaveLoad
  import opened UnknownKeys

  /** The names of the files and directories that the items of a container were read from, level by level. */
  datatype Origin = Origin(rn: seq<string>, fn: seq<string>, below: seq<Origin>)

  ghost predicate LoadedBy(was: map<string, Entry>, items: Container, o: Origin)
    decreases items
  {
    && LoadedFrom(was, items, o.rn, o.fn) && |o.below| == |o.fn|
    && forall j | 0 <= j < |o.fn| ::
         FolderRead(was, o.fn[j], items.folders[j]) && LoadedBy(was[o.fn[j]].entries, items.folders[j].items, o.below[j])
  }

  /** Whatever is loaded has an origin. */
  lemma {:induction false} OriginExists(was: map<string, Entry>, items: Container) returns (o: Origin)
    requires IsLoaded(was, items)
    ensures LoadedBy(was, items, o)
    decreases items
  {
    hide RequestRead, RequestSeq, FolderSeq;
    var rn, fn :| LoadedFrom(was, items, rn, fn);
    var below: seq<Origin> := [];
    for j := 0 to |fn|
      invariant |below| == j
      invariant forall k | 0 <= k < j :: FolderRead(was, fn[k], items.folders[k])
                                         && LoadedBy(was[fn[k]].entries, items.folders[k].items, below[k])
    {
      assert FolderRead(was, fn[j], items.folders[j]);
      var sub := OriginExists(was[fn[j]].entries, items.folders[j].items);
      below := below + [sub];
    }
    o := Origin(rn, fn, below);
  }

  // ----- what is kept, and what is given -----

  /** The request read from `name` is saved under `key` with the unknown keys it had. */
  ghost predicate RequestKept(was: map<string, Entry>, name: string, after: map<string, Entry>, key: string) {
    && HoldsRequest(was, name) && HoldsRequest(after, key)
    && KeysSurvive(was[name].content.request.value, after[key].content.request.value)
  }

  ghost predicate FolderKept(was: map<string, Entry>, name: string, after: map<string, Entry>, key: string) {
    && HoldsFolder(was, name) && HoldsFolder(after, key)
    && FolderKeysSurvive(was[name].entries[FOLDER_FILE].content.folder.value, after[key].entries[FOLDER_FILE].content.folder.value)
  }

  ghost predicate NthRequestKept(was: map<string, Entry>, items: Container, o: Origin, after: map<string, Entry>, i: nat)
    requires i < |items.requests|
  {
    i < |o.rn| && RequestKept(was, o.rn[i], after, RequestKey(items, i))
  }

  ghost predicate NthFolderKept(was: map<string, Entry>, items: Container, o: Origin, after: map<string, Entry>, j: nat)
    requires j < |items.folders|
    decreases items, 0
  {
    && j < |o.fn| && j < |o.below| && FolderKept(was, o.fn[j], after, FolderKey(items, j))
    && TreeKept(was[o.fn[j]].entries, items.folders[j].items, o.below[j], after[FolderKey(items, j)].entries)
  }

  /** Every request file and every folder of `was` is among the items, and its file keeps its unknown keys,
      on every level. */
  ghost predicate TreeKept(was: map<string, Entry>, items: Container, o: Origin, after: map<string, Entry>)
    decreases items, 1
  {
    && (forall k | IsRequestPath(was, k) :: k in o.rn) && (forall k | IsFolderPath(was, k) :: k in o.fn)
    && (forall i | 0 <= i < |items.requests| :: NthRequestKept(was, items, o, after, i))
    && (forall j | 0 <= j < |items.folders| :: NthFolderKept(was, items, o, after, j))
  }

  ghost predicate RequestGiven(was: map<string, Entry>, name: string, base: map<string, Entry>, key: string) {
    HoldsRequest(was, name) && KeysGiven(was[name].content.request.value, PriorRequest(base, key))
  }

  ghost predicate FolderGiven(was: map<string, Entry>, name: string, sub: map<string, Entry>) {
    HoldsFolder(was, name) && FolderKeysGiven(was[name].entries[FOLDER_FILE].content.folder.value, PriorFolder(sub))
  }

  ghost predicate NthRequestGiven(was: map<string, Entry>, items: Container, o: Origin, base: map<string, Entry>, i: nat)
    requires i < |items.requests|
  {
    i < |o.rn| && RequestGiven(was, o.rn[i], base, RequestKey(items, i))
  }

  ghost predicate NthFolderGiven(was: map<string, Entry>, items: Container, o: Origin, base: map<string, Entry>, j: nat)
    requires j < |items.folders|
    decreases items, 0
  {
    && j < |o.fn| && j < |o.below| && FolderGiven(was, o.fn[j], SubDir(base, FolderKey(items, j)))
    && TreeGiven(was[o.fn[j]].entries, items.folders[j].items, o.below[j], SubDir(base, FolderKey(items, j)))
  }

  /** Every request file of `was` has a type that loads and every folder a file that reads, and under the name
      each item is about to get there is, in `base`, a file that gives it its unknown keys. */
  ghost predicate TreeGiven(was: map<string, Entry>, items: Container, o: Origin, base: map<string, Entry>)
    decreases items, 1
  {
    && (forall k | IsRequestPath(was, k) :: HoldsRequest(was, k)) && (forall k | IsFolderPath(was, k) :: HoldsFolder(was, k))
    && (forall i | 0 <= i < |items.requests| :: NthRequestGiven(was, items, o, base, i))
    && (forall j | 0 <= j < |items.folders| :: NthFolderGiven(was, items, o, base, j))
  }

  /** Only the entries that items can be saved under matter. */
  ghost predicate SameBase(a: map<string, Entry>, b: map<string, Entry>) {
    forall k | k !in KEPT :: (k in a <==> k in b) && (k in a && k in b ==> a[k] == b[k])
  }

  lemma {:induction false} BaseChange(was: map<string, Entry>, items: Container, o: Origin, a: map<string, Entry>, b: map<string, Entry>)
    requires SameBase(a, b)
    ensures TreeGiven(was, items, o, a) <==> TreeGiven(was, items, o, b)
  {
    hide RequestKey, FolderKey, HoldsRequest, HoldsFolder, KeysGiven, FolderKeysGiven, IsRequestPath, IsFolderPath;
    KeysAreApart(items);
    forall i | 0 <= i < |items.requests|
      ensures NthRequestGiven(was, items, o, a, i) <==> NthRequestGiven(was, items, o, b, i)
    {
      assert PriorRequest(a, RequestKey(items, i)) == PriorRequest(b, RequestKey(items, i));
    }
    forall j | 0 <= j < |items.folders|
      ensures NthFolderGiven(was, items, o, a, j) <==> NthFolderGiven(was, items, o, b, j)
    {
      assert SubDir(a, FolderKey(items, j)) == SubDir(b, FolderKey(items, j));
    }
  }

  /** `now` is `raw` with other values in auths and variables. */
  ghost predicate TreeAlike(now: Container, raw: Container)
    decreases raw
  {
    && |now.requests| == |raw.requests| && |now.folders| == |raw.folders|
    && (forall i | 0 <= i < |raw.requests| :: Alike(now.requests[i], raw.requests[i]))
    && (forall j | 0 <= j < |raw.folders| ::
          && now.folders[j].name == raw.folders[j].name
          && AlikePlace(now.folders[j].auth, now.folders[j].variables, raw.folders[j].auth, raw.folders[j].variables)
          && TreeAlike(now.folders[j].items, raw.folders[j].items))
  }

  lemma {:induction false} AlikeNames(now: Container, raw: Container)
    requires TreeAlike(now, raw)
    ensures Names(now) == Names(raw)
    ensures forall i | 0 <= i < |raw.requests| :: RequestKey(now, i) == RequestKey(raw, i)
    ensures forall j | 0 <= j < |raw.folders| :: FolderKey(now, j) == FolderKey(raw, j)
  {
    hide NamesFor, Slug, SameScheme, SameVars;
    forall i | 0 <= i < |raw.requests|
      ensures now.requests[i].name == raw.requests[i].name
    {
      assert Alike(now.requests[i], raw.requests[i]);
    }
    assert Bases(now) == Bases(raw);
  }

  // ----- the theorem -----

  lemma {:induction false} RequestKeysIff(was: map<string, Entry>, raw: Request, name: string, base: map<string, Entry>, items: Container,
                                          after: map<string, Entry>, i: nat)
    requires RequestRead(was, name, raw) && IsSaved(base, items, after) && i < |items.requests| && Alike(items.requests[i], raw)
    ensures RequestKept(was, name, after, RequestKey(items, i)) <==> RequestGiven(was, name, base, RequestKey(items, i))
  {
    hide RequestKey, IsSaved, SavedRequest, KeysSurvive, KeysGiven, RequestOf, PriorRequest, SameScheme, SameVars;
    SavedRequestHeld(base, items, after, i);
    KeysSurviveIff(was[name].content.request.value, items.requests[i], i + 1, PriorRequest(base, RequestKey(items, i)));
  }

  lemma {:induction false} FolderKeysIff(was: map<string, Entry>, raw: Folder, name: string, base: map<string, Entry>, items: Container,
                                         after: map<string, Entry>, j: nat)
    requires FolderRead(was, name, raw) && IsSaved(base, items, after) && j < |items.folders|
    requires AlikePlace(items.folders[j].auth, items.folders[j].variables, raw.auth, raw.variables)
    ensures FolderKept(was, name, after, FolderKey(items, j)) <==> FolderGiven(was, name, SubDir(base, FolderKey(items, j)))
  {
    hide FolderKey, IsSaved, SavedFolder, FolderKeysSurvive, FolderKeysGiven, PriorFolder, SubDir, IsLoaded, ReadAuth, VariablesOf,
         SameScheme, SameVars;
    SavedFolderHeld(base, items, after, j);
    FolderFileStays(base, items, after, j);
    FolderKeysSurviveIff(was[name].entries[FOLDER_FILE].content.folder.value, items.folders[j], j + 1,
                         PriorFolder(SubDir(base, FolderKey(items, j))));
  }

  lemma {:induction false} NthRequestIff(was: map<string, Entry>, raw: Container, o: Origin, base: map<string, Entry>, items: Container,
                                         after: map<string, Entry>, i: nat)
    requires LoadedFrom(was, raw, o.rn, o.fn) && TreeAlike(items, raw) && IsSaved(base, items, after) && i < |raw.requests|
    ensures NthRequestKept(was, raw, o, after, i) <==> NthRequestGiven(was, raw, o, base, i)
  {
    hide RequestKey, IsSaved, RequestKept, RequestGiven, Alike, RequestRead, RequestSeq, FolderSeq, Lists;
    AlikeNames(items, raw);
    RequestKeysIff(was, raw.requests[i], o.rn[i], base, items, after, i);
  }

  /** Items loaded from one directory and saved over another keep every unknown key exactly when the other
      one gives them, on every level. (A load and a save is the case of one directory.) */
  lemma {:induction false} TreeKeysIff(was: map<string, Entry>, raw: Container, o: Origin, base: map<string, Entry>, items: Container,
                                       after: map<string, Entry>)
    requires LoadedBy(was, raw, o) && TreeAlike(items, raw) && IsSaved(base, items, after)
    ensures TreeKept(was, raw, o, after) <==> TreeGiven(was, raw, o, base)
    decreases raw, 1
  {
    hide IsSaved, NthRequestKept, NthRequestGiven, NthFolderKept, NthFolderGiven, TreeAlike, HoldsRequest, HoldsFolder,
         IsRequestPath, IsFolderPath, Lists, RequestSeq, FolderSeq, RequestRead, FolderRead;
    AllListed(was, o.rn, o.fn);
    forall i | 0 <= i < |raw.requests|
      ensures NthRequestKept(was, raw, o, after, i) <==> NthRequestGiven(was, raw, o, base, i)
    {
      NthRequestIff(was, raw, o, base, items, after, i);
    }
    forall j | 0 <= j < |raw.folders|
      ensures NthFolderKept(was, raw, o, after, j) <==> NthFolderGiven(was, raw, o, base, j)
    {
      NthFolderIff(was, raw, o, base, items, after, j);
    }
  }

  lemma {:induction false} NthFolderIff(was: map<string, Entry>, raw: Container, o: Origin, base: map<string, Entry>, items: Container,
                                        after: map<string, Entry>, j: nat)
    requires LoadedBy(was, raw, o) && TreeAlike(items, raw) && IsSaved(base, items, after) && j < |raw.folders|
    ensures NthFolderKept(was, raw, o, after, j) <==> NthFolderGiven(was, raw, o, base, j)
    decreases raw, 0
  {
    hide FolderKey, IsSaved, FolderKept, FolderGiven, Alike, AlikePlace, RequestRead, Lists, RequestSeq, FolderSeq, Opened, SubDir,
         TreeKept, TreeGiven;
    AlikeNames(items, raw);
    assert FolderRead(was, o.fn[j], raw.folders[j]);
    hide FolderRead;
    var sub, key := o.fn[j], FolderKey(raw, j);
    FolderKeysIff(was, raw.folders[j], sub, base, items, after, j);
    FolderFileStays(base, items, after, j);
    var open := Opened(base, items, j);
    TreeKeysIff(was[sub].entries, raw.folders[j].items, o.below[j], open, items.folders[j].items, after[key].entries);
    OpenedBase(base, items, j);
    BaseChange(was[sub].entries, raw.folders[j].items, o.below[j], open, SubDir(base, key));
  }

  lemma AllListed(was: map<string, Entry>, rn: seq<string>, fn: seq<string>)
    requires Lists(rn, RequestPaths(was)) && Lists(fn, FolderPaths(was))
    ensures forall k :: k in rn <==> HoldsRequest(was, k)
    ensures forall k :: k in fn <==> HoldsFolder(was, k)
  {
    hide Lists;
    ListsEach(rn, RequestPaths(was));
    ListsEach(fn, FolderPaths(was));
  }

  lemma OpenedBase(base: map<string, Entry>, items: Container, j: nat)
    requires j < |items.folders|
    ensures SameBase(Opened(base, items, j), SubDir(base, FolderKey(items, j)))
  {
    hide FolderKey, SavedFolder, PriorFolder;
  }

  // ----- directories whose files have the names a save gives them -----

  /** Every item was read from the entry it will be saved in. */
  ghost predicate Settled(was: map<string, Entry>, items: Container, o: Origin)
    decreases items
  {
    && o.rn == RequestKeys(items) && o.fn == FolderKeys(items) && |o.below| == |o.fn|
    && forall j | 0 <= j < |items.folders| ::
         HoldsFolder(was, o.fn[j]) && Settled(was[o.fn[j]].entries, items.folders[j].items, o.below[j])
  }

  ghost predicate FileSafe(d: Entry, k: string)
    requires d.Dir?
    decreases d, 0
  {
    && (IsRequestPath(d.entries, k) ==> HoldsRequest(d.entries, k) && KeysSafe(d.entries[k].content.request.value))
    && (IsFolderPath(d.entries, k) ==>
          && HoldsFolder(d.entries, k)
          && var p := d.entries[k].entries[FOLDER_FILE].content.folder.value;
          AuthKeysSafe(p.auth) && NoKeys(p.vars) && FilesSafe(d.entries[k]))
  }

  /** Every request and folder file below is of a kind that loads and has unknown keys only where they can
      survive. */
  ghost predicate FilesSafe(d: Entry)
    requires d.Dir?
    decreases d
  {
    forall k | k in d.entries :: FileSafe(d, k)
  }

  lemma {:induction false} OwnFolderGives(p: FolderFile)
    ensures FolderKeysGiven(p, Some(p)) <==> AuthKeysSafe(p.auth) && NoKeys(p.vars)
  {
    hide AuthKeysSafe, AuthKeys, AuthGiven, NoKeys, ReadAuth;
    OwnAuth(p.auth, AUTH_INHERIT);
  }

  /** In such a directory the file of each item gives what it has, so everything is kept exactly when every
      file is safe. */
  lemma {:induction false} SettledGives(was: map<string, Entry>, items: Container, o: Origin)
    requires LoadedBy(was, items, o) && Settled(was, items, o)
    ensures TreeGiven(was, items, o, was) <==> FilesSafe(Dir(was))
    decreases items
  {
    hide RequestKey, FolderKey, KeysSafe, KeysGiven, FolderKeysGiven, AuthKeysSafe, NoKeys, RequestRead, FolderRead, Lists, RequestSeq, FolderSeq,
         HasSuffix;
    AllListed(was, o.rn, o.fn);
    forall i | 0 <= i < |items.requests|
      ensures HoldsRequest(was, o.rn[i]) && o.rn[i] in was
      ensures NthRequestGiven(was, items, o, was, i) <==> KeysSafe(was[o.rn[i]].content.request.value)
    {
      assert o.rn[i] in o.rn;
      OwnFileGives(was[o.rn[i]].content.request.value);
    }
    forall j | 0 <= j < |items.folders|
      ensures HoldsFolder(was, o.fn[j]) && o.fn[j] in was
      ensures NthFolderGiven(was, items, o, was, j) <==> FileSafe(Dir(was), o.fn[j])
    {
      NthSettled(was, items, o, j);
    }
    if TreeGiven(was, items, o, was) {
      forall k | k in was
        ensures FileSafe(Dir(was), k)
      {
        if IsRequestPath(was, k) {
          var i :| 0 <= i < |o.rn| && o.rn[i] == k;
          assert NthRequestGiven(was, items, o, was, i);
        } else if IsFolderPath(was, k) {
          var j :| 0 <= j < |o.fn| && o.fn[j] == k;
          assert NthFolderGiven(was, items, o, was, j);
        }
      }
    }
    if FilesSafe(Dir(was)) {
      assert forall k | k in was :: FileSafe(Dir(was), k);
    }
  }

  lemma {:induction false} NthSettled(was: map<string, Entry>, items: Container, o: Origin, j: nat)
    requires LoadedBy(was, items, o) && Settled(was, items, o) && j < |items.folders|
    ensures HoldsFolder(was, o.fn[j])
    ensures NthFolderGiven(was, items, o, was, j) <==> FileSafe(Dir(was), o.fn[j])
    decreases items, 0
  {
    hide RequestKey, FolderKey, FolderKeysGiven, AuthKeysSafe, NoKeys, RequestRead, FolderRead, Lists, RequestSeq, FolderSeq, HasSuffix, TreeGiven,
         FilesSafe;
    var k := o.fn[j];
    var sub := was[k].entries;
    assert was[k] == Dir(sub) && SubDir(was, k) == sub && FolderKey(items, j) == k;
    OwnFolderGives(sub[FOLDER_FILE].content.folder.value);
    SettledGives(sub, items.folders[j].items, o.below[j]);
  }

  /** A directory Helena has saved is settled for every load after it (traps aside). */
  lemma {:induction false} SavedSettles(dir: map<string, Entry>, items: Container, after: map<string, Entry>, loaded: Container, o: Origin)
    requires IsSaved(dir, items, after) && TrapFree(dir, items) && LoadedBy(after, loaded, o)
    ensures Settled(after, loaded, o)
    decreases items
  {
    hide RequestKey, FolderKey, IsSaved, Opened, StoredRequest, StoredAuth, RequestRead, Lists, RequestSeq, FolderSeq, FolderPaths, RequestPaths,
         IsFolderPath, HoldsFolder, IsLoaded;
    assert IsLoaded(after, loaded) by {
      ByIsLoaded(after, loaded, o);
    }
    FreeRestores(dir, items, after, loaded);
    RestoredNames(items, loaded);
    assert RequestKeys(loaded) == RequestKeys(items) && FolderKeys(loaded) == FolderKeys(items);
    NoOtherFolders(dir, items, after);
    RequestOrder(dir, items, after, o.rn);
    FolderOrder(dir, items, after, o.fn);
    forall j | 0 <= j < |items.folders|
      ensures o.fn[j] in after && after[o.fn[j]].Dir? && HoldsFolder(after, o.fn[j])
      ensures Settled(after[o.fn[j]].entries, loaded.folders[j].items, o.below[j])
    {
      FolderFileStays(dir, items, after, j);
      SavedFolderHeld(dir, items, after, j);
      assert o.fn[j] == FolderKey(items, j);
      assert FolderRead(after, o.fn[j], loaded.folders[j]);
      SavedSettles(Opened(dir, items, j), items.folders[j].items, after[o.fn[j]].entries, loaded.folders[j].items, o.below[j]);
    }
  }

  lemma ByIsLoaded(was: map<string, Entry>, items: Container, o: Origin)
    requires LoadedBy(was, items, o)
    ensures IsLoaded(was, items)
  {
    hide RequestRead, FolderRead, Lists, RequestSeq, FolderSeq;
  }

  lemma {:induction false} RestoredNames(items: Container, loaded: Container)
    requires Restored(items, loaded)
    ensures forall i | 0 <= i < |items.requests| :: RequestKey(loaded, i) == RequestKey(items, i)
    ensures forall j | 0 <= j < |items.folders| :: FolderKey(loaded, j) == FolderKey(items, j)
  {
    hide NamesFor, Slug, StoredAuth, Restored;
    assert |loaded.requests| == |items.requests| && |loaded.folders| == |items.folders|
           && (forall i | 0 <= i < |items.requests| :: loaded.requests[i].name == items.requests[i].name)
           && (forall j | 0 <= j < |items.folders| :: loaded.folders[j].name == items.folders[j].name) by {
      RestoredLevel(items, loaded);
    }
    assert Bases(loaded) == Bases(items);
  }

  lemma {:induction false} RestoredLevel(items: Container, loaded: Container)
    requires Restored(items, loaded)
    ensures |loaded.requests| == |items.requests| && |loaded.folders| == |items.folders|
    ensures forall i | 0 <= i < |items.requests| :: loaded.requests[i].name == items.requests[i].name
    ensures forall j | 0 <= j < |items.folders| :: loaded.folders[j].name == items.folders[j].name
  {
    hide StoredAuth;
    forall i | 0 <= i < |items.requests|
      ensures loaded.requests[i].name == items.requests[i].name
    {
      assert loaded.requests[i] == StoredRequest(items.requests[i], loaded.requests[i].id);
    }
    forall j | 0 <= j < |items.folders|
      ensures loaded.folders[j].name == items.folders[j].name
    {
      assert FolderRestored(items.folders[j], loaded.folders[j]);
    }
  }

  // ----- a whole collection -----

  ghost predicate EnvKept(was: map<string, Entry>, name: string, after: map<string, Entry>, key: string) {
    && name in was && was[name].File? && was[name].content.environment.Some?
    && key in after && after[key].File? && after[key].content.environment.Some?
    && EnvKeysSurvive(was[name].content.environment.value, after[key].content.environment.value)
  }

  ghost predicate EnvGiven(was: map<string, Entry>, name: string, key: string) {
    && name in was && was[name].File? && was[name].content.environment.Some?
    && EnvKeysGiven(was[name].content.environment.value, PriorEnv(was, key))
  }

  lemma {:induction false} EnvKeysIff(was: map<string, Entry>, raw: seq<Environment>, en: seq<string>, es: seq<Environment>,
                                      after: map<string, Entry>, i: nat)
    requires EnvsLoadedFrom(was, raw, en) && EnvsSaved(was, es, after) && i < |raw| == |es|
    requires SameVars(es[i].variables, raw[i].variables)
    ensures EnvKept(was, en[i], after, EnvKeys(es)[i]) <==> EnvGiven(was, en[i], EnvKeys(es)[i])
  {
    hide EnvKeys, SavedEnv, PriorEnv, EnvKeysSurvive, EnvKeysGiven, Lists, EnvSeq, VariablesOf;
    assert EnvRead(was, en[i], raw[i]) && EnvPut(was, es, i, after);
    EnvKeysSurviveIff(was[en[i]].content.environment.value, es[i], i + 1, PriorEnv(was, EnvKeys(es)[i]));
  }

  /** The root file, every environment and every item keep their unknown keys. */
  ghost predicate CollectionKept(dir: map<string, Entry>, raw: Collection, o: Origin, en: seq<string>, after: map<string, Entry>) {
    && RootReads(dir) && RootReads(after)
    && RootKeysSurvive(dir[COLLECTION_FILE].content.collection.value, after[COLLECTION_FILE].content.collection.value)
    && (forall i | 0 <= i < |raw.environments| ::
          i < |en| && EnvKept(SubDir(dir, ENVIRONMENTS), en[i], SubDir(after, ENVIRONMENTS), EnvKeys(raw.environments)[i]))
    && TreeKept(dir, raw.items, o, after)
  }

  /** The root file is safe, and every environment and every item is given its keys by the file it is about
      to replace. */
  ghost predicate CollectionGiven(dir: map<string, Entry>, raw: Collection, o: Origin, en: seq<string>) {
    && RootReads(dir)
    && var root := dir[COLLECTION_FILE].content.collection.value;
    && AuthKeysSafe(root.auth) && NoKeys(root.vars)
    && (forall i | 0 <= i < |raw.environments| ::
          i < |en| && EnvGiven(SubDir(dir, ENVIRONMENTS), en[i], EnvKeys(raw.environments)[i]))
    && TreeGiven(dir, raw.items, o, dir)
  }

  /** A collection whose auths and variables have other values, as filling in and blanking secrets leaves it. */
  ghost predicate CollectionAlike(c: Collection, raw: Collection) {
    && c.name == raw.name && AlikePlace(c.auth, c.variables, raw.auth, raw.variables) && TreeAlike(c.items, raw.items)
    && |c.environments| == |raw.environments|
    && forall i | 0 <= i < |raw.environments| ::
         c.environments[i].name == raw.environments[i].name && SameVars(c.environments[i].variables, raw.environments[i].variables)
  }

  lemma {:induction false} AlikeEnvKeys(es: seq<Environment>, raw: seq<Environment>)
    requires |es| == |raw| && forall i | 0 <= i < |raw| :: es[i].name == raw[i].name
    ensures EnvKeys(es) == EnvKeys(raw)
  {
    hide NamesFor, Slug;
    assert EnvBases(es) == EnvBases(raw);
    assert EnvNames(es) == EnvNames(raw);
  }

  lemma BeforeIsBase(dir: map<string, Entry>, c: Collection, after: map<string, Entry>)
    ensures SameBase(Before(dir, c, after), dir)
  {
    hide SavedRoot;
  }

  /** Loading a collection, filling its secrets in, and saving it, which blanks them again, keeps every unknown
      key of every file exactly when the root file is safe and each other file is given its keys by the file
      under the name it is about to get. */
  lemma {:induction false} CollectionKeysIff(dir: map<string, Entry>, raw: Collection, o: Origin, en: seq<string>, c: Collection,
                                             after: map<string, Entry>)
    requires CollectionLoaded(dir, raw) && LoadedBy(dir, raw.items, o) && EnvsLoadedFrom(SubDir(dir, ENVIRONMENTS), raw.environments, en)
    requires CollectionAlike(c, raw) && CollectionSaved(dir, c, after)
    ensures CollectionKept(dir, raw, o, en, after) <==> CollectionGiven(dir, raw, o, en)
  {
    hide LoadedBy, IsSaved, IsLoaded, EnvsSaved, EnvsLoaded, EnvsLoadedFrom, TreeAlike, TreeKept, TreeGiven, EnvKeys, EnvKept, EnvGiven, SavedRoot,
         RootKeysSurvive, AuthKeysSafe, NoKeys, SameVars, SameScheme, ReadAuth, VariablesOf, Prepared;
    var base := Before(dir, c, after);
    TreeKeysIff(dir, raw.items, o, base, c.items, after);
    BeforeIsBase(dir, c, after);
    BaseChange(dir, raw.items, o, base, dir);
    RootSaved(dir, c, after);
    RootKeysSurviveIff(dir[COLLECTION_FILE].content.collection.value, c);
    AlikeEnvKeys(c.environments, raw.environments);
    EnvCount(SubDir(dir, ENVIRONMENTS), raw.environments, en);
    forall i | 0 <= i < |raw.environments|
      ensures EnvKept(SubDir(dir, ENVIRONMENTS), en[i], SubDir(after, ENVIRONMENTS), EnvKeys(raw.environments)[i])
         <==> EnvGiven(SubDir(dir, ENVIRONMENTS), en[i], EnvKeys(raw.environments)[i])
    {
      EnvKeysIff(SubDir(dir, ENVIRONMENTS), raw.environments, en, c.environments, SubDir(after, ENVIRONMENTS), i);
    }
  }

  lemma EnvCount(was: map<string, Entry>, raw: seq<Environment>, en: seq<string>)
    requires EnvsLoadedFrom(was, raw, en)
    ensures |en| == |raw|
  {
  }

  lemma RootSaved(dir: map<string, Entry>, c: Collection, after: map<string, Entry>)
    requires CollectionSaved(dir, c, after) && RootReads(dir)
    ensures RootReads(after)
    ensures after[COLLECTION_FILE].content.collection.value == SavedRoot(c, Some(dir[COLLECTION_FILE].content.collection.value))
  {
    hide IsSaved, EnvsSaved, SavedRoot;
    EnvironmentsStay(Before(dir, c, after), c.items, after);
    assert PriorRoot(dir) == Some(dir[COLLECTION_FILE].content.collection.value);
  }

  // ----- secrets leave a collection alike -----

  lemma {:induction false} MappedAuthAlike(q: seq<string>, a: Auth, g: Swap)
    ensures SameScheme(MapAuth(q, a, g), a)
  {
    hide AuthKey;
  }

  lemma {:induction false} MappedVarsAlike(q: seq<string>, tag: string, vs: seq<Variable>, g: Swap)
    ensures SameVars(MapVars(q, tag, vs, g), vs)
  {
  }

  lemma {:induction false} MappedItemsAlike(q: seq<string>, items: Container, g: Swap)
    ensures TreeAlike(MapItems(q, items, g), items)
    decreases items
  {
    hide MapAuth, MapVars, SameScheme, SameVars;
    var now := MapItems(q, items, g);
    forall i | 0 <= i < |items.requests|
      ensures Alike(now.requests[i], items.requests[i])
    {
      var p := q + ["r" + Itoa(i)];
      assert now.requests[i] == MapRequest(p, items.requests[i], g);
      MappedAuthAlike(p, items.requests[i].auth, g);
      MappedVarsAlike(p, "v", items.requests[i].variables, g);
    }
    forall j | 0 <= j < |items.folders|
      ensures now.folders[j].name == items.folders[j].name
      ensures AlikePlace(now.folders[j].auth, now.folders[j].variables, items.folders[j].auth, items.folders[j].variables)
      ensures TreeAlike(now.folders[j].items, items.folders[j].items)
    {
      var p := q + ["f" + Itoa(j)];
      NthMapped(q, items, g, j);
      MappedAuthAlike(p, items.folders[j].auth, g);
      MappedVarsAlike(p, "v", items.folders[j].variables, g);
      MappedItemsAlike(p, items.folders[j].items, g);
    }
  }

  lemma {:induction false} MappedAlike(c: Collection, g: Swap)
    ensures CollectionAlike(MapCollection(c, g), c)
  {
    hide MapAuth, MapVars, SameScheme, SameVars, MapItems, TreeAlike;
    MappedAuthAlike(["col"], c.auth, g);
    MappedVarsAlike([], "cv", c.variables, g);
    MappedItemsAlike([], c.items, g);
    forall i | 0 <= i < |c.environments|
      ensures SameVars(MapCollection(c, g).environments[i].variables, c.environments[i].variables)
    {
      MappedVarsAlike(["e" + Itoa(i)], "v", c.environments[i].variables, g);
    }
  }

  lemma {:induction false} TreeAlikeTwice(a: Container, b: Container, c: Container)
    requires TreeAlike(a, b) && TreeAlike(b, c)
    ensures TreeAlike(a, c)
    decreases c
  {
    hide SameScheme, SameVars;
    forall i | 0 <= i < |c.requests|
      ensures Alike(a.requests[i], c.requests[i])
    {
      assert Alike(a.requests[i], b.requests[i]) && Alike(b.requests[i], c.requests[i]);
      PlaceTwice(a.requests[i].auth, b.requests[i].auth, c.requests[i].auth,
                 a.requests[i].variables, b.requests[i].variables, c.requests[i].variables);
    }
    forall j | 0 <= j < |c.folders|
      ensures AlikePlace(a.folders[j].auth, a.folders[j].variables, c.folders[j].auth, c.folders[j].variables)
      ensures TreeAlike(a.folders[j].items, c.folders[j].items)
    {
      PlaceTwice(a.folders[j].auth, b.folders[j].auth, c.folders[j].auth,
                 a.folders[j].variables, b.folders[j].variables, c.folders[j].variables);
      TreeAlikeTwice(a.folders[j].items, b.folders[j].items, c.folders[j].items);
    }
  }

  lemma PlaceTwice(a: Auth, b: Auth, c: Auth, us: seq<Variable>, vs: seq<Variable>, ws: seq<Variable>)
    requires SameScheme(a, b) && SameScheme(b, c) && SameVars(us, vs) && SameVars(vs, ws)
    ensures SameScheme(a, c) && SameVars(us, ws)
  {
  }

  /** What a save writes of a collection that was loaded with its secrets is alike what the files held. */
  lemma {:induction false} LoadedAlike(raw: Collection, store: SecretSplit.Store)
    ensures CollectionAlike(Blanked(Filled(raw, store)), raw)
  {
    hide MapCollection, TreeAlike, SameScheme, SameVars;
    var filled := Filled(raw, store);
    MappedAlike(raw, FillFrom(store));
    MappedAlike(filled, Blank);
    var c := Blanked(filled);
    PlaceTwice(c.auth, filled.auth, raw.auth, c.variables, filled.variables, raw.variables);
    TreeAlikeTwice(c.items, filled.items, raw.items);
    forall i | 0 <= i < |raw.environments|
      ensures SameVars(c.environments[i].variables, raw.environments[i].variables)
    {
      PlaceTwice(raw.auth, raw.auth, raw.auth, c.environments[i].variables, filled.environments[i].variables, raw.environments[i].variables);
    }
  }

  // ----- directories that lose keys -----

  const SPACED := "Get Users.yml"

  predicate Loads(p: RequestFile) { p.info.typ == "" || p.info.typ == "http" }

  function OneRequest(p: RequestFile): Container { Container([], [RequestOf(p, "1")]) }

  lemma {:induction false} LoadedAlone(k: string, p: RequestFile)
    requires Loads(p) && HasSuffix(k, YML) && k != COLLECTION_FILE && k != FOLDER_FILE
    ensures LoadedBy(map[k := RequestEntry(p)], OneRequest(p), Origin([k], [], []))
  {
    hide HasSuffix;
    var dir := map[k := RequestEntry(p)];
    assert RequestPaths(dir) == {k} && FolderPaths(dir) == {};
    assert RequestRead(dir, k, RequestOf(p, "1"));
    assert LoadedFrom(dir, OneRequest(p), [k], []);
  }

  lemma NotSpaced(items: Container, i: nat)
    requires i < |items.requests|
    ensures RequestKey(items, i) != SPACED
  {
    hide Names;
    NamesAreFresh(items);
    var name := Names(items)[i];
    assert (name + YML)[0] == name[0] && name[0] in name;
    assert SPACED[0] == 'G' && !Usable('G');
  }

  /** A request file another tool named after its request, "Get Users.yml", is saved under a slug, where there
      is nothing to take its keys from, and swept. */
  lemma {:induction false} RenamedLosesKeys(p: RequestFile, after: map<string, Entry>)
    requires Loads(p) && p.extra != map[] && IsSaved(map[SPACED := RequestEntry(p)], OneRequest(p), after)
    ensures var dir, items, o := map[SPACED := RequestEntry(p)], OneRequest(p), Origin([SPACED], [], []);
            && LoadedBy(dir, items, o) && !Clash(dir, items)
            && SPACED !in after && !TreeKept(dir, items, o, after)
            && HoldsRequest(after, RequestKey(items, 0)) && after[RequestKey(items, 0)].content.request.value.extra == map[]
  {
    hide RequestKey, IsRequestPath, IsFolderPath, RequestOf, RequestFileOf;
    var dir, items := map[SPACED := RequestEntry(p)], OneRequest(p);
    assert HasSuffix(SPACED, YML) by {
      assert SPACED[|SPACED| - 4..] == YML;
    }
    LoadedAlone(SPACED, p);
    NotSpaced(items, 0);
    SavedRequestHeld(dir, items, after, 0);
    assert AllKeys(items) == {RequestKey(items, 0)};
    assert SPACED !in AllKeys(items) && !Survives(SPACED, dir[SPACED]);
    FreshExtra(items.requests[0]);
    assert !NthRequestKept(dir, items, Origin([SPACED], [], []), after, 0);
  }

  lemma FreshExtra(r: Request)
    ensures SavedRequest(r, 1, None).extra == map[]
  {
    hide AuthToFile;
  }

  /** A request file of a type Helena does not load is deleted by the next save. */
  lemma {:induction false} ForeignTypeDeleted(p: RequestFile)
    requires !Loads(p)
    ensures var dir, o := map["g.yml" := RequestEntry(p)], Origin([], [], []);
            LoadedBy(dir, EMPTY, o) && !Clash(dir, EMPTY) && IsSaved(dir, EMPTY, map[]) && !TreeKept(dir, EMPTY, o, map[])
  {
    var dir := map["g.yml" := RequestEntry(p)];
    assert "g.yml"[1..] == YML;
    assert RequestPaths(dir) == {} && FolderPaths(dir) == {};
    assert LoadedFrom(dir, EMPTY, [], []);
    assert AllKeys(EMPTY) == {};
    assert IsRequestPath(dir, "g.yml");
  }

  function Pair(p: RequestFile, q: RequestFile): map<string, Entry> { map["r.yml" := RequestEntry(p), "r-2.yml" := RequestEntry(q)] }

  function PairItems(p: RequestFile, q: RequestFile): Container { Container([], [RequestOf(q, "1"), RequestOf(p, "2")]) }

  lemma PlainSlug(fallback: string)
    ensures Slug("r", fallback) == "r"
  {
    TrimSpaceFixed("r");
    assert ToLower("r") == "r";
    assert "r"[..0] == "" && Collapse("") == "";
    assert Collapse("r") == "r";
    assert TrimDashes("r") == "r";
  }

  lemma FirstKeyIs(items: Container)
    requires |items.requests| > 0 && items.requests[0].name == "r"
    ensures RequestKey(items, 0) == "r.yml"
  {
    hide Slug;
    PlainSlug("request-" + Itoa(1));
    assert Bases(items)[0] == "r";
    NamesForStep(Bases(items), RESERVED, 0);
    assert NamesFor(Bases(items), RESERVED, 0) == [];
    assert RESERVED + Elems([]) == RESERVED;
    var n := FreshNameIsLeast("r", RESERVED);
    assert |"r"| == 1 && "r" !in RESERVED;
    assert Candidate("r", 1) == "r";
    assert "r" + YML == "r.yml";
  }

  /** Two requests of one name, numbered against the order of their files, trade their unknown keys. */
  lemma {:induction false} PairTradesKeys(p: RequestFile, q: RequestFile, after: map<string, Entry>)
    requires Loads(p) && Loads(q) && p.info.name == q.info.name == "r" && q.info.seqNo < p.info.seqNo && p.extra != q.extra
    requires IsSaved(Pair(p, q), PairItems(p, q), after)
    ensures var dir, items, o := Pair(p, q), PairItems(p, q), Origin(["r-2.yml", "r.yml"], [], []);
            && LoadedBy(dir, items, o) && !Clash(dir, items) && !TreeKept(dir, items, o, after)
            && HoldsRequest(after, "r.yml") && after["r.yml"].content.request.value.extra == p.extra
            && after["r.yml"].content.request.value.info.seqNo == 1
  {
    hide RequestKey, IsRequestPath, IsFolderPath, RequestOf, RequestFileOf;
    var dir, items := Pair(p, q), PairItems(p, q);
    PairLoads(p, q);
    assert items.requests[0].name == "r" by {
      NameRead(q, "1");
    }
    FirstKeyIs(items);
    SavedRequestHeld(dir, items, after, 0);
    OverExtra(items.requests[0], p);
    assert !NthRequestKept(dir, items, Origin(["r-2.yml", "r.yml"], [], []), after, 0);
  }

  lemma NameRead(q: RequestFile, newID: string)
    ensures RequestOf(q, newID).name == q.info.name
  {
  }

  lemma OverExtra(r: Request, p: RequestFile)
    ensures SavedRequest(r, 1, Some(p)).extra == p.extra && SavedRequest(r, 1, Some(p)).info.seqNo == 1
  {
    hide AuthToFile, MergeAuth, Merged;
  }

  lemma PairNames()
    ensures HasSuffix("r.yml", YML) && HasSuffix("r-2.yml", YML)
    ensures "r.yml" !in KEPT && "r-2.yml" !in KEPT && "r.yml" != "r-2.yml"
  {
    assert "r.yml"[1..] == YML && "r-2.yml"[3..] == YML;
    assert |"r.yml"| == 5 && |"r-2.yml"| == 7 && |COLLECTION_FILE| == 18 && |FOLDER_FILE| == 10 && |ENVIRONMENTS| == 12;
  }

  lemma {:induction false} PairLoads(p: RequestFile, q: RequestFile)
    requires Loads(p) && Loads(q) && q.info.seqNo < p.info.seqNo
    ensures LoadedBy(Pair(p, q), PairItems(p, q), Origin(["r-2.yml", "r.yml"], [], []))
  {
    hide HasSuffix, RequestOf;
    PairNames();
    var dir, items, a, b := Pair(p, q), PairItems(p, q), "r-2.yml", "r.yml";
    assert RequestPaths(dir) == {a, b} && FolderPaths(dir) == {};
    assert multiset([a, b]) == multiset({a, b});
    assert items.requests[0].id == RequestOf(q, "1").id && items.requests[1].id == RequestOf(p, "2").id;
    ReadsAs(q, "1");
    ReadsAs(p, "2");
    assert RequestRead(dir, a, items.requests[0]) && RequestRead(dir, b, items.requests[1]);
    assert LoadedFrom(dir, items, [a, b], []);
  }

  lemma ReadsAs(p: RequestFile, newID: string)
    ensures RequestOf(p, newID) == RequestOf(p, RequestOf(p, newID).id)
  {
  }

  const SPACED_FOLDER := "My Folder"

  function OneFolder(p: FolderFile): Container {
    Container([Folder("1", p.info.name, EMPTY, ReadAuth(p.auth, AUTH_INHERIT), VariablesOf(p.vars))], [])
  }

  lemma NotSpacedFolder(items: Container, j: nat)
    requires j < |items.folders|
    ensures FolderKey(items, j) != SPACED_FOLDER
  {
    hide Names;
    NamesAreFresh(items);
    var name := Names(items)[|items.requests| + j];
    assert name[0] in name;
    assert SPACED_FOLDER[0] == 'M' && !Usable('M');
  }

  /** The same happens to a folder in a directory named after it. */
  lemma {:induction false} RenamedFolderLosesKeys(p: FolderFile, after: map<string, Entry>)
    requires p.extra != map[]
    requires IsSaved(map[SPACED_FOLDER := Dir(map[FOLDER_FILE := FolderEntry(p)])], OneFolder(p), after)
    ensures var dir, items, o := map[SPACED_FOLDER := Dir(map[FOLDER_FILE := FolderEntry(p)])], OneFolder(p),
                                 Origin([], [SPACED_FOLDER], [Origin([], [], [])]);
            LoadedBy(dir, items, o) && SPACED_FOLDER !in after && !TreeKept(dir, items, o, after)
  {
    hide FolderKey, ReadAuth, VariablesOf, SavedFolder, LoadedBy, IsSaved, OneFolder, PriorFolder;
    var sub := map[FOLDER_FILE := FolderEntry(p)];
    var dir, items, o := map[SPACED_FOLDER := Dir(sub)], OneFolder(p), Origin([], [SPACED_FOLDER], [Origin([], [], [])]);
    FolderLoadedAlone(p);
    OneFolderIs(p);
    NotSpacedFolder(items, 0);
    FolderFileStays(dir, items, after, 0);
    SpacedFolderSwept(dir, items, after);
    FreshFolderExtra(items.folders[0]);
    assert PriorFolder(SubDir(dir, FolderKey(items, 0))) == None by {
      NoPriorFolder();
    }
    assert !NthFolderKept(dir, items, o, after, 0);
  }

  lemma OneFolderIs(p: FolderFile)
    ensures |OneFolder(p).folders| == 1 && OneFolder(p).requests == []
  {
  }

  lemma NoPriorFolder()
    ensures PriorFolder(map[]) == None
  {
  }

  lemma SpacedFolderSwept(dir: map<string, Entry>, items: Container, after: map<string, Entry>)
    requires IsSaved(dir, items, after) && |items.folders| == 1 && items.requests == []
    requires SPACED_FOLDER in dir && dir[SPACED_FOLDER].Dir? && FOLDER_FILE in dir[SPACED_FOLDER].entries
    ensures SPACED_FOLDER !in after
  {
    hide FolderKey, FolderPut, RequestPut;
    NotSpacedFolder(items, 0);
    assert SPACED_FOLDER !in AllKeys(items) && SPACED_FOLDER[0] == 'M';
    assert ENVIRONMENTS[0] == 'e' && COLLECTION_FILE[0] == 'o' && FOLDER_FILE[0] == 'f';
  }

  lemma FreshFolderExtra(f: Folder)
    ensures SavedFolder(f, 1, None).extra == map[]
  {
    hide AuthToFile;
  }

  lemma {:induction false} FolderLoadedAlone(p: FolderFile)
    ensures LoadedBy(map[SPACED_FOLDER := Dir(map[FOLDER_FILE := FolderEntry(p)])], OneFolder(p),
                     Origin([], [SPACED_FOLDER], [Origin([], [], [])]))
  {
    hide ReadAuth, VariablesOf;
    var sub := map[FOLDER_FILE := FolderEntry(p)];
    var dir, items := map[SPACED_FOLDER := Dir(sub)], OneFolder(p);
    assert RequestPaths(sub) == {} && FolderPaths(sub) == {};
    assert LoadedFrom(sub, EMPTY, [], []);
    assert HoldsFolder(dir, SPACED_FOLDER) by {
      assert SPACED_FOLDER[0] == 'M' && ENVIRONMENTS[0] == 'e';
    }
    assert RequestPaths(dir) == {} && FolderPaths(dir) == {SPACED_FOLDER};
    assert FolderRead(dir, SPACED_FOLDER, items.folders[0]);
    assert LoadedFrom(dir, items, [], [SPACED_FOLDER]);
    assert LoadedBy(sub, EMPTY, Origin([], [], []));
  }

  const CAPITAL_ENV := "Prod.yml"

  lemma NotCapital(es: seq<Environment>, i: nat)
    requires i < |es|
    ensures EnvKeys(es)[i] != CAPITAL_ENV
  {
    hide NamesFor;
    WordsAreSlugs();
    forall n | 0 <= n < |es|
      ensures IsSlug(EnvBases(es)[n])
    {
      NumberedIsSlug("env", n + 1);
      SlugIsSlug(es[n].name, "env-" + Itoa(n + 1));
    }
    NamesForFresh(EnvBases(es), {}, |es|);
    var name := EnvNames(es)[i];
    assert (name + YML)[0] == name[0] && name[0] in name;
    assert CAPITAL_ENV[0] == 'P' && !Usable('P');
  }

  /** And to an environment in a file named after it. */
  lemma {:induction false} RenamedEnvLosesKeys(p: EnvironmentFile, after: map<string, Entry>)
    requires p.extra != map[]
    requires EnvsSaved(map[CAPITAL_ENV := EnvEntry(p)], [Environment("1", p.info.name, VariablesOf(p.vars))], after)
    ensures var dir, es := map[CAPITAL_ENV := EnvEntry(p)], [Environment("1", p.info.name, VariablesOf(p.vars))];
            && EnvsLoadedFrom(dir, es, [CAPITAL_ENV])
            && CAPITAL_ENV !in after && !EnvKept(dir, CAPITAL_ENV, after, EnvKeys(es)[0])
  {
    hide EnvKeys, VariablesOf;
    var dir, es := map[CAPITAL_ENV := EnvEntry(p)], [Environment("1", p.info.name, VariablesOf(p.vars))];
    assert HasSuffix(CAPITAL_ENV, YML) by {
      assert CAPITAL_ENV[4..] == YML;
    }
    hide HasSuffix;
    assert EnvPaths(dir) == {CAPITAL_ENV};
    assert EnvRead(dir, CAPITAL_ENV, es[0]);
    NotCapital(es, 0);
    assert EnvKeys(es) == [EnvKeys(es)[0]];
    assert EnvPut(dir, es, 0, after);
  }
}
