/** `saveInPlace` and `Load` of `internal/storage/store.go` joined with the secret store: what a save
    followed by a load returns. */
module SaveLoad {
  import opened Text
  import opened Model
  import opened OpenCollection
  import opened Store
  import opened StoreLoad
  import opened StoreRoundTrip
  import opened StoreCollection
  import opened Secrets
  import opened SecretSplit

  function PriorRoot(dir: map<string, Entry>): Option<CollectionFile> {
    if COLLECTION_FILE in dir && dir[COLLECTION_FILE].File? then dir[COLLECTION_FILE].content.collection else None
  }

  function SavedRoot(c: Collection, prev: Option<CollectionFile>): CollectionFile {
    var f := CollectionFile(FreshInfo(c.name, "", "collection", 0), AuthToFile(c.auth), VarRowsOf(c.variables), map[]);
    if prev.None? then f
    else f.(extra := prev.value.extra, info := f.info.(extra := prev.value.info.extra, tags := prev.value.info.tags),
            auth := MergeAuth(f.auth, prev.value.auth))
  }

  function RootEntry(f: CollectionFile): Entry { File(Content(Some(f), None, None, None)) }

  function Rooted(dir: map<string, Entry>, c: Collection): map<string, Entry> {
    dir[COLLECTION_FILE := RootEntry(SavedRoot(c, PriorRoot(dir)))]
  }

  /** Whether a save leaves an environments directory. */
  predicate HasEnvs(dir: map<string, Entry>, c: Collection) {
    c.environments != [] || ENVIRONMENTS in dir
  }

  /** The directory `saveItems` is called on, given the environments directory the save leaves. */
  function Prepared(dir: map<string, Entry>, c: Collection, envs: map<string, Entry>): map<string, Entry> {
    if HasEnvs(dir, c) then Rooted(dir, c)[ENVIRONMENTS := Dir(envs)] else Rooted(dir, c)
  }

  ghost predicate CollectionSaved(dir: map<string, Entry>, c: Collection, after: map<string, Entry>) {
    && EnvsSaved(SubDir(dir, ENVIRONMENTS), c.environments, SubDir(after, ENVIRONMENTS))
    && IsSaved(Prepared(dir, c, SubDir(after, ENVIRONMENTS)), c.items, after)
  }

  /** The root file or an environment name is held by an entry of the wrong kind. */
  ghost predicate RootClash(dir: map<string, Entry>, c: Collection) {
    || (COLLECTION_FILE in dir && dir[COLLECTION_FILE].Dir?)
    || (ENVIRONMENTS in dir && dir[ENVIRONMENTS].File?)
    || EnvClash(SubDir(dir, ENVIRONMENTS), c.environments)
  }

  method WriteRoot(dir: map<string, Entry>, c: Collection) returns (ok: bool, after: map<string, Entry>)
    ensures ok <==> !(COLLECTION_FILE in dir && dir[COLLECTION_FILE].Dir?)
    ensures ok ==> after == Rooted(dir, c)
  {
    hide AuthToFile, MergeAuth;
    var vars := VarsToFile(c.variables);
    var root := CollectionFile(FreshInfo(c.name, "", "collection", 0), AuthToFile(c.auth), vars, map[]);
    if COLLECTION_FILE in dir {
      match dir[COLLECTION_FILE]
      case Dir(_) =>
        return false, dir;
      case File(content) =>
        if content.collection.Some? {
          var prev := content.collection.value;
          root := root.(extra := prev.extra, info := root.info.(extra := prev.info.extra, tags := prev.info.tags),
                        auth := MergeAuth(root.auth, prev.auth));
        }
    }
    return true, dir[COLLECTION_FILE := RootEntry(root)];
  }

  /** `saveInPlace`. */
  method SaveInPlace(dir: map<string, Entry>, c: Collection) returns (ok: bool, after: map<string, Entry>)
    ensures ok ==> !RootClash(dir, c) && CollectionSaved(dir, c, after)
    ensures !ok ==> RootClash(dir, c) || exists envs ::
        EnvsSaved(SubDir(dir, ENVIRONMENTS), c.environments, envs) && Clash(Prepared(dir, c, envs), c.items)
  {
    hide IsSaved, EnvsSaved, Clash, SavedRoot, EnvClash;
    ok, after := WriteRoot(dir, c);
    if !ok {
      return;
    }
    if ENVIRONMENTS in after && after[ENVIRONMENTS].File? {
      return false, dir;
    }
    var envDir := if ENVIRONMENTS in after then after[ENVIRONMENTS].entries else map[];
    ok, envDir := SaveEnvironments(envDir, c.environments);
    if !ok {
      return;
    }
    if |c.environments| > 0 || ENVIRONMENTS in after {
      after := after[ENVIRONMENTS := Dir(envDir)];
    } else {
      NoEnvironments(envDir);
    }
    assert after == Prepared(dir, c, envDir);
    ok, after := SaveItems(after, c.items);
    if ok {
      EnvironmentsStay(Prepared(dir, c, envDir), c.items, after);
    }
  }

  lemma NoEnvironments(after: map<string, Entry>)
    requires EnvsSaved(map[], [], after)
    ensures after == map[]
  {
  }

  lemma EnvironmentsStay(dir: map<string, Entry>, items: Container, after: map<string, Entry>)
    requires IsSaved(dir, items, after)
    ensures SubDir(after, ENVIRONMENTS) == SubDir(dir, ENVIRONMENTS)
    ensures ENVIRONMENTS in after <==> ENVIRONMENTS in dir
    ensures ENVIRONMENTS in dir ==> after[ENVIRONMENTS] == dir[ENVIRONMENTS]
    ensures COLLECTION_FILE in after <==> COLLECTION_FILE in dir
    ensures COLLECTION_FILE in dir ==> after[COLLECTION_FILE] == dir[COLLECTION_FILE]
  {
    hide RequestKey, FolderKey, RequestPut, FolderPut;
    KeysAreApart(items);
  }

  // ----- loading -----

  predicate RootReads(dir: map<string, Entry>) {
    COLLECTION_FILE in dir && dir[COLLECTION_FILE].File? && dir[COLLECTION_FILE].content.collection.Some?
  }

  ghost predicate LoadFails(d: Entry)
    requires d.Dir?
  {
    || !RootReads(d.entries)
    || (ENVIRONMENTS in d.entries && d.entries[ENVIRONMENTS].File?)
    || EnvsUnreadable(SubDir(d.entries, ENVIRONMENTS))
    || Unreadable(d)
  }

  ghost predicate CollectionLoaded(dir: map<string, Entry>, c: Collection) {
    && RootReads(dir)
    && var root := dir[COLLECTION_FILE].content.collection.value;
    && c.name == root.info.name
    && c.variables == VariablesOf(root.vars)
    && c.auth == ReadAuth(root.auth, AUTH_NONE)
    && EnvsLoaded(SubDir(dir, ENVIRONMENTS), c.environments)
    && IsLoaded(dir, c.items)
  }

  /** `Load`, with the contents of the secret store as a parameter. */
  method Load(d: Entry, secrets: SecretSplit.Store) returns (ok: bool, c: Collection, ghost raw: Collection)
    requires d.Dir?
    ensures ok <==> !LoadFails(d)
    ensures ok ==> CollectionLoaded(d.entries, raw) && c == Filled(raw, secrets)
  {
    hide EnvsLoaded, IsLoaded, Unreadable, EnvsUnreadable, Filled;
    var id := NewID();
    c := Collection(id, "", EMPTY, [], [], BareAuth(AUTH_NONE));
    raw := c;
    if COLLECTION_FILE !in d.entries || d.entries[COLLECTION_FILE].Dir? {
      return false, c, raw;
    }
    var content := d.entries[COLLECTION_FILE].content;
    if content.collection.None? {
      return false, c, raw;
    }
    var root := content.collection.value;
    var vars := FileToVars(root.vars);
    var envDir: map<string, Entry> := map[];
    if ENVIRONMENTS in d.entries {
      match d.entries[ENVIRONMENTS]
      case File(_) =>
        return false, c, raw;
      case Dir(entries) =>
        envDir := entries;
    }
    var envs, items;
    ok, envs := LoadEnvironments(envDir);
    if !ok {
      return;
    }
    ok, items := LoadItems(d);
    if !ok {
      return;
    }
    c := Collection(id, root.info.name, items, envs, vars, ReadAuth(root.auth, AUTH_NONE));
    raw := c;
    c := ApplySecrets(c, secrets);
  }

  // ----- the round trip -----

  ghost predicate CollectionRestored(was: Collection, now: Collection) {
    && now.name == was.name
    && now.variables == was.variables
    && now.auth == StoredAuth(was.auth, AUTH_NONE)
    && EnvsRestored(was.environments, now.environments)
    && Restored(was.items, now.items)
  }

  lemma RootRoundTrip(c: Collection, prev: Option<CollectionFile>)
    ensures SavedRoot(c, prev).info.name == c.name
    ensures VariablesOf(SavedRoot(c, prev).vars) == c.variables
    ensures ReadAuth(SavedRoot(c, prev).auth, AUTH_NONE) == StoredAuth(c.auth, AUTH_NONE)
  {
    hide AuthToFile, ReadAuth, StoredAuth, MergeAuth;
    AuthRoundTrip(c.auth, AUTH_NONE);
    VarsRoundTrip(c.variables);
    if prev.Some? {
      MergeAuthReads(AuthToFile(c.auth), prev.value.auth, AUTH_NONE);
    }
  }

  /** The directory `saveItems` was called on. */
  function Before(dir: map<string, Entry>, c: Collection, after: map<string, Entry>): map<string, Entry> {
    Prepared(dir, c, SubDir(after, ENVIRONMENTS))
  }

  lemma {:induction false} FreeLoads(dir: map<string, Entry>, c: Collection, after: map<string, Entry>)
    requires CollectionSaved(dir, c, after) && TrapFree(Before(dir, c, after), c.items)
    requires !(ENVIRONMENTS in dir && dir[ENVIRONMENTS].File?)
    ensures !LoadFails(Dir(after))
  {
    hide IsSaved, EnvsSaved, TrapFree, SavedRoot, EnvsUnreadable, Unreadable;
    EnvironmentsStay(Before(dir, c, after), c.items, after);
    EnvPathsAre(SubDir(dir, ENVIRONMENTS), c.environments, SubDir(after, ENVIRONMENTS));
    SavedIsReadable(Before(dir, c, after), c.items, after);
  }

  /** Saving a collection and loading it back restores it, up to what the files keep of it, exactly when no
      directory with a reserved name was there to be taken for a folder. (A file called "environments" makes
      the save fail.) */
  lemma {:induction false} SavedThenLoaded(dir: map<string, Entry>, c: Collection, after: map<string, Entry>, loaded: Collection)
    requires CollectionSaved(dir, c, after) && CollectionLoaded(after, loaded)
    requires !(ENVIRONMENTS in dir && dir[ENVIRONMENTS].File?)
    ensures !LoadFails(Dir(after)) && CollectionRestored(c, loaded) <==> TrapFree(Before(dir, c, after), c.items)
  {
    hide IsSaved, EnvsSaved, EnvsLoaded, IsLoaded, TrapFree, Restored, SavedRoot, StoredAuth, ReadAuth, VariablesOf, EnvsRestored,
         Unreadable, EnvsUnreadable;
    SaveThenLoad(Before(dir, c, after), c.items, after, loaded.items);
    if TrapFree(Before(dir, c, after), c.items) {
      FreeLoads(dir, c, after);
      EnvironmentsStay(Before(dir, c, after), c.items, after);
      RootRoundTrip(c, PriorRoot(dir));
      EnvsSaveThenLoad(SubDir(dir, ENVIRONMENTS), c.environments, SubDir(after, ENVIRONMENTS), loaded.environments);
    }
  }

  // ----- filling the secrets back into what was loaded -----

  lemma {:induction false} OnTypeMaps(q: seq<string>, a: Auth, h: Swap)
    ensures MapAuth(q, OnType(a), h) == OnType(MapAuth(q, a, h))
  {
    hide AuthKey;
  }

  lemma {:induction false} BareMaps(q: seq<string>, typ: string, h: Swap)
    ensures MapAuth(q, BareAuth(typ), h) == BareAuth(typ)
  {
    hide AuthKey;
  }

  lemma {:induction false} AuthFills(q: seq<string>, a: Auth, g: Swap, h: Swap, missing: string)
    requires Undoes(AuthFields(q, a), g, h)
    ensures MapAuth(q, StoredAuth(MapAuth(q, a, g), missing), h) == StoredAuth(a, missing)
  {
    AuthUndone(q, a, g, h);
    OnTypeMaps(q, MapAuth(q, a, g), h);
    BareMaps(q, missing, h);
    assert MapAuth(q, a, g).typ == a.typ;
    hide MapAuth, AuthFields, Undoes, OnType;
  }

  lemma {:induction false} RequestFills(q: seq<string>, was: Request, now: Request, g: Swap, h: Swap)
    requires Undoes(RequestFields(q, was), g, h)
    requires now == StoredRequest(MapRequest(q, was, g), now.id)
    ensures MapRequest(q, now, h) == StoredRequest(was, now.id)
  {
    hide AuthFields, VarFields, MapAuth, MapVars, StoredAuth;
    assert Undoes(AuthFields(q, was.auth), g, h) && Undoes(VarFields(q, "v", was.variables), g, h);
    AuthFills(q, was.auth, g, h, AUTH_INHERIT);
    VarsUndone(q, "v", was.variables, g, h);
  }

  lemma {:induction false} NthRequestFields(q: seq<string>, rs: seq<Request>, n: nat, i: nat, g: Swap, h: Swap)
    requires i < n <= |rs| && Undoes(RequestsFields(q, rs, n), g, h)
    ensures Undoes(RequestFields(q + ["r" + Itoa(i)], rs[i]), g, h)
  {
    hide RequestFields;
    if i < n - 1 {
      NthRequestFields(q, rs, n - 1, i, g, h);
    }
  }

  lemma {:induction false} NthFolderFields(q: seq<string>, fs: seq<Folder>, n: nat, j: nat, g: Swap, h: Swap)
    requires j < n <= |fs| && Undoes(FoldersFields(q, fs, n), g, h)
    ensures Undoes(FolderFields(q + ["f" + Itoa(j)], fs[j]), g, h)
  {
    hide FolderFields;
    if j < n - 1 {
      NthFolderFields(q, fs, n - 1, j, g, h);
    }
  }

  lemma {:induction false} ItemsFill(q: seq<string>, was: Container, now: Container, g: Swap, h: Swap)
    requires Undoes(RequestsFields(q, was.requests, |was.requests|), g, h)
    requires Undoes(FoldersFields(q, was.folders, |was.folders|), g, h)
    requires Restored(MapItems(q, was, g), now)
    ensures Restored(was, MapItems(q, now, h))
    decreases was, 0
  {
    hide RequestFields, FolderFields, MapRequest, StoredRequest, Undoes, RequestsFields, FoldersFields;
    var once, back := MapItems(q, was, g), MapItems(q, now, h);
    forall i | 0 <= i < |was.requests|
      ensures back.requests[i] == StoredRequest(was.requests[i], back.requests[i].id)
    {
      var p := q + ["r" + Itoa(i)];
      NthRequestFields(q, was.requests, |was.requests|, i, g, h);
      assert once.requests[i] == MapRequest(p, was.requests[i], g);
      RequestFills(p, was.requests[i], now.requests[i], g, h);
      RequestKeepsID(p, now.requests[i], h);
    }
    forall j | 0 <= j < |was.folders|
      ensures FolderRestored(was.folders[j], back.folders[j])
    {
      var p := q + ["f" + Itoa(j)];
      NthFolderFields(q, was.folders, |was.folders|, j, g, h);
      NthMapped(q, was, g, j);
      NthMapped(q, now, h, j);
      assert FolderRestored(once.folders[j], now.folders[j]);
      FolderFills(p, was.folders[j], now.folders[j], g, h);
    }
  }

  lemma {:induction false} NthMapped(q: seq<string>, c: Container, g: Swap, j: nat)
    requires j < |c.folders|
    ensures MapItems(q, c, g).folders[j] == MapFolder(q + ["f" + Itoa(j)], c.folders[j], g)
  {
    hide MapFolder;
    assert MapFolders(q, c.folders, g)[j] == MapFolder(q + ["f" + Itoa(j)], c.folders[j], g);
  }

  lemma {:induction false} RequestKeepsID(q: seq<string>, r: Request, h: Swap)
    ensures MapRequest(q, r, h).id == r.id
  {
  }

  lemma {:induction false} FolderFills(q: seq<string>, was: Folder, now: Folder, g: Swap, h: Swap)
    requires Undoes(FolderFields(q, was), g, h)
    requires FolderRestored(MapFolder(q, was, g), now)
    ensures FolderRestored(was, MapFolder(q, now, h))
    decreases was, 1
  {
    hide AuthFields, VarFields, RequestsFields, FoldersFields, MapAuth, MapVars, MapItems, StoredAuth, Restored;
    assert Undoes(AuthFields(q, was.auth), g, h) && Undoes(VarFields(q, "v", was.variables), g, h);
    AuthFills(q, was.auth, g, h, AUTH_INHERIT);
    VarsUndone(q, "v", was.variables, g, h);
    ItemsFill(q, was.items, now.items, g, h);
  }

  lemma {:induction false} CollectionFills(was: Collection, now: Collection, g: Swap, h: Swap)
    requires Undoes(Fields(was), g, h) && CollectionRestored(MapCollection(was, g), now)
    ensures CollectionRestored(was, MapCollection(now, h))
  {
    hide AuthFields, VarFields, RequestsFields, FoldersFields, EnvFields, MapAuth, MapVars, MapItems, StoredAuth, Restored;
    AuthFills(["col"], was.auth, g, h, AUTH_NONE);
    VarsUndone([], "cv", was.variables, g, h);
    ItemsFill([], was.items, now.items, g, h);
    forall i | 0 <= i < |was.environments|
      ensures MapEnvs(now.environments, h)[i].variables == was.environments[i].variables
    {
      EnvUndone(was.environments, |was.environments|, i, g, h);
    }
  }

  /** Rewriting values does not change the folders, on either side. */
  lemma {:induction false} ShapeThrough(q: seq<string>, was: Container, now: Container, g: Swap, h: Swap)
    requires SameShape(was, MapItems(q, now, h))
    ensures SameShape(MapItems(q, was, g), now)
    decreases was
  {
    hide MapRequests, MapAuth, MapVars;
    forall j | 0 <= j < |was.folders|
      ensures SameShape(MapItems(q, was, g).folders[j].items, now.folders[j].items)
    {
      NthMapped(q, was, g, j);
      NthMapped(q, now, h, j);
      ShapeThrough(q + ["f" + Itoa(j)], was.folders[j].items, now.folders[j].items, g, h);
    }
  }

  /** Save externalizes the secrets and writes the rest; load reads the rest and fills the secrets back
      in. The collection comes back whole, secrets included, up to what the files keep of it, exactly when
      no directory with a reserved name was there to be taken for a folder. */
  lemma {:induction false} SaveLoadRestores(dir: map<string, Entry>, c: Collection, after: map<string, Entry>, raw: Collection)
    requires CollectionSaved(dir, Blanked(c), after) && CollectionLoaded(after, raw)
    requires !(ENVIRONMENTS in dir && dir[ENVIRONMENTS].File?)
    ensures !LoadFails(Dir(after)) && CollectionRestored(c, Filled(raw, Extracted(c)))
       <==> TrapFree(Before(dir, Blanked(c), after), Blanked(c).items)
  {
    hide CollectionSaved, CollectionLoaded, CollectionRestored, MapCollection, Fields, Extracted, Before, TrapFree, Key, LoadFails;
    SavedThenLoaded(dir, Blanked(c), after, raw);
    if TrapFree(Before(dir, Blanked(c), after), Blanked(c).items) {
      FilledRestores(c, raw);
    }
    if !LoadFails(Dir(after)) && CollectionRestored(c, Filled(raw, Extracted(c))) {
      FilledShape(c, raw);
      ShapeIsFree(dir, Blanked(c), after, raw);
    }
  }

  lemma {:induction false} FilledRestores(c: Collection, raw: Collection)
    requires CollectionRestored(Blanked(c), raw)
    ensures CollectionRestored(c, Filled(raw, Extracted(c)))
  {
    hide CollectionRestored, MapCollection, Fields, Extracted, Key;
    var fs := Fields(c);
    forall f <- fs
      ensures FillFrom(Extracted(c))(Key(f.path), Blank(Key(f.path), f.value)) == f.value
    {
      var i :| 0 <= i < |fs| && fs[i] == f;
      StoreHolds(c, i);
    }
    CollectionFills(c, raw, Blank, FillFrom(Extracted(c)));
  }

  lemma {:induction false} FilledShape(c: Collection, raw: Collection)
    requires CollectionRestored(c, Filled(raw, Extracted(c)))
    ensures SameShape(Blanked(c).items, raw.items)
  {
    hide Extracted, MapItems, Restored, SameShape;
    var fill := FillFrom(Extracted(c));
    RestoredShape(c.items, MapItems([], raw.items, fill));
    ShapeThrough([], c.items, raw.items, Blank, fill);
  }

  lemma {:induction false} ShapeIsFree(dir: map<string, Entry>, c: Collection, after: map<string, Entry>, loaded: Collection)
    requires CollectionSaved(dir, c, after) && CollectionLoaded(after, loaded)
    requires !LoadFails(Dir(after)) && SameShape(c.items, loaded.items)
    ensures TrapFree(Before(dir, c, after), c.items)
  {
    hide IsSaved, IsLoaded, EnvsSaved, EnvsLoaded, TrapFree, SameShape, Unreadable;
    SameShapeIsFree(Before(dir, c, after), c.items, after, loaded.items);
  }
}
