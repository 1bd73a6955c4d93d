/** Loading what was saved: the tree comes back in order, up to what the files keep of it, whatever
    the directory held before. */
module StoreRoundTrip {
  import opened Text
  import opened Model
  import opened OpenCollection
  import opened Listing
  import opened Store
  import opened StoreLoad

  /** `now` is `was` up to what storing keeps: same shape and order, names, variables and requests as
      stored; folder IDs are minted anew. */
  ghost predicate Restored(was: Container, now: Container)
    decreases was, 1
  {
    && |now.requests| == |was.requests| && |now.folders| == |was.folders|
    && (forall i | 0 <= i < |was.requests| ::
          now.requests[i] == StoredRequest(was.requests[i], now.requests[i].id))
    && (forall j | 0 <= j < |was.folders| :: FolderRestored(was.folders[j], now.folders[j]))
  }

  ghost predicate FolderRestored(was: Folder, now: Folder)
    decreases was, 2
  {
    && now.name == was.name
    && now.auth == StoredAuth(was.auth, AUTH_INHERIT)
    && now.variables == was.variables
    && Restored(was.items, now.items)
  }

  /** The same folders, level by level, whatever they hold. */
  ghost predicate SameShape(was: Container, now: Container)
    decreases was
  {
    |now.folders| == |was.folders| && forall j | 0 <= j < |was.folders| :: SameShape(was.folders[j].items, now.folders[j].items)
  }

  /** No directory with a reserved name looks like a collection folder. The sweep keeps such a
      directory, but the load does not skip it. */
  ghost predicate TrapFree(dir: map<string, Entry>, items: Container)
    decreases items
  {
    && !IsFolderPath(dir, COLLECTION_FILE) && !IsFolderPath(dir, FOLDER_FILE)
    && forall j | 0 <= j < |items.folders| :: TrapFree(Opened(dir, items, j), items.folders[j].items)
  }

  function RequestKeys(items: Container): (keys: seq<string>)
    ensures |keys| == |items.requests|
  {
    seq(|items.requests|, i requires 0 <= i < |items.requests| => RequestKey(items, i))
  }

  function FolderKeys(items: Container): (keys: seq<string>)
    ensures |keys| == |items.folders|
  {
    seq(|items.folders|, j requires 0 <= j < |items.folders| => FolderKey(items, j))
  }

  lemma KeysListed(items: Container)
    ensures Lists(RequestKeys(items), set k <- RequestKeys(items))
    ensures Lists(FolderKeys(items), set k <- FolderKeys(items))
    ensures AllKeys(items) == (set k <- RequestKeys(items)) + (set k <- FolderKeys(items))
  {
    hide RequestKey, FolderKey, Lists;
    KeysAreApart(items);
    DistinctLists(RequestKeys(items));
    DistinctLists(FolderKeys(items));
    forall i | 0 <= i < |items.requests|
      ensures RequestKey(items, i) in RequestKeys(items)
    {
      assert RequestKeys(items)[i] == RequestKey(items, i);
    }
    forall j | 0 <= j < |items.folders|
      ensures FolderKey(items, j) in FolderKeys(items)
    {
      assert FolderKeys(items)[j] == FolderKey(items, j);
    }
  }

  lemma RequestKeyApart(items: Container, i: nat)
    requires i < |items.requests|
    ensures HasSuffix(RequestKey(items, i), YML)
    ensures RequestKey(items, i) != COLLECTION_FILE && RequestKey(items, i) != FOLDER_FILE
  {
    hide RequestKey, FolderKey, HasSuffix;
    KeysAreApart(items);
  }

  /** What one saved request is found as. */
  lemma SavedRequestHeld(dir: map<string, Entry>, items: Container, after: map<string, Entry>, i: nat)
    requires IsSaved(dir, items, after) && i < |items.requests|
    ensures HoldsRequest(after, RequestKey(items, i))
    ensures RequestSeq(after, RequestKey(items, i)) == i + 1
    ensures after[RequestKey(items, i)]
         == RequestEntry(SavedRequest(items.requests[i], i + 1, PriorRequest(dir, RequestKey(items, i))))
  {
    hide RequestKey, FolderKey, SavedRequest, RequestOf, FolderPut, HasSuffix, PriorRequest;
    RequestKeyApart(items, i);
    assert RequestPut(dir, items, i, after);
    RequestRoundTrip(items.requests[i], i + 1, PriorRequest(dir, RequestKey(items, i)), "");
  }

  lemma SavedRequestReads(dir: map<string, Entry>, items: Container, after: map<string, Entry>, i: nat, r: Request)
    requires IsSaved(dir, items, after) && i < |items.requests|
    ensures RequestRead(after, RequestKey(items, i), r) <==> r == StoredRequest(items.requests[i], r.id)
  {
    hide RequestKey, IsSaved, SavedRequest, RequestOf, StoredRequest, HoldsRequest, RequestSeq, PriorRequest;
    SavedRequestHeld(dir, items, after, i);
    RequestRoundTrip(items.requests[i], i + 1, PriorRequest(dir, RequestKey(items, i)), r.id);
  }

  lemma FolderFileReads(f: Folder, seqNo: int, prev: Option<FolderFile>)
    ensures var ff := SavedFolder(f, seqNo, prev);
            && ff.info.seqNo == seqNo && ff.info.name == f.name
            && ReadAuth(ff.auth, AUTH_INHERIT) == StoredAuth(f.auth, AUTH_INHERIT)
            && VariablesOf(ff.vars) == f.variables
  {
    hide AuthToFile, ReadAuth, StoredAuth, MergeAuth;
    AuthRoundTrip(f.auth, AUTH_INHERIT);
    VarsRoundTrip(f.variables);
    if prev.Some? {
      MergeAuthReads(AuthToFile(f.auth), prev.value.auth, AUTH_INHERIT);
    }
  }

  /** A folder's own file outlives the saving of its items. */
  lemma FolderFileStays(dir: map<string, Entry>, items: Container, after: map<string, Entry>, j: nat)
    requires IsSaved(dir, items, after) && j < |items.folders|
    ensures var k := FolderKey(items, j);
            && k in after && after[k].Dir? && k != ENVIRONMENTS
            && IsSaved(Opened(dir, items, j), items.folders[j].items, after[k].entries)
            && FOLDER_FILE in after[k].entries
            && after[k].entries[FOLDER_FILE] == FolderEntry(
                 SavedFolder(items.folders[j], j + 1, PriorFolder(SubDir(dir, k))))
  {
    hide RequestKey, FolderKey, SavedFolder, SavedRequest, PriorFolder;
    KeysAreApart(items);
    KeysAreApart(items.folders[j].items);
    assert FolderPut(dir, items, j, after);
    assert FOLDER_FILE !in AllKeys(items.folders[j].items);
  }

  lemma SavedFolderHeld(dir: map<string, Entry>, items: Container, after: map<string, Entry>, j: nat)
    requires IsSaved(dir, items, after) && j < |items.folders|
    ensures HoldsFolder(after, FolderKey(items, j))
    ensures FolderSeq(after, FolderKey(items, j)) == j + 1
  {
    hide RequestKey, FolderKey, SavedFolder, SavedRequest, IsSaved, PriorFolder, ReadAuth, StoredAuth, VariablesOf;
    FolderFileStays(dir, items, after, j);
    FolderFileReads(items.folders[j], j + 1, PriorFolder(SubDir(dir, FolderKey(items, j))));
  }

  /** What one saved folder reads back as. */
  lemma SavedFolderReads(dir: map<string, Entry>, items: Container, after: map<string, Entry>, j: nat, f: Folder)
    requires IsSaved(dir, items, after) && j < |items.folders|
    ensures HoldsFolder(after, FolderKey(items, j))
    ensures FolderRead(after, FolderKey(items, j), f) <==>
        && f.name == items.folders[j].name && f.auth == StoredAuth(items.folders[j].auth, AUTH_INHERIT)
        && f.variables == items.folders[j].variables
        && IsLoaded(after[FolderKey(items, j)].entries, f.items)
  {
    hide RequestKey, FolderKey, SavedFolder, SavedRequest, IsSaved, PriorFolder, IsLoaded, ReadAuth, StoredAuth, VariablesOf;
    FolderFileStays(dir, items, after, j);
    SavedFolderHeld(dir, items, after, j);
    FolderFileReads(items.folders[j], j + 1, PriorFolder(SubDir(dir, FolderKey(items, j))));
  }

  /** After a save the only request files are the saved ones. */
  lemma RequestPathsAre(dir: map<string, Entry>, items: Container, after: map<string, Entry>)
    requires IsSaved(dir, items, after)
    ensures RequestPaths(after) == set k <- RequestKeys(items)
    ensures forall k :: IsRequestPath(after, k) ==> k in RequestPaths(after)
  {
    hide RequestKey, FolderKey, SavedRequest, SavedFolder, PriorFolder, FolderPut, RequestPut, HasSuffix;
    KeysListed(items);
    forall k | k in RequestKeys(items)
      ensures k in RequestPaths(after)
    {
      var i :| 0 <= i < |items.requests| && RequestKeys(items)[i] == k;
      SavedRequestHeld(dir, items, after, i);
    }
    forall k | k in FolderKeys(items)
      ensures !IsRequestPath(after, k)
    {
      var j :| 0 <= j < |items.folders| && FolderKeys(items)[j] == k;
      SavedFolderHeld(dir, items, after, j);
    }
    forall k | k !in AllKeys(items)
      ensures !IsRequestPath(after, k)
    {
      EnvironmentsIsNoFile();
    }
  }

  lemma EnvironmentsIsNoFile()
    ensures !HasSuffix(ENVIRONMENTS, YML)
  {
    assert ENVIRONMENTS[8] == 'e';
  }

  /** After a save the only folders are the saved ones, and any directory with a reserved name that
      looks like one. */
  lemma FolderPathsAre(dir: map<string, Entry>, items: Container, after: map<string, Entry>)
    requires IsSaved(dir, items, after)
    ensures forall k <- FolderKeys(items) :: k in FolderPaths(after)
    ensures forall k :: IsFolderPath(after, k) ==>
        k in FolderKeys(items) || ((k == COLLECTION_FILE || k == FOLDER_FILE) && IsFolderPath(dir, k))
    ensures forall k :: (k == COLLECTION_FILE || k == FOLDER_FILE) && IsFolderPath(dir, k) ==>
        IsFolderPath(after, k) && k !in FolderKeys(items)
  {
    hide RequestKey, FolderKey, SavedRequest, SavedFolder, PriorFolder, FolderPut, RequestPut, HasSuffix;
    KeysAreApart(items);
    KeysListed(items);
    forall k | k in FolderKeys(items)
      ensures k in FolderPaths(after)
    {
      var j :| 0 <= j < |items.folders| && FolderKeys(items)[j] == k;
      SavedFolderHeld(dir, items, after, j);
    }
    forall k | k in RequestKeys(items)
      ensures !IsFolderPath(after, k)
    {
      var i :| 0 <= i < |items.requests| && RequestKeys(items)[i] == k;
      SavedRequestHeld(dir, items, after, i);
    }
    forall k | k !in AllKeys(items)
      ensures IsFolderPath(after, k) <==> (k == COLLECTION_FILE || k == FOLDER_FILE) && IsFolderPath(dir, k)
    {
    }
  }

  function RequestNumbers(dir: map<string, Entry>): map<string, int> {
    map k | k in RequestPaths(dir) :: RequestSeq(dir, k)
  }

  function FolderNumbers(dir: map<string, Entry>): map<string, int> {
    map k | k in FolderPaths(dir) :: FolderSeq(dir, k)
  }

  /** Every load of a saved directory finds the requests in their saved order. */
  lemma RequestOrder(dir: map<string, Entry>, items: Container, after: map<string, Entry>, rn: seq<string>)
    requires IsSaved(dir, items, after) && Lists(rn, RequestPaths(after))
    requires forall i, k | 0 <= i < k < |rn| :: RequestSeq(after, rn[i]) <= RequestSeq(after, rn[k])
    ensures rn == RequestKeys(items)
  {
    hide RequestKey, FolderKey, IsSaved, RequestSeq, Lists, RequestPaths;
    RequestPathsAre(dir, items, after);
    KeysListed(items);
    ListsEach(rn, RequestPaths(after));
    forall i | 0 <= i < |items.requests|
      ensures RequestKeys(items)[i] in RequestPaths(after) && RequestSeq(after, RequestKeys(items)[i]) == i + 1
    {
      SavedRequestHeld(dir, items, after, i);
    }
    SortingRestores(rn, RequestKeys(items), RequestPaths(after), RequestNumbers(after));
  }

  /** Likewise the folders, when no other directory passes for one. */
  lemma FolderOrder(dir: map<string, Entry>, items: Container, after: map<string, Entry>, fn: seq<string>)
    requires IsSaved(dir, items, after) && Lists(fn, FolderPaths(after))
    requires forall j, k | 0 <= j < k < |fn| :: FolderSeq(after, fn[j]) <= FolderSeq(after, fn[k])
    requires FolderPaths(after) == set k <- FolderKeys(items)
    ensures fn == FolderKeys(items)
  {
    hide RequestKey, FolderKey, IsSaved, FolderSeq, Lists, FolderPaths;
    KeysListed(items);
    ListsEach(fn, FolderPaths(after));
    forall j | 0 <= j < |items.folders|
      ensures FolderKeys(items)[j] in FolderPaths(after) && FolderSeq(after, FolderKeys(items)[j]) == j + 1
    {
      SavedFolderHeld(dir, items, after, j);
      assert FolderKeys(items)[j] in FolderKeys(items);
    }
    SortingRestores(fn, FolderKeys(items), FolderPaths(after), FolderNumbers(after));
  }

  /** Everything in a saved directory can be read when nothing in it is a trap. */
  lemma {:induction false} SavedIsReadable(dir: map<string, Entry>, items: Container, after: map<string, Entry>)
    requires IsSaved(dir, items, after) && TrapFree(dir, items)
    ensures !Unreadable(Dir(after))
    decreases items
  {
    hide RequestKey, FolderKey, IsSaved, Opened;
    RequestPathsAre(dir, items, after);
    FolderPathsAre(dir, items, after);
    forall k <- after
      ensures !EntryUnreadable(Dir(after), k)
    {
      if IsFolderPath(after, k) {
        var j :| 0 <= j < |items.folders| && FolderKeys(items)[j] == k;
        FolderFileStays(dir, items, after, j);
        SavedIsReadable(Opened(dir, items, j), items.folders[j].items, after[k].entries);
        assert after[k] == Dir(after[k].entries);
      }
    }
  }

  /** A trap either makes the load fail or shows up as a folder that was not saved. */
  lemma TrapShows(dir: map<string, Entry>, items: Container, after: map<string, Entry>, k: string)
    requires IsSaved(dir, items, after) && !Unreadable(Dir(after))
    requires (k == COLLECTION_FILE || k == FOLDER_FILE) && IsFolderPath(dir, k)
    ensures k in FolderPaths(after) && k !in FolderKeys(items)
  {
    hide RequestKey, FolderKey, IsSaved;
    FolderPathsAre(dir, items, after);
    assert !EntryUnreadable(Dir(after), k);
  }

  lemma NoOtherFolders(dir: map<string, Entry>, items: Container, after: map<string, Entry>)
    requires IsSaved(dir, items, after)
    requires !IsFolderPath(dir, COLLECTION_FILE) && !IsFolderPath(dir, FOLDER_FILE)
    ensures FolderPaths(after) == set k <- FolderKeys(items)
  {
    hide FolderKeys, IsSaved, IsFolderPath;
    FolderPathsAre(dir, items, after);
    forall k <- FolderPaths(after)
      ensures k in FolderKeys(items)
    {
      assert IsFolderPath(after, k);
    }
  }

  lemma RequestsRestored(dir: map<string, Entry>, items: Container, after: map<string, Entry>, loaded: Container,
                         rn: seq<string>, fn: seq<string>)
    requires IsSaved(dir, items, after) && LoadedFrom(after, loaded, rn, fn)
    ensures |loaded.requests| == |items.requests|
    ensures forall i | 0 <= i < |items.requests| ::
        loaded.requests[i] == StoredRequest(items.requests[i], loaded.requests[i].id)
  {
    hide RequestKey, FolderKey, IsSaved, StoredRequest, RequestRead, FolderRead, RequestSeq, FolderSeq, Lists;
    RequestOrder(dir, items, after, rn);
    forall i | 0 <= i < |items.requests|
      ensures loaded.requests[i] == StoredRequest(items.requests[i], loaded.requests[i].id)
    {
      SavedRequestReads(dir, items, after, i, loaded.requests[i]);
      assert RequestRead(after, rn[i], loaded.requests[i]);
    }
  }

  /** With as many folders loaded as saved, no directory can have been mistaken for one. */
  lemma NoTrapHere(dir: map<string, Entry>, items: Container, after: map<string, Entry>, loaded: Container,
                   rn: seq<string>, fn: seq<string>)
    requires IsSaved(dir, items, after) && LoadedFrom(after, loaded, rn, fn) && !Unreadable(Dir(after))
    requires |loaded.folders| == |items.folders|
    ensures !IsFolderPath(dir, COLLECTION_FILE) && !IsFolderPath(dir, FOLDER_FILE)
    ensures FolderPaths(after) == set k <- FolderKeys(items)
  {
    hide RequestKey, FolderKey, IsSaved, FolderRead, RequestRead, Unreadable, RequestSeq, FolderSeq, IsFolderPath;
    FolderPathsAre(dir, items, after);
    KeysListed(items);
    var keys := set k <- FolderKeys(items);
    ListsEach(FolderKeys(items), keys);
    ListsEach(fn, FolderPaths(after));
    SameSize(keys, FolderPaths(after));
    forall k | (k == COLLECTION_FILE || k == FOLDER_FILE) && IsFolderPath(dir, k)
      ensures false
    {
      TrapShows(dir, items, after, k);
    }
  }

  // ----- saving twice -----

  lemma SavedFolderStable(f: Folder, seqNo: int, prev: Option<FolderFile>)
    ensures SavedFolder(f, seqNo, Some(SavedFolder(f, seqNo, prev))) == SavedFolder(f, seqNo, prev)
  {
    hide AuthToFile, MergeAuth;
    if prev.Some? {
      MergeAuthReads(AuthToFile(f.auth), prev.value.auth, AUTH_INHERIT);
    } else {
      MergeAuthSelf(AuthToFile(f.auth));
    }
  }

  /** A saved directory opened for saving the same folder again is that directory. */
  lemma OpenedAgain(dir: map<string, Entry>, items: Container, after: map<string, Entry>, j: nat)
    requires IsSaved(dir, items, after) && j < |items.folders|
    ensures FolderKey(items, j) in after && after[FolderKey(items, j)].Dir?
    ensures Opened(after, items, j) == after[FolderKey(items, j)].entries
  {
    hide RequestKey, FolderKey, SavedFolder, SavedRequest, IsSaved;
    FolderFileStays(dir, items, after, j);
    SavedFolderStable(items.folders[j], j + 1, PriorFolder(SubDir(dir, FolderKey(items, j))));
  }

  /** A second save of the same items finds no clash and leaves the directory exactly as it is, unknown
      keys of every file included. */
  lemma {:induction false} SaveTwice(dir: map<string, Entry>, items: Container, once: map<string, Entry>)
    requires IsSaved(dir, items, once)
    ensures IsSaved(once, items, once) && !Clash(once, items)
    decreases items
  {
    hide RequestKey, FolderKey, SavedFolder, SavedRequest, PriorRequest, PriorFolder, Opened;
    forall i | 0 <= i < |items.requests|
      ensures RequestPut(once, items, i, once) && once[RequestKey(items, i)].File?
    {
      RequestStays(dir, items, once, i);
    }
    forall j | 0 <= j < |items.folders|
      ensures FolderPut(once, items, j, once) && !FolderClash(once, items, j)
    {
      FolderFileStays(dir, items, once, j);
      OpenedAgain(dir, items, once, j);
      SaveTwice(Opened(dir, items, j), items.folders[j].items, once[FolderKey(items, j)].entries);
      NotBlocked(once, items, j);
    }
  }

  lemma RequestStays(dir: map<string, Entry>, items: Container, once: map<string, Entry>, i: nat)
    requires IsSaved(dir, items, once) && i < |items.requests|
    ensures RequestPut(once, items, i, once) && once[RequestKey(items, i)].File?
  {
    hide RequestKey, FolderKey, SavedRequest, FolderPut;
    assert RequestPut(dir, items, i, once);
    SavedRequestStable(items.requests[i], i + 1, PriorRequest(dir, RequestKey(items, i)));
  }

  lemma NotBlocked(once: map<string, Entry>, items: Container, j: nat)
    requires j < |items.folders| && FolderKey(items, j) in once && once[FolderKey(items, j)].Dir?
    requires FOLDER_FILE in once[FolderKey(items, j)].entries && once[FolderKey(items, j)].entries[FOLDER_FILE].File?
    requires !Clash(Opened(once, items, j), items.folders[j].items)
    ensures !FolderClash(once, items, j)
  {
    hide FolderKey, SavedFolder, PriorFolder, Clash;
    OpenedIs(once, items, j);
  }

  /** What a save leaves is determined by what was there. */
  lemma {:induction false} SaveIsDetermined(dir: map<string, Entry>, items: Container, a: map<string, Entry>, b: map<string, Entry>)
    requires IsSaved(dir, items, a) && IsSaved(dir, items, b)
    ensures a == b
    decreases items
  {
    hide RequestKey, FolderKey, SavedFolder, SavedRequest, PriorRequest, PriorFolder, Opened;
    forall k
      ensures k in a <==> k in b
      ensures k in a && k in b ==> a[k] == b[k]
    {
      if k in AllKeys(items) {
        if i :| 0 <= i < |items.requests| && k == RequestKey(items, i) {
          assert RequestPut(dir, items, i, a) && RequestPut(dir, items, i, b);
        } else {
          var j :| 0 <= j < |items.folders| && k == FolderKey(items, j);
          assert FolderPut(dir, items, j, a) && FolderPut(dir, items, j, b);
          SaveIsDetermined(Opened(dir, items, j), items.folders[j].items, a[k].entries, b[k].entries);
        }
      }
    }
  }

  lemma SameSize<T>(small: set<T>, large: set<T>)
    requires small <= large && |small| == |large|
    ensures small == large
  {
    assert large == small + (large - small);
    assert large - small == {};
  }

  lemma {:induction false} FreeRestores(dir: map<string, Entry>, items: Container, after: map<string, Entry>, loaded: Container)
    requires IsSaved(dir, items, after) && IsLoaded(after, loaded) && TrapFree(dir, items)
    ensures Restored(items, loaded)
    decreases items
  {
    hide RequestKey, FolderKey, IsSaved, Opened, StoredRequest, StoredAuth, FolderRead, RequestRead, Lists, FolderPaths,
         RequestPaths, IsFolderPath;
    var rn, fn :| LoadedFrom(after, loaded, rn, fn);
    NoOtherFolders(dir, items, after);
    RequestsRestored(dir, items, after, loaded, rn, fn);
    FolderOrder(dir, items, after, fn);
    forall j | 0 <= j < |items.folders|
      ensures FolderRestored(items.folders[j], loaded.folders[j])
    {
      var k := FolderKeys(items)[j];
      FolderFileStays(dir, items, after, j);
      assert FolderRead(after, fn[j], loaded.folders[j]);
      SavedFolderReads(dir, items, after, j, loaded.folders[j]);
      FreeRestores(Opened(dir, items, j), items.folders[j].items, after[k].entries, loaded.folders[j].items);
    }
  }

  lemma SubReadable(after: map<string, Entry>, k: string)
    requires !Unreadable(Dir(after)) && IsFolderPath(after, k)
    ensures !Unreadable(Dir(after[k].entries))
  {
    assert !EntryUnreadable(Dir(after), k);
    assert after[k] == Dir(after[k].entries);
  }

  /** If even the folders come back as they were, nothing can have passed for one. */
  lemma {:induction false} SameShapeIsFree(dir: map<string, Entry>, items: Container, after: map<string, Entry>, loaded: Container)
    requires IsSaved(dir, items, after) && IsLoaded(after, loaded)
    requires !Unreadable(Dir(after)) && SameShape(items, loaded)
    ensures TrapFree(dir, items)
    decreases items
  {
    hide RequestKey, FolderKey, IsSaved, Opened, StoredRequest, StoredAuth, FolderRead, RequestRead, Lists, FolderPaths,
         RequestPaths, IsFolderPath, Unreadable;
    var rn, fn :| LoadedFrom(after, loaded, rn, fn);
    NoTrapHere(dir, items, after, loaded, rn, fn);
    FolderOrder(dir, items, after, fn);
    forall j | 0 <= j < |items.folders|
      ensures TrapFree(Opened(dir, items, j), items.folders[j].items)
    {
      var k := FolderKeys(items)[j];
      FolderFileStays(dir, items, after, j);
      assert FolderRead(after, fn[j], loaded.folders[j]);
      SavedFolderReads(dir, items, after, j, loaded.folders[j]);
      SubReadable(after, k);
      SameShapeIsFree(Opened(dir, items, j), items.folders[j].items, after[k].entries, loaded.folders[j].items);
    }
  }

  lemma {:induction false} RestoredShape(was: Container, now: Container)
    requires Restored(was, now)
    ensures SameShape(was, now)
    decreases was
  {
    hide StoredRequest, StoredAuth;
    forall j | 0 <= j < |was.folders|
      ensures SameShape(was.folders[j].items, now.folders[j].items)
    {
      assert FolderRestored(was.folders[j], now.folders[j]);
      RestoredShape(was.folders[j].items, now.folders[j].items);
    }
  }

  /** Saving `items` into a directory and loading it back restores them exactly when no directory with
      a reserved name was there to be taken for a folder. */
  lemma SaveThenLoad(dir: map<string, Entry>, items: Container, after: map<string, Entry>, loaded: Container)
    requires IsSaved(dir, items, after) && IsLoaded(after, loaded)
    ensures !Unreadable(Dir(after)) && Restored(items, loaded) <==> TrapFree(dir, items)
  {
    hide IsSaved, IsLoaded, TrapFree, Restored, Unreadable;
    if TrapFree(dir, items) {
      SavedIsReadable(dir, items, after);
      FreeRestores(dir, items, after, loaded);
    }
    if !Unreadable(Dir(after)) && Restored(items, loaded) {
      RestoredShape(items, loaded);
      SameShapeIsFree(dir, items, after, loaded);
    }
  }

  /** A directory named folder.yml with a folder file of its own, present before an empty collection is
      saved, comes back as a folder. */
  lemma TrapExample(f: FolderFile)
    ensures var dir := map[FOLDER_FILE := Dir(map[FOLDER_FILE := FolderEntry(f)])];
            && IsSaved(dir, EMPTY, dir) && !Clash(dir, EMPTY) && !TrapFree(dir, EMPTY)
  {
    var dir := map[FOLDER_FILE := Dir(map[FOLDER_FILE := FolderEntry(f)])];
    assert AllKeys(EMPTY) == {};
    assert IsFolderPath(dir, FOLDER_FILE);
  }
}
