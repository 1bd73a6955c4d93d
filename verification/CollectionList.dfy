/** The list of open collections in `internal/session/session.go`: which directory sits at which index,
    which is active, and which environment each has selected. */
module CollectionList {
  import opened Text
  import opened Model

  function IndexIn(dirs: seq<string>, d: string): (i: nat)
    ensures i <= |dirs|
    ensures i < |dirs| ==> dirs[i] == d
    ensures forall k :: 0 <= k < i ==> dirs[k] != d
    ensures i == |dirs| <==> d !in dirs
  {
    if dirs == [] then 0 else if dirs[0] == d then 0 else 1 + IndexIn(dirs[1..], d)
  }

  ghost predicate Distinct(dirs: seq<string>) {
    forall i, j :: 0 <= i < j < |dirs| ==> dirs[i] != dirs[j]
  }

  /** `part` is `whole` with entries left out: the directories that failed to load. */
  predicate Subsequence(part: seq<string>, whole: seq<string>)
    decreases |whole|
  {
    || part == []
    || (whole != [] && if part[0] == whole[0] then Subsequence(part[1..], whole[1..]) else Subsequence(part, whole[1..]))
  }

  lemma {:induction false} SubsequenceAppend(part: seq<string>, whole: seq<string>, d: string)
    requires Subsequence(part, whole)
    ensures Subsequence(part + [d], whole + [d])
    decreases |whole|
  {
    if part == [] {
      AppearsLast(whole, d);
      assert part + [d] == [d];
    } else {
      assert (whole + [d])[1..] == whole[1..] + [d] && (part + [d])[1..] == part[1..] + [d];
      if part[0] == whole[0] {
        SubsequenceAppend(part[1..], whole[1..], d);
      } else {
        SubsequenceAppend(part, whole[1..], d);
      }
    }
  }

  lemma {:induction false} AppearsLast(whole: seq<string>, d: string)
    ensures Subsequence([d], whole + [d])
    decreases |whole|
  {
    if whole == [] {
      assert Subsequence([d][1..], ([d])[1..]);
    } else if whole[0] == d {
      assert [d][1..] == [];
    } else {
      assert (whole + [d])[1..] == whole[1..] + [d];
      AppearsLast(whole[1..], d);
    }
  }

  lemma {:induction false} SubsequenceFits(part: seq<string>, whole: seq<string>)
    requires Subsequence(part, whole)
    ensures |part| <= |whole| && (|part| == |whole| ==> part == whole)
    decreases |whole|
  {
    if part != [] {
      if part[0] == whole[0] {
        SubsequenceFits(part[1..], whole[1..]);
        assert part == [part[0]] + part[1..] && whole == [whole[0]] + whole[1..];
      } else {
        SubsequenceFits(part, whole[1..]);
      }
    }
  }

  lemma {:induction false} SubsequenceDrops(part: seq<string>, whole: seq<string>, i: nat)
    requires Subsequence(part, whole) && i < |part|
    ensures Subsequence(Delete(part, i), whole)
    decreases |whole|
  {
    if part[0] != whole[0] {
      SubsequenceDrops(part, whole[1..], i);
      if Delete(part, i) != [] && Delete(part, i)[0] == whole[0] {
        SubsequenceTail(Delete(part, i), whole[1..]);
      }
    } else if i == 0 {
      assert Delete(part, 0) == part[1..];
      SubsequenceLonger(part[1..], whole);
    } else {
      SubsequenceDrops(part[1..], whole[1..], i - 1);
      assert Delete(part, i)[1..] == Delete(part[1..], i - 1);
    }
  }

  /** A subsequence of the tail is one of the whole. */
  lemma {:induction false} SubsequenceLonger(part: seq<string>, whole: seq<string>)
    requires whole != [] && Subsequence(part, whole[1..])
    ensures Subsequence(part, whole)
    decreases |whole|, 0
  {
    if part != [] && part[0] == whole[0] {
      SubsequenceTail(part, whole[1..]);
    }
  }

  lemma {:induction false} SubsequenceTail(part: seq<string>, whole: seq<string>)
    requires part != [] && Subsequence(part, whole)
    ensures Subsequence(part[1..], whole)
    decreases |whole|, 1
  {
    if part[0] == whole[0] {
      SubsequenceLonger(part[1..], whole);
    } else {
      SubsequenceTail(part, whole[1..]);
      SubsequenceLonger(part[1..], whole);
    }
  }

  /** Deleting a directory the part does not hold keeps it a subsequence. */
  lemma {:induction false} SubsequenceWithout(part: seq<string>, whole: seq<string>, d: string)
    requires Subsequence(part, whole) && d !in part && d in whole
    ensures Subsequence(part, Delete(whole, IndexIn(whole, d)))
    decreases |whole|
  {
    var j := IndexIn(whole, d);
    var rest := Delete(whole, j);
    if j == 0 {
      assert rest == whole[1..];
    } else if part != [] {
      assert rest[0] == whole[0] && rest[1..] == Delete(whole[1..], j - 1) && IndexIn(whole[1..], d) == j - 1;
      if part[0] == whole[0] {
        SubsequenceWithout(part[1..], whole[1..], d);
      } else {
        SubsequenceWithout(part, whole[1..], d);
      }
    }
  }

  // ----- environments by directory -----

  type ByIndex = map<int, string>
  type ByDir = map<string, string>

  predicate KeysInRange(env: ByIndex, n: nat) { forall i <- env :: 0 <= i < n }

  /** The environment each directory has selected. */
  function ToDirs(dirs: seq<string>, env: ByIndex): ByDir {
    map d | d in dirs && IndexIn(dirs, d) in env :: env[IndexIn(dirs, d)]
  }

  /** The selection laid out by the positions of the directories. */
  function ToIndexes(dirs: seq<string>, byDir: ByDir): ByIndex {
    map i | 0 <= i < |dirs| && dirs[i] in byDir :: byDir[dirs[i]]
  }

  lemma IndexInDistinct(dirs: seq<string>, i: nat)
    requires Distinct(dirs) && i < |dirs|
    ensures IndexIn(dirs, dirs[i]) == i
  {
    hide IndexIn;
    var j := IndexIn(dirs, dirs[i]);
    assert j < |dirs| && dirs[j] == dirs[i];
  }

  /** With distinct directories the two layouts carry the same information. */
  lemma LayoutsAgree(dirs: seq<string>, env: ByIndex)
    requires Distinct(dirs) && KeysInRange(env, |dirs|)
    ensures ToIndexes(dirs, ToDirs(dirs, env)) == env
    ensures forall i :: 0 <= i < |dirs| ==>
        (dirs[i] in ToDirs(dirs, env) <==> i in env) && (i in env ==> ToDirs(dirs, env)[dirs[i]] == env[i])
  {
    hide IndexIn, Distinct;
    forall i | 0 <= i < |dirs|
      ensures (dirs[i] in ToDirs(dirs, env) <==> i in env) && (i in env ==> ToDirs(dirs, env)[dirs[i]] == env[i])
    {
      IndexInDistinct(dirs, i);
    }
  }

  /** The index the entry at j had before the entry at i was removed. */
  function Unshifted(j: int, i: int): int { if j < i then j else j + 1 }

  /** The layout after the entry at i is removed and the ones above shift down. */
  function Shifted(env: ByIndex, i: int, n: nat): ByIndex {
    map j | 0 <= j < n && Unshifted(j, i) in env :: env[Unshifted(j, i)]
  }

  lemma DeletedAt<T>(xs: seq<T>, i: nat, j: nat)
    requires i < |xs| && j < |xs| - 1
    ensures Delete(xs, i)[j] == xs[Unshifted(j, i)]
  {
  }

  /** Shifting indices is re-keying through the directories. */
  lemma ShiftIsRekey(dirs: seq<string>, env: ByIndex, i: nat)
    requires Distinct(dirs) && KeysInRange(env, |dirs|) && i < |dirs|
    ensures Shifted(env, i, |dirs| - 1) == ToIndexes(Delete(dirs, i), ToDirs(dirs, env))
  {
    hide ToDirs, Distinct;
    LayoutsAgree(dirs, env);
    var byDir := ToDirs(dirs, env);
    hide Delete;
    assert |Delete(dirs, i)| == |dirs| - 1 by { DeletedLength(dirs, i); }
    forall j | 0 <= j < |dirs| - 1
      ensures Delete(dirs, i)[j] == dirs[Unshifted(j, i)]
    {
      DeletedAt(dirs, i, j);
    }
    forall j | 0 <= j < |dirs| - 1
      ensures Delete(dirs, i)[j] in byDir <==> Unshifted(j, i) in env
      ensures Unshifted(j, i) in env ==> byDir[Delete(dirs, i)[j]] == env[Unshifted(j, i)]
    {
    }
  }

  lemma DeletedLength<T>(xs: seq<T>, i: nat)
    requires i < |xs|
    ensures |Delete(xs, i)| == |xs| - 1
  {
  }

  /** The list with the entry at `from` taken out and put back at `to`. */
  function Moved<T>(xs: seq<T>, from: nat, to: nat): seq<T>
    requires from < |xs| && to < |xs|
  {
    Insert(Delete(xs, from), to, xs[from])
  }

  /** Where the entry at k ends up. */
  function NewIndex(k: nat, from: nat, to: nat): nat {
    if k == from then to
    else
      var gap := if k < from then k else k - 1;
      if gap < to then gap else gap + 1
  }

  lemma MovedAt<T>(xs: seq<T>, from: nat, to: nat, k: nat)
    requires from < |xs| && to < |xs| && k < |xs|
    ensures NewIndex(k, from, to) < |xs| && Moved(xs, from, to)[NewIndex(k, from, to)] == xs[k]
  {
  }

  lemma MovedDistinct(dirs: seq<string>, from: nat, to: nat)
    requires Distinct(dirs) && from < |dirs| && to < |dirs|
    ensures Distinct(Moved(dirs, from, to))
    ensures forall d :: d in Moved(dirs, from, to) <==> d in dirs
  {
    var rest, x := Delete(dirs, from), dirs[from];
    DeleteDistinct(dirs, from);
    InsertDistinct(rest, to, x);
    assert dirs == dirs[..from] + [x] + dirs[from + 1..];
    forall d
      ensures d in dirs <==> d in rest || d == x
    {
    }
  }

  lemma InsertDistinct(rest: seq<string>, to: nat, x: string)
    requires Distinct(rest) && x !in rest && to <= |rest|
    ensures Distinct(Insert(rest, to, x))
    ensures forall d :: d in Insert(rest, to, x) <==> d in rest || d == x
  {
    assert rest == rest[..to] + rest[to..];
    var out := Insert(rest, to, x);
    forall i, j | 0 <= i < j < |out|
      ensures out[i] != out[j]
    {
      assert i < to ==> out[i] == rest[i];
      assert i > to ==> out[i] == rest[i - 1];
      assert j < to ==> out[j] == rest[j];
      assert j > to ==> out[j] == rest[j - 1];
    }
  }

  lemma DeleteDistinct(dirs: seq<string>, i: nat)
    requires Distinct(dirs) && i < |dirs|
    ensures Distinct(Delete(dirs, i)) && dirs[i] !in Delete(dirs, i)
  {
    var rest := Delete(dirs, i);
    forall k | 0 <= k < |rest|
      ensures rest[k] == dirs[Unshifted(k, i)] && rest[k] != dirs[i]
    {
      DeletedAt(dirs, i, k);
    }
  }

  /** The selected name, "" when none is. */
  function Chosen(env: ByIndex, i: int): string { if i in env then env[i] else "" }
  function Persisted(env: ByDir, d: string): string { if d in env then env[d] else "" }

  /** Rebuilding the selection from the persisted one, as a reload does, selects what is selected. */
  ghost predicate InSync(dirs: seq<string>, env: ByIndex, saved: ByDir) {
    forall i | 0 <= i < |dirs| :: Chosen(env, i) == Persisted(saved, dirs[i])
  }

  /** The persisted list without the first mention of d. */
  function Without(listed: seq<string>, d: string): seq<string> {
    if d in listed then Delete(listed, IndexIn(listed, d)) else listed
  }

  /** The persisted selection without d, unless another workspace still opens it. */
  function Forgotten(saved: ByDir, d: string, shared: bool): ByDir {
    if shared then saved else saved - {d}
  }

  /** The active index after the entry at i of n + 1 is removed: a surviving one follows its collection,
      a removed one falls back to the first. */
  function Repointed(active: int, i: int, n: nat): int {
    if active == i then if n > 0 then 0 else -1
    else if active > i then active - 1
    else active
  }

  lemma FallsBack(i: int, n: nat)
    ensures Repointed(i, i, n) == if n == 0 then -1 else 0
  {
  }

  lemma ForgottenUnlessShared(saved: ByDir, d: string, others: seq<seq<string>>)
    ensures Forgotten(saved, d, Elsewhere(others, d)) ==
            if exists l :: 0 <= l < |others| && d in others[l] then saved else saved - {d}
  {
  }

  lemma RepointedDir(dirs: seq<string>, active: int, i: nat)
    requires i < |dirs| && 0 <= active < |dirs|
    ensures |Delete(dirs, i)| == |dirs| - 1
    ensures -1 <= Repointed(active, i, |dirs| - 1) < |dirs| - 1
    ensures Repointed(active, i, |dirs| - 1) == -1 <==> |dirs| == 1
    ensures active != i ==> Delete(dirs, i)[Repointed(active, i, |dirs| - 1)] == dirs[active]
  {
  }

  predicate Elsewhere(others: seq<seq<string>>, dir: string) {
    exists l :: 0 <= l < |others| && dir in others[l]
  }

  /** What loading a directory gives. */
  type Loader = string -> Option<Collection>

  function LoadedDirs(listed: seq<string>, load: Loader): seq<string> {
    if listed == [] then []
    else
      var rest, last := LoadedDirs(listed[..|listed| - 1], load), listed[|listed| - 1];
      if load(last).None? then rest else rest + [last]
  }

  function LoadedCols(listed: seq<string>, load: Loader): seq<Collection> {
    if listed == [] then []
    else
      var rest, last := LoadedCols(listed[..|listed| - 1], load), load(listed[|listed| - 1]);
      if last.None? then rest else rest + [last.value]
  }

  lemma {:induction false} SubsequenceSkips(part: seq<string>, whole: seq<string>, d: string)
    requires Subsequence(part, whole)
    ensures Subsequence(part, whole + [d])
    decreases |whole|
  {
    if part != [] {
      assert (whole + [d])[1..] == whole[1..] + [d];
      SubsequenceSkips(if part[0] == whole[0] then part[1..] else part, whole[1..], d);
    }
  }

  class Workspace {
    var cols: seq<Collection>
    var dirs: seq<string>
    /** The persisted directory list of the active workspace, and those of the others. */
    var listed: seq<string>
    var others: seq<seq<string>>
    var activeCol: int
    var activeEnv: ByIndex
    /** The persisted selection: a collection directory and the environment of each directory. */
    var savedActive: string
    var savedEnv: ByDir

    ghost predicate Valid()
      reads this
    {
      && |cols| == |dirs| && Distinct(dirs) && Subsequence(dirs, listed)
      && -1 <= activeCol < |dirs| && (activeCol == -1 <==> dirs == [])
      && KeysInRange(activeEnv, |dirs|)
    }

    /** The environment selected for each open directory. */
    ghost function EnvOf(): ByDir
      reads this
    {
      ToDirs(dirs, activeEnv)
    }

    ghost function ActiveDir(): Option<string>
      reads this
    {
      if 0 <= activeCol < |dirs| then Some(dirs[activeCol]) else None
    }

    constructor ()
      ensures Valid() && dirs == [] && listed == [] && others == [] && activeEnv == map[] && savedEnv == map[]
    {
      cols, dirs, listed, others, activeCol := [], [], [], [], -1;
      activeEnv, savedActive, savedEnv := map[], "", map[];
    }

    /** `reload`, with what loading each directory gives. Directories that fail to load stay listed. The
        lists are in order afterwards unless some directory that loads is listed twice. */
    method Reload(load: Loader)
      modifies this
      ensures listed == old(listed) && others == old(others) && savedActive == old(savedActive) && savedEnv == old(savedEnv)
      ensures dirs == LoadedDirs(listed, load) && cols == LoadedCols(listed, load)
      ensures activeCol == if dirs == [] then -1 else if savedActive != "" && savedActive in dirs then IndexIn(dirs, savedActive) else 0
      ensures activeEnv == ToIndexes(dirs, savedEnv) && InSync(dirs, activeEnv, savedEnv)
      ensures Valid() <==> Distinct(LoadedDirs(listed, load))
    {
      hide IndexIn, Subsequence, Distinct;
      cols, dirs := [], [];
      SubsequenceSelf([]);
      for i := 0 to |listed|
        invariant listed == old(listed) && others == old(others) && savedActive == old(savedActive) && savedEnv == old(savedEnv)
        invariant dirs == LoadedDirs(listed[..i], load) && cols == LoadedCols(listed[..i], load)
        invariant |cols| == |dirs| && Subsequence(dirs, listed[..i])
      {
        assert listed[..i + 1] == listed[..i] + [listed[i]] && listed[..i + 1][..i] == listed[..i];
        SubsequenceAppend(dirs, listed[..i], listed[i]);
        SubsequenceSkips(dirs, listed[..i], listed[i]);
        var loaded := load(listed[i]);
        if loaded.None? {
          continue;
        }
        cols := cols + [loaded.value];
        dirs := dirs + [listed[i]];
      }
      assert listed[..|listed|] == listed;
      activeCol := -1;
      if |cols| > 0 {
        activeCol := 0;
        var i := IndexIn(dirs, savedActive);
        if savedActive != "" && i < |dirs| {
          activeCol := i;
        }
      }
      RekeyEnv(savedEnv);
      RekeyInRange(dirs, savedEnv);
    }

    /** `OpenCollection`; `loaded` is what loading the directory gives. */
    method OpenCollection(dir: string, loaded: Option<Collection>) returns (ok: bool)
      requires Valid()
      modifies this
      ensures Valid()
      ensures ok <==> dir in old(dirs) || loaded.Some?
      ensures ok ==> ActiveDir() == Some(dir) && savedActive == dir
      ensures !ok || dir in old(dirs) ==> cols == old(cols) && dirs == old(dirs) && listed == old(listed)
      ensures ok && dir !in old(dirs) ==>
        cols == old(cols) + [loaded.value] && dirs == old(dirs) + [dir] && listed == old(listed) + [dir]
      ensures activeEnv == old(activeEnv) && savedEnv == old(savedEnv) && EnvOf() == old(EnvOf()) && others == old(others)
      ensures ok && old(Distinct(listed)) ==> (Distinct(listed) <==> dir in old(dirs) || dir !in old(listed))
      ensures ok && old(InSync(dirs, activeEnv, savedEnv)) ==>
        (InSync(dirs, activeEnv, savedEnv) <==> dir in old(dirs) || Persisted(savedEnv, dir) == "")
    {
      hide IndexIn, Subsequence, Distinct, ToDirs, InSync;
      var i := IndexIn(dirs, dir);
      if i < |dirs| {
        activeCol, savedActive := i, dir;
        return true;
      }
      if loaded.None? {
        return false;
      }
      SubsequenceAppend(dirs, listed, dir);
      OpenedEnv(dirs, activeEnv, dir);
      if Distinct(listed) {
        ListedOnce(listed, dir);
      }
      if InSync(dirs, activeEnv, savedEnv) {
        OpenInSync(dirs, activeEnv, savedEnv, dir);
      }
      listed := listed + [dir];
      cols := cols + [loaded.value];
      dirs := dirs + [dir];
      activeCol := |cols| - 1;
      savedActive := dir;
      return true;
    }

    /** `RemoveCollection`. */
    method RemoveCollection(i: int) returns (ok: bool)
      requires Valid()
      modifies this
      ensures Valid()
      ensures ok <==> 0 <= i < old(|dirs|)
      ensures !ok ==> cols == old(cols) && dirs == old(dirs) && activeEnv == old(activeEnv) && activeCol == old(activeCol)
      ensures ok ==> cols == Delete(old(cols), i) && dirs == Delete(old(dirs), i)
      ensures ok ==> listed == Without(old(listed), old(dirs[i]))
      ensures ok ==> activeEnv == Shifted(old(activeEnv), i, |dirs|) == ToIndexes(dirs, old(EnvOf()))
      ensures ok && old(activeCol) != i ==> ActiveDir() == old(ActiveDir())
      ensures ok && old(activeCol) == i ==> activeCol == if dirs == [] then -1 else 0
      ensures ok ==> savedEnv == if exists l :: 0 <= l < |old(others)| && old(dirs[i]) in old(others)[l] then old(savedEnv)
                                 else old(savedEnv) - {old(dirs[i])}
      ensures others == old(others) && (!ok ==> listed == old(listed) && savedEnv == old(savedEnv))
      ensures savedActive == if ok && old(savedActive) == old(dirs)[i] then "" else old(savedActive)
    {
      hide IndexIn, Subsequence, Distinct, ToDirs, Delete, Shifted, ToIndexes, Elsewhere, Without, KeysInRange, Repointed, Forgotten;
      if i < 0 || i >= |dirs| {
        return false;
      }
      var dir := dirs[i];
      RemovedLists(dirs, listed, i);
      DeletedLength(cols, i);
      ShiftIsRekey(dirs, activeEnv, i);
      Unlist(dir);
      if savedActive == dir {
        savedActive := "";
      }
      var sharedElsewhere := SharedElsewhere(dir);
      savedEnv := Forgotten(savedEnv, dir, sharedElsewhere);
      cols := Delete(cols, i);
      dirs := Delete(dirs, i);
      ShiftEnv(i);
      ShiftedInRange(old(activeEnv), i, |dirs|);
      activeCol := Repointed(activeCol, i, |cols|);
      RepointedDir(old(dirs), old(activeCol), i);
      FallsBack(i, |dirs|);
      ForgottenUnlessShared(old(savedEnv), dir, others);
      return true;
    }

    method Unlist(dir: string)
      modifies this`listed
      ensures listed == Without(old(listed), dir)
    {
      var j := IndexIn(listed, dir);
      if j < |listed| {
        listed := Delete(listed, j);
      }
    }

    /** Whether another workspace lists the directory too. */
    method SharedElsewhere(dir: string) returns (shared: bool)
      ensures shared <==> Elsewhere(others, dir)
    {
      for k := 0 to |others|
        invariant forall l :: 0 <= l < k ==> dir !in others[l]
      {
        if dir in others[k] {
          return true;
        }
      }
      return false;
    }

    /** The index shift of `RemoveCollection`, after the entry at i has left `dirs`. */
    method ShiftEnv(i: int)
      requires 0 <= i <= |dirs| && KeysInRange(activeEnv, |dirs| + 1)
      modifies this`activeEnv
      ensures activeEnv == Shifted(old(activeEnv), i, |dirs|)
    {
      hide ShiftedUpTo, Shifted;
      ghost var env := activeEnv;
      ShiftStarts(env, i);
      activeEnv := activeEnv - {i};
      for j := i + 1 to |dirs| + 1
        invariant ShiftedUpTo(env, i, j, activeEnv)
      {
        ShiftStep(env, i, j, activeEnv);
        if j in activeEnv {
          activeEnv := activeEnv[j - 1 := activeEnv[j]];
          activeEnv := activeEnv - {j};
        }
      }
      ShiftEnds(env, i, |dirs|, activeEnv);
    }

    /** `MoveCollection`. */
    method MoveCollection(from: int, to: int) returns (ok: bool)
      requires Valid()
      modifies this
      ensures Valid()
      ensures var moves := 0 <= from < old(|dirs|) && 0 <= to < old(|dirs|) && from != to && old(|listed| == |dirs|);
        if moves then
          && cols == Moved(old(cols), from, to) && dirs == Moved(old(dirs), from, to) && listed == dirs
          && activeEnv == ToIndexes(dirs, old(EnvOf()))
        else cols == old(cols) && dirs == old(dirs) && listed == old(listed) && activeEnv == old(activeEnv)
      ensures 0 <= from < old(|dirs|) && 0 <= to < old(|dirs|) && old(|listed| == |dirs|) ==>
        dirs[to] == old(dirs)[from] && Delete(dirs, to) == Delete(old(dirs), from)
      ensures ActiveDir() == old(ActiveDir()) && EnvOf() == old(EnvOf()) && savedEnv == old(savedEnv) && others == old(others)
      ensures savedActive == old(savedActive)
    {
      hide IndexIn, Subsequence, Distinct, ToDirs, Moved, ToIndexes, NewIndex;
      var n := |cols|;
      if from < 0 || from >= n || to < 0 || to >= n || from == to {
        return true;
      }
      if |listed| != n {
        return false;
      }
      SubsequenceFits(dirs, listed);
      MovedDistinct(dirs, from, to);
      MovedAt(dirs, from, to, activeCol);
      MovedEnv(dirs, activeEnv, from, to);
      MovedLength(cols, from, to);
      MovedPlace(dirs, from, to);
      MovedLength(dirs, from, to);
      var envByDir := EnvByDir();
      var activeDir := dirs[activeCol];
      cols := Moved(cols, from, to);
      dirs := Moved(dirs, from, to);
      listed := Moved(listed, from, to);
      SubsequenceSelf(dirs);
      activeCol := IndexIn(dirs, activeDir);
      RekeyEnv(envByDir);
      RekeyInRange(dirs, envByDir);
      return true;
    }

    method EnvByDir() returns (byDir: ByDir)
      requires Valid()
      ensures byDir == EnvOf()
    {
      hide IndexIn, Subsequence, Distinct, ToDirs;
      LayoutsAgree(dirs, activeEnv);
      DirsOnly(dirs, activeEnv);
      byDir := map[];
      for i := 0 to |dirs|
        invariant forall d <- byDir :: d in EnvOf() && byDir[d] == EnvOf()[d]
        invariant forall k :: 0 <= k < i && dirs[k] in EnvOf() ==> dirs[k] in byDir
      {
        if i in activeEnv {
          byDir := byDir[dirs[i] := activeEnv[i]];
        }
      }
      assert forall d <- EnvOf() :: d in byDir;
    }

    method RekeyEnv(byDir: ByDir)
      modifies this`activeEnv
      ensures activeEnv == ToIndexes(dirs, byDir)
    {
      activeEnv := map[];
      for i := 0 to |dirs|
        invariant activeEnv == map k | 0 <= k < i && dirs[k] in byDir :: byDir[dirs[k]]
      {
        if dirs[i] in byDir {
          activeEnv := activeEnv[i := byDir[dirs[i]]];
        }
      }
    }

    /** `SetActiveEnv`. */
    method SetActiveEnv(name: string)
      requires Valid()
      modifies this
      ensures Valid() && cols == old(cols) && dirs == old(dirs) && listed == old(listed) && activeCol == old(activeCol)
      ensures others == old(others) && savedActive == old(savedActive)
      ensures savedEnv == if activeCol < 0 then old(savedEnv)
                          else if name == "" then old(savedEnv) - {dirs[activeCol]} else old(savedEnv)[dirs[activeCol] := name]
      ensures activeEnv == if activeCol < 0 then old(activeEnv) else old(activeEnv)[activeCol := name]
      ensures old(InSync(dirs, activeEnv, savedEnv)) ==> InSync(dirs, activeEnv, savedEnv)
    {
      hide Subsequence;
      if activeCol < 0 || activeCol >= |dirs| {
        return;
      }
      activeEnv := activeEnv[activeCol := name];
      var dir := dirs[activeCol];
      if name == "" {
        savedEnv := savedEnv - {dir};
      } else {
        savedEnv := savedEnv[dir := name];
      }
    }
  }

  lemma DirsOnly(dirs: seq<string>, env: ByIndex)
    ensures forall d <- ToDirs(dirs, env) :: exists i :: 0 <= i < |dirs| && dirs[i] == d
  {
  }

  lemma MovedLength<T>(xs: seq<T>, from: nat, to: nat)
    requires from < |xs| && to < |xs|
    ensures |Moved(xs, from, to)| == |xs|
  {
  }

  lemma MovedPlace<T>(xs: seq<T>, from: nat, to: nat)
    requires from < |xs| && to < |xs|
    ensures |Moved(xs, from, to)| == |xs|
    ensures Moved(xs, from, to)[to] == xs[from] && Delete(Moved(xs, from, to), to) == Delete(xs, from)
  {
  }

  lemma RekeyInRange(dirs: seq<string>, byDir: ByDir)
    ensures KeysInRange(ToIndexes(dirs, byDir), |dirs|)
  {
  }

  lemma ShiftedInRange(env: ByIndex, i: int, n: nat)
    ensures KeysInRange(Shifted(env, i, n), n)
  {
  }

  /** Positions k of `env` and l of `env0` hold the same. */
  predicate SameAt(env: ByIndex, k: int, env0: ByIndex, l: int) {
    (k in env <==> l in env0) && (k in env && l in env0 ==> env[k] == env0[l])
  }

  /** Position k of `env` holds what the next position of `env0` held. */
  predicate ShiftedAt(env: ByIndex, k: int, env0: ByIndex) { SameAt(env, k, env0, k + 1) }

  /** The shift with the entries from j on still to be moved. */
  ghost predicate ShiftedUpTo(env0: ByIndex, i: int, j: int, env: ByIndex) {
    && (forall k :: k < i || k >= j ==> SameAt(env, k, env0, k))
    && (forall k :: i <= k < j - 1 ==> ShiftedAt(env, k, env0))
    && j - 1 !in env
  }

  lemma ShiftStarts(env: ByIndex, i: int)
    ensures ShiftedUpTo(env, i, i + 1, env - {i})
  {
  }

  lemma ShiftStep(env0: ByIndex, i: int, j: int, env: ByIndex)
    requires i < j && ShiftedUpTo(env0, i, j, env)
    ensures ShiftedUpTo(env0, i, j + 1, if j in env then env[j - 1 := env[j]] - {j} else env)
  {
    assert SameAt(env, j, env0, j);
    var next := if j in env then env[j - 1 := env[j]] - {j} else env;
    forall k | k < i || k >= j + 1
      ensures SameAt(next, k, env0, k)
    {
      assert SameAt(env, k, env0, k);
    }
    forall k | i <= k < j
      ensures ShiftedAt(next, k, env0)
    {
      if k < j - 1 {
        assert ShiftedAt(env, k, env0);
      }
    }
  }

  lemma ShiftEnds(env0: ByIndex, i: int, n: nat, env: ByIndex)
    requires 0 <= i <= n && KeysInRange(env0, n + 1) && ShiftedUpTo(env0, i, n + 1, env)
    ensures env == Shifted(env0, i, n)
  {
    forall k
      ensures k in env ==> 0 <= k < n && SameAt(env, k, env0, Unshifted(k, i))
      ensures 0 <= k < n ==> SameAt(env, k, env0, Unshifted(k, i))
    {
      if k < i || k >= n + 1 {
        assert SameAt(env, k, env0, k);
      } else if k < n {
        assert ShiftedAt(env, k, env0);
      }
    }
  }

  lemma OpenedEnv(dirs: seq<string>, env: ByIndex, dir: string)
    requires Distinct(dirs) && KeysInRange(env, |dirs|) && dir !in dirs
    ensures ToDirs(dirs + [dir], env) == ToDirs(dirs, env) && Distinct(dirs + [dir])
  {
    var more := dirs + [dir];
    forall i | 0 <= i < |more|
      ensures IndexIn(more, more[i]) == i
    {
      assert forall k :: 0 <= k < |dirs| ==> more[k] == dirs[k] && dirs[k] in dirs;
    }
    forall d <- dirs
      ensures IndexIn(more, d) == IndexIn(dirs, d)
    {
      var i := IndexIn(dirs, d);
      assert more[i] == d;
    }
  }

  /** What removal leaves is still distinct, and still the persisted list less what failed to load. */
  lemma RemovedLists(dirs: seq<string>, listed: seq<string>, i: nat)
    requires Distinct(dirs) && Subsequence(dirs, listed) && i < |dirs|
    ensures Distinct(Delete(dirs, i)) && |Delete(dirs, i)| == |dirs| - 1
    ensures Subsequence(Delete(dirs, i), Without(listed, dirs[i]))
  {
    hide IndexIn, Subsequence, Distinct;
    DeleteDistinct(dirs, i);
    ListedHolds(dirs, listed, i);
    SubsequenceDrops(dirs, listed, i);
    SubsequenceWithout(Delete(dirs, i), listed, dirs[i]);
  }

  lemma {:induction false} ListedHolds(dirs: seq<string>, listed: seq<string>, i: nat)
    requires Subsequence(dirs, listed) && i < |dirs|
    ensures dirs[i] in listed
    decreases |listed|
  {
    if dirs[0] != listed[0] {
      ListedHolds(dirs, listed[1..], i);
    } else if i > 0 {
      ListedHolds(dirs[1..], listed[1..], i - 1);
    }
  }

  lemma {:induction false} SubsequenceSelf(dirs: seq<string>)
    ensures Subsequence(dirs, dirs)
  {
    if dirs != [] {
      SubsequenceSelf(dirs[1..]);
    }
  }

  /** Laying the selection out by the new positions keeps it by directory. */
  lemma MovedEnv(dirs: seq<string>, env: ByIndex, from: nat, to: nat)
    requires Distinct(dirs) && KeysInRange(env, |dirs|) && from < |dirs| && to < |dirs|
    ensures var after := Moved(dirs, from, to);
            ToDirs(after, ToIndexes(after, ToDirs(dirs, env))) == ToDirs(dirs, env)
  {
    hide Moved;
    MovedDistinct(dirs, from, to);
  }

  // ----- agreement with a reload -----

  /** Removing a collection keeps the selection what a reload would make it, whether or not the removed
      directory's persisted choice is dropped. */
  lemma RemoveInSync(dirs: seq<string>, env: ByIndex, saved: ByDir, i: nat, shared: bool)
    requires Distinct(dirs) && i < |dirs| && InSync(dirs, env, saved)
    ensures InSync(Delete(dirs, i), Shifted(env, i, |dirs| - 1), Forgotten(saved, dirs[i], shared))
  {
    DeleteDistinct(dirs, i);
    forall j | 0 <= j < |dirs| - 1
      ensures Delete(dirs, i)[j] == dirs[Unshifted(j, i)] != dirs[i]
    {
      DeletedAt(dirs, i, j);
    }
  }

  /** So does reordering. */
  lemma MoveInSync(dirs: seq<string>, env: ByIndex, saved: ByDir, from: nat, to: nat)
    requires Distinct(dirs) && KeysInRange(env, |dirs|) && from < |dirs| && to < |dirs| && InSync(dirs, env, saved)
    ensures InSync(Moved(dirs, from, to), ToIndexes(Moved(dirs, from, to), ToDirs(dirs, env)), saved)
  {
    hide Moved, IndexIn, ToDirs, Distinct;
    LayoutsAgree(dirs, env);
    MovedDistinct(dirs, from, to);
    var after := Moved(dirs, from, to);
    forall i | 0 <= i < |after|
      ensures Chosen(ToIndexes(after, ToDirs(dirs, env)), i) == Persisted(saved, after[i])
    {
      assert after[i] in after;
      var k :| 0 <= k < |dirs| && dirs[k] == after[i];
      assert Chosen(env, k) == Persisted(saved, dirs[k]);
    }
  }

  lemma OpenInSync(dirs: seq<string>, env: ByIndex, saved: ByDir, dir: string)
    requires KeysInRange(env, |dirs|) && InSync(dirs, env, saved)
    ensures InSync(dirs + [dir], env, saved) <==> Persisted(saved, dir) == ""
  {
    var more := dirs + [dir];
    assert more[|dirs|] == dir && Chosen(env, |dirs|) == "";
    assert forall i :: 0 <= i < |dirs| ==> more[i] == dirs[i];
  }

  lemma ListedOnce(listed: seq<string>, dir: string)
    requires Distinct(listed)
    ensures Distinct(listed + [dir]) <==> dir !in listed
  {
    if dir in listed {
      var i :| 0 <= i < |listed| && listed[i] == dir;
      assert (listed + [dir])[i] == (listed + [dir])[|listed|];
    }
  }

  // ----- runs on which opening goes wrong -----

  /** A directory that fails one reload and is then opened again is listed twice, and the next reload opens
      it twice: two collections in memory over the same files, which `OpenCollection` is there to prevent. */
  method OpenedTwice(dir: string, c: Collection) returns (w: Workspace)
    ensures fresh(w) && w.listed == [dir, dir] && w.dirs == [dir, dir] && w.cols == [c, c] && !w.Valid()
  {
    hide IndexIn, Subsequence, ToDirs, InSync, ToIndexes, LoadedDirs, LoadedCols, KeysInRange, Distinct;
    w := new Workspace();
    var ok := w.OpenCollection(dir, Some(c));
    var fails: Loader := d => None;
    var loads: Loader := d => Some(c);
    NoneDistinct();
    LoadsOf([dir], fails);
    assert w.listed == [dir];
    w.Reload(fails);
    assert w.dirs == [] && w.Valid();
    ok := w.OpenCollection(dir, Some(c));
    assert w.listed == [dir, dir];
    LoadsOf([dir, dir], loads);
    w.Reload(loads);
    TwiceNotDistinct(dir);
  }

  lemma NoneDistinct()
    ensures Distinct([])
  {
  }

  lemma TwiceNotDistinct(dir: string)
    ensures !Distinct([dir, dir])
  {
    assert [dir, dir][0] == [dir, dir][1];
  }

  lemma LoadsOf(listed: seq<string>, load: Loader)
    requires 1 <= |listed| <= 2
    ensures |listed| == 1 && load(listed[0]).None? ==> LoadedDirs(listed, load) == [] && LoadedCols(listed, load) == []
    ensures |listed| == 2 && load(listed[0]).Some? && load(listed[1]).Some? ==>
      LoadedDirs(listed, load) == listed && LoadedCols(listed, load) == [load(listed[0]).value, load(listed[1]).value]
  {
    var head := listed[..|listed| - 1];
    assert LoadedDirs([], load) == [] && LoadedCols([], load) == [];
    if |listed| == 1 {
      assert head == [];
    } else {
      assert head == [listed[0]] && head[..0] == [];
      assert listed == [listed[0], listed[1]];
    }
  }

  /** A directory is opened, gets an environment selected, and fails the next reload. */
  method SelectedThenFailed(dir: string, c: Collection) returns (w: Workspace)
    ensures fresh(w) && w.Valid() && w.dirs == [] && w.listed == [dir] && w.activeEnv == map[] && w.savedEnv == map[dir := "prod"]
  {
    hide IndexIn, Subsequence, ToDirs, InSync, ToIndexes, Distinct, LoadedDirs, LoadedCols, KeysInRange;
    w := new Workspace();
    var ok := w.OpenCollection(dir, Some(c));
    assert w.dirs == [dir] && w.activeCol == 0;
    w.SetActiveEnv("prod");
    assert w.savedEnv == map[dir := "prod"];
    var fails: Loader := d => None;
    NoneDistinct();
    LoadsOf([dir], fails);
    assert w.listed == [dir];
    w.Reload(fails);
    NothingChosen(w.dirs, w.savedEnv);
  }

  /** Opened again, it has no environment, until the next reload finds the one persisted. */
  method OpenedWithoutEnv(dir: string, c: Collection) returns (w: Workspace, atFirst: string)
    ensures fresh(w) && w.savedEnv == map[dir := "prod"] && w.dirs == [dir, dir]
    ensures atFirst == "" && Chosen(w.activeEnv, 0) == "prod"
  {
    hide IndexIn, Subsequence, ToDirs, InSync, ToIndexes, Distinct, LoadedDirs, LoadedCols, KeysInRange;
    w := SelectedThenFailed(dir, c);
    var ok := w.OpenCollection(dir, Some(c));
    atFirst := Chosen(w.activeEnv, 0);
    assert w.listed == [dir, dir];
    var loads: Loader := d => Some(c);
    LoadsOf([dir, dir], loads);
    w.Reload(loads);
    SyncedAt(w.dirs, w.activeEnv, w.savedEnv);
  }

  lemma NothingChosen(dirs: seq<string>, saved: ByDir)
    requires dirs == []
    ensures ToIndexes(dirs, saved) == map[]
  {
  }

  lemma SyncedAt(dirs: seq<string>, env: ByIndex, saved: ByDir)
    requires InSync(dirs, env, saved) && dirs != []
    ensures Chosen(env, 0) == Persisted(saved, dirs[0])
  {
  }
}
