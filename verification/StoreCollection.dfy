/** `Save` and `Load` of `internal/storage/store.go` on a whole collection: the root file, the
    environments, the items and the externalized secrets together. */
module StoreCollection {
  import opened Text
  import opened Model
  import opened OpenCollection
  import opened FileNames
  import opened Listing
  import opened Store
  import opened StoreLoad
  import opened StoreRoundTrip
  import opened Secrets
  import opened SecretSplit

  // ----- environments -----

  function EnvBases(es: seq<Environment>): (bases: seq<string>)
    ensures |bases| == |es|
  {
    seq(|es|, i requires 0 <= i < |es| => Slug(es[i].name, "env-" + Itoa(i + 1)))
  }

  function EnvNames(es: seq<Environment>): (names: seq<string>)
    ensures |names| == |es|
  {
    NamesFor(EnvBases(es), {}, |es|)
  }

  function EnvKeys(es: seq<Environment>): (keys: seq<string>)
    ensures |keys| == |es|
  {
    seq(|es|, i requires 0 <= i < |es| => EnvNames(es)[i] + YML)
  }

  lemma EnvKeysDistinct(es: seq<Environment>)
    ensures forall i, j :: 0 <= i < j < |es| ==> EnvKeys(es)[i] != EnvKeys(es)[j]
    ensures forall k <- EnvKeys(es) :: HasSuffix(k, YML)
  {
    hide NamesFor;
    WordsAreSlugs();
    forall i | 0 <= i < |es|
      ensures IsSlug(EnvBases(es)[i])
    {
      NumberedIsSlug("env", i + 1);
      SlugIsSlug(es[i].name, "env-" + Itoa(i + 1));
    }
    NamesForFresh(EnvBases(es), {}, |es|);
    forall i, j | 0 <= i < j < |es|
      ensures EnvKeys(es)[i] != EnvKeys(es)[j]
    {
      if EnvKeys(es)[i] == EnvKeys(es)[j] {
        YmlInjective(EnvNames(es)[i], EnvNames(es)[j]);
      }
    }
  }

  function SavedEnv(e: Environment, seqNo: int, prev: Option<EnvironmentFile>): EnvironmentFile {
    var f := EnvironmentFile(FreshInfo(e.name, "", "environment", seqNo), VarRowsOf(e.variables), map[]);
    if prev.None? then f
    else f.(extra := prev.value.extra, info := f.info.(extra := prev.value.info.extra))
  }

  function PriorEnv(dir: map<string, Entry>, key: string): Option<EnvironmentFile> {
    if key in dir && dir[key].File? then dir[key].content.environment else None
  }

  function EnvEntry(f: EnvironmentFile): Entry { File(Content(None, None, None, Some(f))) }

  ghost predicate EnvPut(dir: map<string, Entry>, es: seq<Environment>, i: nat, now: map<string, Entry>)
    requires i < |es|
  {
    var k := EnvKeys(es)[i];
    k in now && now[k] == EnvEntry(SavedEnv(es[i], i + 1, PriorEnv(dir, k)))
  }

  /** Each environment in its own file, and no other YAML file or collection folder left. */
  ghost predicate EnvsSaved(dir: map<string, Entry>, es: seq<Environment>, after: map<string, Entry>) {
    && (forall i | 0 <= i < |es| :: EnvPut(dir, es, i, after))
    && (forall k | k !in EnvKeys(es) :: k in after <==> k in dir && !Sweepable(k, dir[k]))
    && (forall k | k !in EnvKeys(es) && k in after :: k in dir && after[k] == dir[k])
  }

  ghost predicate EnvClash(dir: map<string, Entry>, es: seq<Environment>) {
    exists i :: 0 <= i < |es| && EnvKeys(es)[i] in dir && dir[EnvKeys(es)[i]].Dir?
  }

  ghost predicate EnvStaged(dir: map<string, Entry>, es: seq<Environment>, n: nat, now: map<string, Entry>)
    requires n <= |es|
  {
    && (forall i | 0 <= i < n :: EnvPut(dir, es, i, now))
    && (forall k | k !in EnvKeys(es)[..n] :: k in now <==> k in dir)
    && (forall k | k !in EnvKeys(es)[..n] && k in now :: now[k] == dir[k])
  }

  lemma EnvStageStep(dir: map<string, Entry>, es: seq<Environment>, n: nat, now: map<string, Entry>)
    requires n < |es| && EnvStaged(dir, es, n, now)
    ensures var k := EnvKeys(es)[n];
            && (k in now <==> k in dir) && (k in now ==> now[k] == dir[k])
            && EnvStaged(dir, es, n + 1, now[k := EnvEntry(SavedEnv(es[n], n + 1, PriorEnv(dir, k)))])
  {
    hide EnvKeys, SavedEnv, PriorEnv;
    EnvKeysDistinct(es);
    var k := EnvKeys(es)[n];
    assert EnvKeys(es)[..n + 1] == EnvKeys(es)[..n] + [k];
    assert k !in EnvKeys(es)[..n];
    var next := now[k := EnvEntry(SavedEnv(es[n], n + 1, PriorEnv(dir, k)))];
    forall i | 0 <= i < n + 1
      ensures EnvPut(dir, es, i, next)
    {
      if i < n {
        assert EnvPut(dir, es, i, now);
        assert EnvKeys(es)[i] != k;
      }
    }
  }

  method WriteEnv(dir: map<string, Entry>, key: string, e: Environment, seqNo: int, ghost prev: Option<EnvironmentFile>)
    returns (ok: bool, after: map<string, Entry>)
    requires PriorEnv(dir, key) == prev
    ensures ok <==> !(key in dir && dir[key].Dir?)
    ensures ok ==> after == dir[key := EnvEntry(SavedEnv(e, seqNo, prev))]
  {
    var vars := VarsToFile(e.variables);
    var f := EnvironmentFile(FreshInfo(e.name, "", "environment", seqNo), vars, map[]);
    if key in dir {
      match dir[key]
      case Dir(_) =>
        return false, dir;
      case File(content) =>
        if content.environment.Some? {
          f := f.(extra := content.environment.value.extra, info := f.info.(extra := content.environment.value.info.extra));
        }
    }
    return true, dir[key := EnvEntry(f)];
  }

  /** The environment part of `saveInPlace`, on the environments directory. */
  method SaveEnvironments(dir: map<string, Entry>, es: seq<Environment>) returns (ok: bool, after: map<string, Entry>)
    ensures ok <==> !EnvClash(dir, es)
    ensures ok ==> EnvsSaved(dir, es, after)
  {
    hide NamesFor, FreshName, Slug, EnvStaged, EnvsSaved, SavedEnv, EnvKeys, EnvNames;
    var used: set<string>, keep: set<string> := {}, {};
    after := dir;
    EnvStageStart(dir, es);
    for i := 0 to |es|
      invariant used == Elems(NamesFor(EnvBases(es), {}, i))
      invariant keep == Elems(EnvKeys(es)[..i])
      invariant EnvStaged(dir, es, i, after)
      invariant forall n :: 0 <= n < i ==> !(EnvKeys(es)[n] in dir && dir[EnvKeys(es)[n]].Dir?)
    {
      var name;
      EnvNameTaken(es, i);
      EnvKeyIs(es, i);
      name, used := UniqueName(Slug(es[i].name, "env-" + Itoa(i + 1)), used);
      var key := name + YML;
      keep := keep + {key};
      EnvStageStep(dir, es, i, after);
      ok, after := WriteEnv(after, key, es[i], i + 1, PriorEnv(dir, key));
      if !ok {
        return;
      }
    }
    ok := true;
    EnvSweepFinishes(dir, es, after);
    after := SweepDir(after, keep);
  }

  lemma EnvStageStart(dir: map<string, Entry>, es: seq<Environment>)
    ensures EnvStaged(dir, es, 0, dir)
    ensures Elems(NamesFor(EnvBases(es), {}, 0)) == {} == Elems(EnvKeys(es)[..0])
  {
  }

  lemma EnvNameTaken(es: seq<Environment>, n: nat)
    requires n < |es|
    ensures EnvNames(es)[n] == FreshName(EnvBases(es)[n], Elems(NamesFor(EnvBases(es), {}, n)))
    ensures Elems(NamesFor(EnvBases(es), {}, n)) + {EnvNames(es)[n]} == Elems(NamesFor(EnvBases(es), {}, n + 1))
  {
    hide NamesFor, FreshName, EnvBases;
    NamesForStep(EnvBases(es), {}, n);
    assert {} + Elems(NamesFor(EnvBases(es), {}, n)) == Elems(NamesFor(EnvBases(es), {}, n));
  }

  lemma EnvKeyIs(es: seq<Environment>, n: nat)
    requires n < |es|
    ensures EnvKeys(es)[n] == EnvNames(es)[n] + YML
    ensures Elems(EnvKeys(es)[..n + 1]) == Elems(EnvKeys(es)[..n]) + {EnvKeys(es)[n]}
  {
    hide EnvNames;
    assert EnvKeys(es)[..n + 1] == EnvKeys(es)[..n] + [EnvKeys(es)[n]];
  }

  lemma EnvSweepFinishes(dir: map<string, Entry>, es: seq<Environment>, now: map<string, Entry>)
    requires EnvStaged(dir, es, |es|, now)
    ensures EnvsSaved(dir, es, Swept(now, Elems(EnvKeys(es)[..|es|])))
  {
    hide EnvKeys, SavedEnv, PriorEnv;
    assert EnvKeys(es)[..|es|] == EnvKeys(es);
    var after := Swept(now, Elems(EnvKeys(es)));
    forall i | 0 <= i < |es|
      ensures EnvPut(dir, es, i, after)
    {
      assert EnvPut(dir, es, i, now);
      assert EnvKeys(es)[i] in EnvKeys(es);
    }
  }

  // ----- loading environments -----

  predicate IsEnvPath(dir: map<string, Entry>, k: string) {
    k in dir && dir[k].File? && HasSuffix(k, YML)
  }

  function EnvPaths(dir: map<string, Entry>): set<string> { set k | k in dir && IsEnvPath(dir, k) }

  ghost predicate EnvsUnreadable(dir: map<string, Entry>) {
    exists k :: IsEnvPath(dir, k) && dir[k].content.environment.None?
  }

  predicate EnvRead(dir: map<string, Entry>, k: string, e: Environment) {
    && IsEnvPath(dir, k) && dir[k].content.environment.Some?
    && var f := dir[k].content.environment.value;
    e.name == f.info.name && e.variables == VariablesOf(f.vars)
  }

  function EnvSeq(dir: map<string, Entry>, k: string): int {
    if IsEnvPath(dir, k) && dir[k].content.environment.Some? then dir[k].content.environment.value.info.seqNo else 0
  }

  ghost predicate EnvsLoadedFrom(dir: map<string, Entry>, es: seq<Environment>, en: seq<string>) {
    && Lists(en, EnvPaths(dir)) && |en| == |es|
    && (forall i | 0 <= i < |en| :: EnvRead(dir, en[i], es[i]))
    && (forall i, k | 0 <= i < k < |en| :: EnvSeq(dir, en[i]) <= EnvSeq(dir, en[k]))
  }

  ghost predicate EnvsLoaded(dir: map<string, Entry>, es: seq<Environment>) {
    exists en: seq<string> :: EnvsLoadedFrom(dir, es, en)
  }

  ghost predicate EnvsFrom(dir: map<string, Entry>, xs: seq<Numbered<Environment>>) {
    forall x <- xs :: EnvRead(dir, x.name, x.value) && x.seqNo == EnvSeq(dir, x.name)
  }

  /** `loadEnvironments` on a directory that exists. */
  method LoadEnvironments(dir: map<string, Entry>) returns (ok: bool, es: seq<Environment>)
    ensures ok <==> !EnvsUnreadable(dir)
    ensures ok ==> EnvsLoaded(dir, es)
  {
    hide Picked, NamesOf, Lists, Values, EnvsLoaded;
    var entries := ReadDir(dir);
    ListsEach(entries, dir.Keys);
    es := [];
    var collected: seq<Numbered<Environment>> := [];
    assert NamesOf(collected) == Picked([], EnvPaths(dir)) by {
      NoEnvPicked(dir);
    }
    for i := 0 to |entries|
      invariant EnvsFrom(dir, collected)
      invariant NamesOf(collected) == Picked(entries[..i], EnvPaths(dir))
      invariant forall n :: 0 <= n < i && IsEnvPath(dir, entries[n]) ==> dir[entries[n]].content.environment.Some?
    {
      var name := entries[i];
      assert name in entries && entries[..i + 1] == entries[..i] + [name];
      ExtendPicked(entries[..i], name, EnvPaths(dir));
      if dir[name].Dir? || !HasSuffix(name, YML) {
        continue;
      }
      var file := dir[name].content.environment;
      if file.None? {
        return false, [];
      }
      var id := NewID();
      var vars := FileToVars(file.value.vars);
      var x := Numbered(file.value.info.seqNo, name, Environment(id, file.value.info.name, vars));
      ExtendNames(collected, x);
      collected := collected + [x];
    }
    assert entries[..|entries|] == entries;
    PickedLists(entries, dir.Keys, EnvPaths(dir));
    var ordered := SortStable(collected);
    es := ValuesOf(ordered);
    EnvsLoadedOnceSorted(dir, collected, ordered);
    ok := true;
  }

  lemma NoEnvPicked(dir: map<string, Entry>)
    ensures NamesOf<Environment>([]) == Picked([], EnvPaths(dir))
  {
  }

  lemma EnvsLoadedOnceSorted(dir: map<string, Entry>, xs: seq<Numbered<Environment>>, ys: seq<Numbered<Environment>>)
    requires EnvsFrom(dir, xs) && SortedForm(xs, ys) && Lists(NamesOf(xs), EnvPaths(dir))
    ensures EnvsLoaded(dir, Values(ys))
  {
    hide EnvRead, EnvSeq, WithSeq;
    SameMembers(xs, ys);
    assert forall i :: 0 <= i < |ys| ==> ys[i] in ys;
    assert EnvsLoadedFrom(dir, Values(ys), NamesOf(ys));
  }

  ghost predicate EnvsRestored(was: seq<Environment>, now: seq<Environment>) {
    && |now| == |was|
    && forall i | 0 <= i < |was| :: now[i].name == was[i].name && now[i].variables == was[i].variables
  }

  function EnvNumbers(dir: map<string, Entry>): map<string, int> {
    map k | k in EnvPaths(dir) :: EnvSeq(dir, k)
  }

  lemma EnvPathsAre(dir: map<string, Entry>, es: seq<Environment>, after: map<string, Entry>)
    requires EnvsSaved(dir, es, after)
    ensures EnvPaths(after) == set k <- EnvKeys(es)
    ensures forall i :: 0 <= i < |es| ==> EnvSeq(after, EnvKeys(es)[i]) == i + 1
    ensures forall i :: 0 <= i < |es| ==> IsEnvPath(after, EnvKeys(es)[i])
    ensures forall i, e :: 0 <= i < |es| && EnvRead(after, EnvKeys(es)[i], e) ==> e.name == es[i].name && e.variables == es[i].variables
    ensures !EnvsUnreadable(after)
  {
    hide EnvKeys, HasSuffix;
    EnvKeysDistinct(es);
    forall i | 0 <= i < |es|
      ensures IsEnvPath(after, EnvKeys(es)[i]) && EnvSeq(after, EnvKeys(es)[i]) == i + 1
      ensures after[EnvKeys(es)[i]].content.environment.Some?
      ensures forall e :: EnvRead(after, EnvKeys(es)[i], e) ==> e.name == es[i].name && e.variables == es[i].variables
    {
      assert EnvPut(dir, es, i, after);
      assert EnvKeys(es)[i] in EnvKeys(es);
      VarsRoundTrip(es[i].variables);
    }
    forall k | IsEnvPath(after, k)
      ensures k in EnvKeys(es) && after[k].content.environment.Some?
    {
    }
  }

  /** Environments come back in order with their names and variables, whatever the directory held. */
  lemma EnvsSaveThenLoad(dir: map<string, Entry>, es: seq<Environment>, after: map<string, Entry>, loaded: seq<Environment>)
    requires EnvsSaved(dir, es, after) && EnvsLoaded(after, loaded)
    ensures EnvsRestored(es, loaded)
  {
    hide EnvKeys, EnvsSaved, Lists, EnvRead, EnvSeq, EnvPaths;
    var en :| EnvsLoadedFrom(after, loaded, en);
    EnvPathsAre(dir, es, after);
    EnvKeysDistinct(es);
    DistinctLists(EnvKeys(es));
    ListsEach(en, EnvPaths(after));
    SortingRestores(en, EnvKeys(es), EnvPaths(after), EnvNumbers(after));
  }
}
