/** The stage-and-swap commit of `Save` in `internal/storage/store.go`, with every file-system operation
    allowed to fail. Each operation records the states the disk passes through, so what holds at every
    step can be stated of the whole run. */
module SaveSwap {
  import opened Text
  import opened Model
  import opened Store
  import opened StoreLoad
  import opened StoreRoundTrip
  import opened SecretSplit
  import opened SaveLoad

  /** What the three paths `dir`, `dir.helena-save` and `dir.helena-old` hold. */
  datatype Snapshot = Snapshot(live: Option<Entry>, staging: Option<Entry>, aside: Option<Entry>)

  /** The live path holds the original or the staged tree, or nothing while the original is aside. */
  predicate Safe(s: Snapshot, original: Option<Entry>, staged: Option<Entry>) {
    || s.live == original
    || (staged.Some? && s.live == staged)
    || (s.live.None? && s.aside == original)
  }

  ghost predicate AllSafe(states: seq<Snapshot>, original: Option<Entry>, staged: Option<Entry>) {
    forall s <- states :: Safe(s, original, staged)
  }

  /** A rename needs a source, and replaces nothing but an empty directory or, for a file, a file. */
  predicate CanRename(src: Option<Entry>, dst: Option<Entry>) {
    && src.Some?
    && match dst
       case None => true
       case Some(Dir(entries)) => src.value.Dir? && entries == map[]
       case Some(File(_)) => src.value.File?
  }

  class Disk {
    var live: Option<Entry>
    var staging: Option<Entry>
    var aside: Option<Entry>
    /** What the live path held when the running save began, what it has staged, and the states the
        disk has been in since. */
    ghost var original: Option<Entry>
    ghost var staged: Option<Entry>
    ghost var trace: seq<Snapshot>
    /** Some operation whose error `Save` reports has failed since. */
    ghost var failed: bool
    /** The rollback rename has failed since. */
    ghost var stranded: bool

    ghost function Now(): Snapshot
      reads this
    {
      Snapshot(live, staging, aside)
    }

    ghost predicate AlwaysSafe()
      reads this
    {
      AllSafe(trace, original, staged)
    }

    ghost method Record()
      requires AlwaysSafe() && Safe(Now(), original, staged)
      modifies this`trace
      ensures AlwaysSafe() && trace == old(trace) + [Now()]
    {
      trace := trace + [Now()];
    }

    /** Work on the staging path alone: any number of intermediate contents, then any content. */
    method ChurnStaging()
      requires AlwaysSafe() && Safe(Now(), original, staged)
      modifies this`staging, this`trace
      ensures AlwaysSafe() && old(trace) <= trace
    {
      var steps: nat :| true;
      for i := 0 to steps
        invariant AlwaysSafe() && old(trace) <= trace
      {
        staging := *;
        Record();
      }
    }

    /** `os.RemoveAll(tmp)`: on failure any part of the tree may be left. */
    method RemoveStaging() returns (ok: bool)
      requires AlwaysSafe() && Safe(Now(), original, staged)
      modifies this`staging, this`trace
      ensures AlwaysSafe() && old(trace) <= trace
      ensures ok ==> staging.None?
    {
      ChurnStaging();
      ok := *;
      if ok {
        staging := None;
        Record();
      }
    }

    /** `os.RemoveAll(old)`, called only while the live path is in order. */
    method RemoveAside() returns (ok: bool)
      requires AlwaysSafe()
      requires live == original || (staged.Some? && live == staged)
      modifies this`aside, this`trace
      ensures AlwaysSafe() && old(trace) <= trace
      ensures ok ==> aside.None?
    {
      var steps: nat :| true;
      for i := 0 to steps
        invariant AlwaysSafe() && old(trace) <= trace
      {
        aside := *;
        Record();
      }
      ok := *;
      if ok {
        aside := None;
        Record();
      }
    }

    /** `os.Stat`, which may also fail on a directory. */
    method IsDirectory() returns (yes: bool)
      ensures yes ==> live.Some? && live.value.Dir?
    {
      yes := *;
      yes := yes && live.Some? && live.value.Dir?;
    }

    /** `copyTree(dir, tmp)`; what copying over leftovers gives is left open. */
    method CopyToStaging() returns (ok: bool)
      requires AlwaysSafe() && live == original
      requires live.Some? && live.value.Dir?
      modifies this`staging, this`trace, this`failed
      ensures AlwaysSafe() && old(trace) <= trace
      ensures ok ==> staging.Some? && staging.value.Dir?
      ensures ok && old(staging).None? ==> staging == live
      ensures failed == (old(failed) || !ok)
    {
      var empty := staging.None?;
      ChurnStaging();
      ok := *;
      if ok {
        if empty {
          staging := live;
        } else {
          var leftovers: map<string, Entry> := *;
          staging := Some(Dir(leftovers));
        }
        Record();
      }
      failed := failed || !ok;
    }

    /** `os.MkdirAll(tmp)`. */
    method MakeStaging() returns (ok: bool)
      requires AlwaysSafe() && live == original
      modifies this`staging, this`trace, this`failed
      ensures AlwaysSafe() && old(trace) <= trace
      ensures ok ==> staging.Some? && staging.value.Dir?
      ensures ok && old(staging).None? ==> staging == Some(Dir(map[]))
      ensures failed == (old(failed) || !ok)
    {
      ok := *;
      ok := ok && (staging.None? || staging.value.Dir?);
      if ok && staging.None? {
        staging := Some(Dir(map[]));
      }
      Record();
      failed := failed || !ok;
    }

    /** `saveInPlace(c, tmp)`: it may fail for its own reasons, or at any write. */
    method SaveStaged(c: Collection) returns (ok: bool)
      requires AlwaysSafe() && live == original
      requires staging.Some? && staging.value.Dir?
      modifies this`staging, this`trace, this`failed
      ensures AlwaysSafe() && old(trace) <= trace
      ensures ok ==> staging.Some? && staging.value.Dir?
      ensures ok ==> CollectionSaved(old(staging).value.entries, c, staging.value.entries)
      ensures failed == (old(failed) || !ok)
    {
      hide CollectionSaved;
      var done, after := SaveInPlace(staging.value.entries, c);
      ChurnStaging();
      ok := *;
      ok := ok && done;
      if ok {
        staging := Some(Dir(after));
        Record();
      }
      failed := failed || !ok;
    }

    method RenameLiveAside() returns (ok: bool)
      requires AlwaysSafe() && live == original
      modifies this`live, this`aside, this`trace, this`failed
      ensures AlwaysSafe() && old(trace) <= trace
      ensures ok ==> live.None? && aside == original
      ensures !ok ==> live == original && aside == old(aside)
      ensures failed == (old(failed) || !ok)
    {
      ok := *;
      ok := ok && CanRename(live, aside);
      if ok {
        aside := live;
        live := None;
      }
      Record();
      failed := failed || !ok;
    }

    method RenameStagingLive() returns (ok: bool)
      requires AlwaysSafe() && (live == original || (live.None? && aside == original))
      requires staging.Some? && staging == staged
      modifies this`live, this`staging, this`trace, this`failed
      ensures AlwaysSafe() && old(trace) <= trace
      ensures ok ==> live == staged && staging.None?
      ensures !ok ==> live == old(live) && staging == old(staging)
      ensures failed == (old(failed) || !ok)
    {
      ok := *;
      ok := ok && CanRename(staging, live);
      if ok {
        live := staging;
        staging := None;
      }
      Record();
      failed := failed || !ok;
    }

    method RenameAsideLive() returns (ok: bool)
      requires AlwaysSafe() && live.None? && aside == original
      modifies this`live, this`aside, this`trace, this`stranded
      ensures AlwaysSafe() && old(trace) <= trace
      ensures ok ==> live == original
      ensures stranded == (old(stranded) || !ok)
      ensures !ok ==> live.None? && aside == original
    {
      ok := *;
      ok := ok && CanRename(aside, live);
      if ok {
        live := aside;
        aside := None;
      }
      Record();
      stranded := stranded || !ok;
    }

    /** A step that touches none of the three paths and may fail: creating the parent directory, or
        writing the secret store. */
    method Elsewhere() returns (ok: bool)
      modifies this`failed
      ensures failed == (old(failed) || !ok)
    {
      ok := *;
      failed := failed || !ok;
    }

    /** `Save`. At every step the live path holds the original tree or the fully staged new one, or
        nothing while the original is complete aside. It returns an error exactly when some operation
        reported one. Without an error the new tree is in place; after one the original is, unless the
        rollback itself failed. `seed` is what the staging directory held before the new tree was
        written into it. */
    method Save(c: Collection) returns (err: bool, ghost seed: map<string, Entry>, ghost cleaned: bool)
      modifies this
      ensures AlwaysSafe() && original == old(live) && |trace| > 0 && trace[0] == old(Now())
      ensures !err ==> staged.Some? && staged.value.Dir? && live == staged
      ensures !err ==> CollectionSaved(seed, Blanked(c), staged.value.entries)
      ensures !err && cleaned ==>
        seed == map[] || (original.Some? && original.value.Dir? && seed == original.value.entries)
      ensures err && !stranded ==> live == original
      ensures err && stranded ==> live.None? && aside == original
      ensures err <==> failed
    {
      hide CollectionSaved, Blanked, CanRename;
      original, staged, trace, failed, stranded := live, None, [], false, false;
      Record();
      seed, cleaned, err := map[], false, true;
      var ok := Elsewhere();
      if !ok {
        return;
      }
      var clone, secrets := SplitSecrets(c);
      ok := Elsewhere();
      if !ok {
        return;
      }
      ok := RemoveStaging();
      cleaned := ok;
      var existed := IsDirectory();
      if existed {
        ok := CopyToStaging();
        if !ok {
          ok := RemoveStaging();
          return;
        }
      } else {
        ok := MakeStaging();
        if !ok {
          return;
        }
      }
      seed := staging.value.entries;
      ok := SaveStaged(clone);
      if !ok {
        ok := RemoveStaging();
        return;
      }
      staged := staging;
      err := Swap(existed);
    }

    /** The swap at the end of `Save`. */
    method Swap(existed: bool) returns (err: bool)
      requires AlwaysSafe() && live == original
      requires staging.Some? && staging == staged
      requires !failed && !stranded
      modifies this`live, this`staging, this`aside, this`trace, this`failed, this`stranded
      ensures AlwaysSafe() && old(trace) <= trace
      ensures err <==> failed
      ensures !err ==> live == staged
      ensures err && !stranded ==> live == original
      ensures err && stranded ==> live.None? && aside == original
    {
      hide CanRename;
      var ok := RemoveAside();
      if existed {
        ok := RenameLiveAside();
        if !ok {
          ok := RemoveStaging();
          return true;
        }
      }
      ok := RenameStagingLive();
      if !ok {
        if existed {
          ok := RenameAsideLive();
        }
        ok := RemoveStaging();
        return true;
      }
      ok := RemoveAside();
      return false;
    }
  }
}
