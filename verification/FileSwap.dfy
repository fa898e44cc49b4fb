/** Building a projection beside the live one and swapping it in, over a file system
    in which every single operation may fail. */
module FileSwap {
  import opened Basics

  type Path = string

  /** A directory whose `i`-th operation fails when `faults(i)` holds. Operations are
      atomic; `history` records the directory at first and after each of them. */
  class FileSystem<C> {
    const faults: nat -> bool
    var calls: nat
    var files: map<Path, C>
    ghost var history: seq<map<Path, C>>

    constructor (files: map<Path, C>, faults: nat -> bool)
      ensures this.files == files && this.faults == faults && calls == 0 && history == [files]
    {
      this.files, this.faults, calls, history := files, faults, 0, [files];
    }

    ghost predicate IsRecorded()
      reads this
    {
      history != [] && history[|history| - 1] == files
    }

    method Remove(path: Path) returns (ok: bool)
      modifies this
      ensures ok == (!faults(old(calls)) && path in old(files))
      ensures files == if ok then old(files) - {path} else old(files)
      ensures calls == old(calls) + 1 && history == old(history) + [files]
    {
      ok := !faults(calls) && path in files;
      if ok {
        files := files - {path};
      }
      calls, history := calls + 1, history + [files];
    }

    method Rename(from: Path, to: Path) returns (ok: bool)
      requires from != to
      modifies this
      ensures ok == (!faults(old(calls)) && from in old(files))
      ensures files == if ok then (old(files) - {from})[to := old(files)[from]] else old(files)
      ensures calls == old(calls) + 1 && history == old(history) + [files]
    {
      ok := !faults(calls) && from in files;
      if ok {
        files := (files - {from})[to := files[from]];
      }
      calls, history := calls + 1, history + [files];
    }

    /** Whatever the builder left at a path, complete or not. */
    method Write(path: Path, content: C)
      modifies this
      ensures files == old(files)[path := content]
      ensures calls == old(calls) + 1 && history == old(history) + [files]
    {
      files := files[path := content];
      calls, history := calls + 1, history + [files];
    }
  }

  function Lookup<C>(files: map<Path, C>, path: Path): Option<C> {
    if path in files then Some(files[path]) else None
  }

  /** A complete projection can be recovered: the previous one is in place or in the
      backup, or the new one is in place. */
  ghost predicate Recoverable<C>(files: map<Path, C>, destination: Path, backup: Path, previous: C, next: C) {
    || Lookup(files, destination) == Some(previous)
    || Lookup(files, backup) == Some(previous)
    || Lookup(files, destination) == Some(next)
  }

  ghost predicate AllRecoverable<C>(history: seq<map<Path, C>>, from: nat, destination: Path, backup: Path,
                                    previous: C, next: C) {
    forall i :: from <= i < |history| ==> Recoverable(history[i], destination, backup, previous, next)
  }

  /** Some complete projection is left: only complete ones are ever moved to these two paths. */
  ghost predicate IsKept<C>(files: map<Path, C>, destination: Path, backup: Path) {
    destination in files || backup in files
  }

  ghost predicate AllKept<C>(history: seq<map<Path, C>>, from: nat, destination: Path, backup: Path) {
    forall i :: from <= i < |history| ==> IsKept(history[i], destination, backup)
  }

  /** Nothing but the named files is touched. */
  ghost predicate OnlyTouches<C>(before: map<Path, C>, after: map<Path, C>, paths: set<Path>) {
    forall p :: p !in paths ==> Lookup(after, p) == Lookup(before, p)
  }

  // ---------- the directories a swap goes through ----------

  function Moved<C>(files: map<Path, C>, from: Path, to: Path): map<Path, C> {
    if from in files then (files - {from})[to := files[from]] else files
  }

  function InstallStates<C>(files: map<Path, C>, source: Path, destination: Path, backup: Path, had: bool,
                            faults: nat -> bool, n: nat): seq<map<Path, C>> {
    if faults(n) || source !in files then
      [files] + (if !had then [] else [if faults(n + 1) then files else Moved(files, backup, destination)])
    else
      var installed := Moved(files, source, destination);
      [installed] + (if !had then [] else [if faults(n + 1) then installed else installed - {backup}])
  }

  function MoveStates<C>(files: map<Path, C>, source: Path, destination: Path, backup: Path, faults: nat -> bool,
                         n: nat): seq<map<Path, C>> {
    if destination !in files then InstallStates(files, source, destination, backup, false, faults, n)
    else if faults(n) then [files]
    else
      var moved := Moved(files, destination, backup);
      [moved] + InstallStates(moved, source, destination, backup, true, faults, n + 1)
  }

  function SwapStates<C>(files: map<Path, C>, source: Path, destination: Path, backup: Path, faults: nat -> bool,
                         n: nat): seq<map<Path, C>> {
    if backup !in files then MoveStates(files, source, destination, backup, faults, n)
    else if faults(n) then [files]
    else [files - {backup}] + MoveStates(files - {backup}, source, destination, backup, faults, n + 1)
  }

  /** With nothing at the destination the stale backup goes first, and with it, unless that
      very removal fails, the only projection there is. */
  lemma SwapKeeps<C>(files: map<Path, C>, source: Path, destination: Path, backup: Path, faults: nat -> bool, n: nat,
                     history: seq<map<Path, C>>)
    requires source != destination && source != backup && destination != backup
    ensures IsKept(files, destination, backup) ==>
      (AllKept(history + SwapStates(files, source, destination, backup, faults, n), |history|, destination, backup)
       <==> destination in files || faults(n))
  {
    var states := SwapStates(files, source, destination, backup, faults, n);
    assert forall i :: 0 <= i < |states| ==> (history + states)[|history| + i] == states[i];
    if destination in files {
      MoveKeeps(files - {backup}, source, destination, backup, faults, n + 1);
      MoveKeeps(files, source, destination, backup, faults, n);
    } else {
      assert !IsKept(files - {backup}, destination, backup);
      assert (history + states)[|history|] == states[0];
    }
  }

  lemma MoveKeeps<C>(files: map<Path, C>, source: Path, destination: Path, backup: Path, faults: nat -> bool, n: nat)
    requires source != destination && source != backup && destination != backup && destination in files
    ensures forall s <- MoveStates(files, source, destination, backup, faults, n) :: IsKept(s, destination, backup)
  {
  }

  lemma SwapRecovers<C>(files: map<Path, C>, source: Path, destination: Path, backup: Path, faults: nat -> bool,
                        n: nat, history: seq<map<Path, C>>)
    requires source != destination && source != backup && destination != backup
    ensures destination in files && source in files ==>
      AllRecoverable(history + SwapStates(files, source, destination, backup, faults, n), |history|,
                     destination, backup, files[destination], files[source])
  {
    if destination in files && source in files {
      var states := SwapStates(files, source, destination, backup, faults, n);
      MoveRecovers(files - {backup}, source, destination, backup, faults, n + 1);
      MoveRecovers(files, source, destination, backup, faults, n);
      assert forall s <- states :: Recoverable(s, destination, backup, files[destination], files[source]);
    }
  }

  lemma MoveRecovers<C>(files: map<Path, C>, source: Path, destination: Path, backup: Path, faults: nat -> bool, n: nat)
    requires source != destination && source != backup && destination != backup
    requires destination in files && source in files
    ensures forall s <- MoveStates(files, source, destination, backup, faults, n) ::
              Recoverable(s, destination, backup, files[destination], files[source])
  {
  }

  /** The run that loses it. The rename and the restoring rename of one swap fail, and the last
      projection is in the backup. The next build clears the temporary file and leaves its own; its
      swap removes the backup, its rename fails too, and none is left. */
  lemma TwoFailedSwapsLoseIt<C>(files: map<Path, C>, source: Path, destination: Path, backup: Path, next: Path,
                                projection: C, faults: nat -> bool, n: nat, m: nat)
    requires source != destination && source != backup && destination != backup
    requires next != destination && next != backup
    requires destination in files && source in files && backup !in files
    requires !faults(n) && faults(n + 1) && faults(n + 2) && !faults(m) && faults(m + 1)
    ensures var first := SwapStates(files, source, destination, backup, faults, n);
      var left := first[|first| - 1];
      var second := SwapStates((left - {source})[next := projection], next, destination, backup, faults, m);
      && first != [] && destination !in left && Lookup(left, backup) == Some(files[destination])
      && second != [] && forall s <- second :: !IsKept(s, destination, backup)
  {
    var first := SwapStates(files, source, destination, backup, faults, n);
    var moved := Moved(files, destination, backup);
    assert first == [moved] + ([moved] + [moved]);
    var found := (moved - {source})[next := projection];
    assert SwapStates(found, next, destination, backup, faults, m) == [found - {backup}] + [found - {backup}];
  }

  /** Success installs the new file and nothing else. Failure keeps the new file aside and the
      previous one in place, or in the backup when the restoring rename failed too. */
  ghost predicate IsOutcome<C>(before: map<Path, C>, after: map<Path, C>, ok: bool, source: Path, destination: Path,
                               backup: Path) {
    && OnlyTouches(before, after, {source, destination, backup})
    && (ok ==> source in before && Lookup(after, destination) == Some(before[source]) && source !in after)
    && (!ok ==> Lookup(after, source) == Lookup(before, source))
    && (!ok ==> || Lookup(after, destination) == Lookup(before, destination)
                || (destination !in after && Lookup(after, backup) == Lookup(before, destination)))
  }

  lemma NothingDone<C>(files: map<Path, C>, source: Path, destination: Path, backup: Path)
    ensures IsOutcome(files, files, false, source, destination, backup)
  {
  }

  lemma AfterRemoval<C>(before: map<Path, C>, after: map<Path, C>, ok: bool, source: Path, destination: Path,
                        backup: Path)
    requires source != backup && destination != backup
    requires IsOutcome(before - {backup}, after, ok, source, destination, backup)
    ensures IsOutcome(before, after, ok, source, destination, backup)
  {
    assert forall p :: p != backup ==> Lookup(before - {backup}, p) == Lookup(before, p);
  }

  method ReplaceFilePreservingBackup<C>(fs: FileSystem<C>, source: Path, destination: Path, backup: Path)
    returns (ok: bool)
    requires source != destination && source != backup && destination != backup
    modifies fs
    ensures IsOutcome(old(fs.files), fs.files, ok, source, destination, backup)
    ensures fs.history == old(fs.history) +
      SwapStates(old(fs.files), source, destination, backup, fs.faults, old(fs.calls))
    // At every point of every path a complete projection survives.
    ensures old(fs.history) <= fs.history
    ensures destination in old(fs.files) && source in old(fs.files) ==>
              AllRecoverable(fs.history, |old(fs.history)|, destination, backup,
                             old(fs.files)[destination], old(fs.files)[source])
    // A complete projection is left at every point if and only if one was at the destination, or
    // the removal of the stale backup failed.
    ensures IsKept(old(fs.files), destination, backup) ==>
      (AllKept(fs.history, |old(fs.history)|, destination, backup) <==>
       destination in old(fs.files) || fs.faults(old(fs.calls)))
    // The destination is lost only when the rename and the restoring rename both fail.
    ensures destination in old(fs.files) && source in old(fs.files) && destination !in fs.files ==>
      exists i: nat :: fs.faults(i) && fs.faults(i + 1)
    ensures fs.IsRecorded() && fs.calls - old(fs.calls) == |fs.history| - |old(fs.history)| > 0
    // Without faults the swap succeeds and leaves no backup behind.
    ensures source in old(fs.files) && (forall i: nat :: !fs.faults(i)) ==> ok && backup !in fs.files
  {
    hide AllKept, AllRecoverable, IsKept, MoveStates, IsOutcome;
    NothingDone(fs.files, source, destination, backup);
    ghost var end := fs.history + SwapStates(fs.files, source, destination, backup, fs.faults, fs.calls);
    SwapKeeps(fs.files, source, destination, backup, fs.faults, fs.calls, fs.history);
    SwapRecovers(fs.files, source, destination, backup, fs.faults, fs.calls, fs.history);
    if backup in fs.files {
      var removed := fs.Remove(backup);
      if !removed {
        assert fs.history == end;
        return false;
      }
    }
    ghost var cleared := fs.files;
    ok := MoveIn(fs, source, destination, backup);
    assert fs.history == end;
    assert cleared == old(fs.files) - {backup};
    AfterRemoval(old(fs.files), fs.files, ok, source, destination, backup);
  }

  predicate MovesIn<C>(files: map<Path, C>, source: Path, destination: Path, faults: nat -> bool, n: nat) {
    source in files && !faults(n) && (destination in files ==> !faults(n + 1))
  }

  /** What the last of its directories says of a move, and when its success is possible. */
  lemma MoveResult<C>(files: map<Path, C>, source: Path, destination: Path, backup: Path, faults: nat -> bool, n: nat)
    requires source != destination && source != backup && destination != backup && backup !in files
    ensures var states, ok := MoveStates(files, source, destination, backup, faults, n),
                              MovesIn(files, source, destination, faults, n);
      && states != []
      && var after := states[|states| - 1];
         && IsOutcome(files, after, ok, source, destination, backup)
         && (destination in files && source in files && destination !in after ==>
               exists i: nat :: faults(i) && faults(i + 1))
         && (source in files && (forall i: nat :: !faults(i)) ==> ok && backup !in after)
  {
    if destination in files && source in files && faults(n + 1) {
      assert faults(n + 2) ==> faults(n + 1) && faults(n + 1 + 1);
    }
  }

  /** The swap once the stale backup is gone. */
  method MoveIn<C>(fs: FileSystem<C>, source: Path, destination: Path, backup: Path) returns (ok: bool)
    requires source != destination && source != backup && destination != backup && backup !in fs.files
    modifies fs
    ensures fs.history == old(fs.history) +
      MoveStates(old(fs.files), source, destination, backup, fs.faults, old(fs.calls))
    ensures IsOutcome(old(fs.files), fs.files, ok, source, destination, backup)
    ensures destination in old(fs.files) && source in old(fs.files) && destination !in fs.files ==>
      exists i: nat :: fs.faults(i) && fs.faults(i + 1)
    ensures fs.IsRecorded() && fs.calls - old(fs.calls) == |fs.history| - |old(fs.history)| > 0
    ensures source in old(fs.files) && (forall i: nat :: !fs.faults(i)) ==> ok && backup !in fs.files
  {
    hide InstallStates, IsOutcome;
    MoveResult(fs.files, source, destination, backup, fs.faults, fs.calls);
    var hadDestination := destination in fs.files;
    if hadDestination {
      var moved := fs.Rename(destination, backup);
      if !moved {
        return false;
      }
    }
    InstallStep(fs.files, source, destination, backup, hadDestination, fs.faults, fs.calls);
    ok := fs.Rename(source, destination);
    if ok {
      if hadDestination {
        var _ := fs.Remove(backup);
      }
    } else if hadDestination {
      var _ := fs.Rename(backup, destination);
    }
  }

  lemma InstallStep<C>(files: map<Path, C>, source: Path, destination: Path, backup: Path, had: bool,
                       faults: nat -> bool, n: nat)
    ensures var installed := Moved(files, source, destination);
      InstallStates(files, source, destination, backup, had, faults, n) ==
        if faults(n) || source !in files then
          (if !had then [files] else [files] + [if faults(n + 1) then files else Moved(files, backup, destination)])
        else if !had then [installed]
        else [installed] + [if faults(n + 1) then installed else installed - {backup}]
  {
  }

  /** How the build and the freshness check of the temporary projection came out. */
  datatype BuildOutcome<+C> = Broken(partial: Option<C>) | Built(projection: C)

  /** Since `from`, nothing but one file has changed. */
  ghost predicate OnlyTouchedSince<C>(history: seq<map<Path, C>>, from: nat, before: map<Path, C>, path: Path) {
    forall i :: from <= i < |history| ==> OnlyTouches(before, history[i], {path})
  }

  /** Clears a stale temporary file and builds a new one; a failed build is discarded. */
  method BuildTemporary<C>(fs: FileSystem<C>, temp: Path, outcome: BuildOutcome<C>) returns (ok: bool)
    modifies fs
    ensures OnlyTouches(old(fs.files), fs.files, {temp})
    ensures old(fs.history) <= fs.history
    ensures OnlyTouchedSince(fs.history, |old(fs.history)|, old(fs.files), temp)
    ensures ok ==> outcome.Built? && Lookup(fs.files, temp) == Some(outcome.projection)
    ensures ok <==> outcome.Built? && (temp in old(fs.files) ==> !fs.faults(old(fs.calls)))
    ensures ok ==> fs.calls == old(fs.calls) + if temp in old(fs.files) then 2 else 1
    ensures fs.IsRecorded() && fs.calls - old(fs.calls) == |fs.history| - |old(fs.history)| > 0
  {
    if temp in fs.files {
      var removed := fs.Remove(temp);
      if !removed {
        return false;
      }
    }
    if outcome.Broken? {
      if outcome.partial.Some? {
        fs.Write(temp, outcome.partial.value);
      }
      var _ := fs.Remove(temp);
      return false;
    }
    fs.Write(temp, outcome.projection);
    return true;
  }

  /** A swap that cannot lose the last projection: it never began, or it had a destination to
      move away, or it could not even remove the backup. */
  ghost predicate IsHarmless<C>(faults: nat -> bool, swap: Option<nat>, before: map<Path, C>, destination: Path) {
    swap.None? || destination in before || faults(swap.value)
  }

  /** When the swap of a build begins: once a stale temporary file is cleared and the new one is
      written, if that is complete and current. */
  function SwapStart<C>(files: map<Path, C>, temp: Path, outcome: BuildOutcome<C>, current: Option<bool>,
                        faults: nat -> bool, n: nat): Option<nat> {
    if outcome.Broken? || current != Some(true) then None
    else if temp !in files then Some(n + 1)
    else if faults(n) then None
    else Some(n + 2)
  }

  /** Build beside, check, swap. `current` is the answer of the freshness check on the
      temporary file, `None` when the check itself failed. */
  method BuildProjectionReplacing<C>(fs: FileSystem<C>, temp: Path, destination: Path, backup: Path,
                                     outcome: BuildOutcome<C>, current: Option<bool>)
    returns (ok: bool, ghost swap: Option<nat>)
    requires temp != destination && temp != backup && destination != backup
    modifies fs
    ensures OnlyTouches(old(fs.files), fs.files, {temp, destination, backup})
    ensures ok ==> outcome.Built? && current == Some(true) &&
                   Lookup(fs.files, destination) == Some(outcome.projection) && temp !in fs.files
    ensures !ok ==> || Lookup(fs.files, destination) == Lookup(old(fs.files), destination)
                    || (destination !in fs.files && Lookup(fs.files, backup) == Lookup(old(fs.files), destination))
    // A build that fails, or that the source has overtaken, never reaches the live projection.
    ensures outcome.Broken? || current != Some(true) ==>
              !ok && OnlyTouches(old(fs.files), fs.files, {temp})
    ensures old(fs.history) <= fs.history
    ensures destination in old(fs.files) && outcome.Built? ==>
              AllRecoverable(fs.history, |old(fs.history)|, destination, backup,
                             old(fs.files)[destination], outcome.projection)
    // `swap` is when the swap began: as soon as the new file was complete and current.
    ensures swap == SwapStart(old(fs.files), temp, outcome, current, fs.faults, old(fs.calls))
    ensures IsKept(old(fs.files), destination, backup) ==>
      (AllKept(fs.history, |old(fs.history)|, destination, backup) <==>
       IsHarmless(fs.faults, swap, old(fs.files), destination))
    ensures destination in old(fs.files) && destination !in fs.files ==>
      exists i: nat :: fs.faults(i) && fs.faults(i + 1)
    ensures fs.IsRecorded() && fs.calls - old(fs.calls) == |fs.history| - |old(fs.history)| > 0
    ensures outcome.Built? && current == Some(true) && (forall i: nat :: !fs.faults(i)) ==> ok
  {
    swap := None;
    ok := BuildTemporary(fs, temp, outcome);
    ghost var building := fs.history;
    forall i | |old(fs.history)| <= i < |building|
      ensures Lookup(building[i], destination) == Lookup(old(fs.files), destination)
      ensures IsKept(building[i], destination, backup) <==> IsKept(old(fs.files), destination, backup)
    {
      assert OnlyTouches(old(fs.files), building[i], {temp});
      assert Lookup(building[i], backup) == Lookup(old(fs.files), backup);
    }
    assert IsKept(fs.files, destination, backup) <==> IsKept(old(fs.files), destination, backup) by {
      assert Lookup(fs.files, backup) == Lookup(old(fs.files), backup);
      assert Lookup(fs.files, destination) == Lookup(old(fs.files), destination);
    }
    if !ok {
      return false, swap;
    }
    if current != Some(true) {
      var _ := fs.Remove(temp);
      return false, swap;
    }
    assert Lookup(fs.files, destination) == Lookup(old(fs.files), destination);
    swap := Some(fs.calls);
    ok := ReplaceFilePreservingBackup(fs, temp, destination, backup);
    ghost var swapped := fs.history;
    assert AllKept(swapped, |building|, destination, backup) ==> IsKept(fs.files, destination, backup);
    if !ok {
      var _ := fs.Remove(temp);
      assert fs.history[|swapped|] == fs.files;
    }
    KeptOver(old(fs.history), building, swapped, fs.history, destination, backup);
  }

  lemma KeptOver<C>(first: seq<map<Path, C>>, second: seq<map<Path, C>>, third: seq<map<Path, C>>,
                    fourth: seq<map<Path, C>>, destination: Path, backup: Path)
    requires first <= second <= third <= fourth
    ensures AllKept(fourth, |first|, destination, backup) <==>
      && AllKept(second, |first|, destination, backup)
      && AllKept(third, |second|, destination, backup)
      && AllKept(fourth, |third|, destination, backup)
  {
    hide IsKept;
    assert forall i :: 0 <= i < |second| ==> fourth[i] == second[i];
    assert forall i :: 0 <= i < |third| ==> fourth[i] == third[i];
  }

  ghost predicate AllHarmless<C>(faults: nat -> bool, history: seq<map<Path, C>>, starts: seq<nat>,
                                 swaps: seq<Option<nat>>, destination: Path)
    requires |starts| == |swaps| && forall k :: 0 <= k < |starts| ==> starts[k] < |history|
  {
    forall k :: 0 <= k < |starts| ==> IsHarmless(faults, swaps[k], history[starts[k]], destination)
  }

  lemma NoneHarmful<C>(faults: nat -> bool, history: seq<map<Path, C>>, destination: Path)
    ensures AllHarmless(faults, history, [], [], destination)
  {
  }

  lemma OneMoreHarmless<C>(faults: nat -> bool, before: seq<map<Path, C>>, after: seq<map<Path, C>>, starts: seq<nat>,
                           swaps: seq<Option<nat>>, swap: Option<nat>, destination: Path)
    requires |starts| == |swaps| && forall k :: 0 <= k < |starts| ==> starts[k] < |before|
    requires before != [] && before <= after
    ensures AllHarmless(faults, after, starts + [|before| - 1], swaps + [swap], destination) <==>
      && AllHarmless(faults, before, starts, swaps, destination)
      && IsHarmless(faults, swap, before[|before| - 1], destination)
  {
    hide IsHarmless;
    var all, last := starts + [|before| - 1], |starts|;
    assert after[all[last]] == before[|before| - 1];
    assert forall k :: 0 <= k < last ==> after[all[k]] == before[starts[k]];
  }

  /** One attempt of a process to build: its temporary path, and what building and checking gave. */
  datatype Attempt<+C> = Attempt(temp: Path, outcome: BuildOutcome<C>, current: Option<bool>)

  /** Each swap began when its attempt, from the recorded directory it found, let it; `shift` is
      how far the count of operations is ahead of the record. */
  ghost predicate AreSwapsOf<C>(attempts: seq<Attempt<C>>, history: seq<map<Path, C>>, starts: seq<nat>,
                                swaps: seq<Option<nat>>, faults: nat -> bool, shift: int)
    requires |starts| == |swaps| <= |attempts|
    requires forall k :: 0 <= k < |starts| ==> starts[k] < |history| && 0 <= starts[k] + 1 + shift
  {
    forall k :: 0 <= k < |starts| ==>
      swaps[k] == SwapStart(history[starts[k]], attempts[k].temp, attempts[k].outcome, attempts[k].current, faults,
                            starts[k] + 1 + shift)
  }

  lemma NoSwaps<C>(attempts: seq<Attempt<C>>, history: seq<map<Path, C>>, faults: nat -> bool, shift: int)
    ensures AreSwapsOf(attempts, history, [], [], faults, shift)
  {
  }

  lemma OneMoreSwap<C>(attempts: seq<Attempt<C>>, before: seq<map<Path, C>>, after: seq<map<Path, C>>,
                       starts: seq<nat>, swaps: seq<Option<nat>>, swap: Option<nat>, faults: nat -> bool, shift: int)
    requires |starts| == |swaps| < |attempts| && before != [] && before <= after && 0 <= |before| + shift
    requires forall k :: 0 <= k < |starts| ==> starts[k] < |before| && 0 <= starts[k] + 1 + shift
    requires AreSwapsOf(attempts, before, starts, swaps, faults, shift)
    requires var a := attempts[|starts|];
      swap == SwapStart(before[|before| - 1], a.temp, a.outcome, a.current, faults, |before| + shift)
    ensures AreSwapsOf(attempts, after, starts + [|before| - 1], swaps + [swap], faults, shift)
  {
    hide SwapStart;
    var all, last := starts + [|before| - 1], |starts|;
    assert after[all[last]] == before[|before| - 1];
    assert forall k :: 0 <= k < last ==> after[all[k]] == before[starts[k]];
  }

  /** Builds of one label, one after the other, whatever came of the earlier ones. `starts` says
      which recorded directory each one found and `swaps` when its swap began. */
  method BuildRepeatedly<C>(fs: FileSystem<C>, attempts: seq<Attempt<C>>, destination: Path, backup: Path)
    returns (oks: seq<bool>, ghost starts: seq<nat>, ghost swaps: seq<Option<nat>>)
    requires fs.IsRecorded() && destination != backup
    requires forall a <- attempts :: a.temp != destination && a.temp != backup
    modifies fs
    ensures |oks| == |starts| == |swaps| == |attempts| && old(fs.history) <= fs.history
    ensures forall k :: 0 <= k < |starts| ==> |old(fs.history)| - 1 <= starts[k] < |fs.history|
    ensures forall j, k :: 0 <= j < k < |starts| ==> starts[j] < starts[k]
    ensures AreSwapsOf(attempts, fs.history, starts, swaps, fs.faults, old(fs.calls) - |old(fs.history)|)
    // A complete projection is left at every moment if and only if every swap was harmless.
    ensures IsKept(old(fs.files), destination, backup) ==>
      (AllKept(fs.history, |old(fs.history)|, destination, backup) <==>
       AllHarmless(fs.faults, fs.history, starts, swaps, destination))
    // So it takes two failed operations in a row to put the projection at risk.
    ensures destination in old(fs.files) && !(exists i: nat :: fs.faults(i) && fs.faults(i + 1)) ==>
      destination in fs.files && AllKept(fs.history, |old(fs.history)|, destination, backup)
  {
    hide AllHarmless, AreSwapsOf, SwapStart;
    oks, starts, swaps := [], [], [];
    NoneHarmful(fs.faults, fs.history, destination);
    NoSwaps(attempts, fs.history, fs.faults, fs.calls - |fs.history|);
    ghost var from := |fs.history|;
    ghost var risky := exists i: nat :: fs.faults(i) && fs.faults(i + 1);
    while |oks| < |attempts|
      invariant |oks| == |starts| == |swaps| <= |attempts| && fs.IsRecorded() && old(fs.history) <= fs.history
      invariant forall k :: 0 <= k < |starts| ==> from - 1 <= starts[k] < |fs.history| - 1
      invariant forall j, k :: 0 <= j < k < |starts| ==> starts[j] < starts[k]
      invariant fs.calls - |fs.history| == old(fs.calls) - from
      invariant AreSwapsOf(attempts, fs.history, starts, swaps, fs.faults, old(fs.calls) - from)
      invariant IsKept(old(fs.files), destination, backup) ==>
        (AllKept(fs.history, from, destination, backup) <==>
         AllHarmless(fs.faults, fs.history, starts, swaps, destination))
      invariant destination in old(fs.files) && !risky ==>
        destination in fs.files && AllKept(fs.history, from, destination, backup)
    {
      ghost var before := fs.history;
      var a := attempts[|oks|];
      assert a in attempts;
      var ok; ghost var swap;
      ok, swap := BuildProjectionReplacing(fs, a.temp, destination, backup, a.outcome, a.current);
      KeptOver(old(fs.history), before, fs.history, fs.history, destination, backup);
      OneMoreSwap(attempts, before, fs.history, starts, swaps, swap, fs.faults, old(fs.calls) - from);
      OneMoreHarmless(fs.faults, before, fs.history, starts, swaps, swap, destination);
      oks, starts, swaps := oks + [ok], starts + [|before| - 1], swaps + [swap];
    }
  }
}
