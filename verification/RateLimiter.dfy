/**
 The cross-process request limiter (brokers/kis_rate_limiter.py): one reservation under the
 shared lock, as the source performs it.  Times are integer ticks of the wall clock.
 */
module RateLimiter {
  import opened Wrappers
  import opened TempArtifacts

  datatype Category = Token | Read | Order | Cancel

  /** A recorded time; `Unusable` stands for null, non-numeric, NaN and infinite entries. */
  datatype Stamp = Unusable | At(time: int)

  type Stamps = map<Category, Stamp>

  /** The shared file as a reader finds it. */
  datatype StateFile = Absent | Unreadable | Malformed | Entries(stamps: Stamps)

  datatype Refused =
    | Invalidated | DirectoryUnavailable | LockUnavailable | LockTimeout | Alien(refusal: Refusal)
    | StateUnavailable | StateInvalid | FutureTimestamp | Persistence | ReleaseFailed

  /** How far the atomic write gets: before the rename, after it but not durably, or all the way. */
  datatype StoreOutcome = FailsBeforeReplace | FailsAfterReplace | Stores

  datatype Decision = Slot(stamp: int, slept: int) | Reject(reason: Refused)

  /** The furthest ahead a legitimate reservation can sit. */
  function FutureHorizon(interval: int, depth: int, skew: int): int {
    interval * depth + skew
  }

  /** The arithmetic of _wait_locked: which slot is next, if the recorded time can be believed. */
  function Decide(stamps: Stamps, c: Category, interval: int, now: int, horizon: int): Decision {
    if c !in stamps then Slot(now, 0)
    else if stamps[c] == Unusable || stamps[c].time < 0 then Reject(StateInvalid)
    else
      var last := stamps[c].time;
      if now - last < -horizon then Reject(FutureTimestamp)
      else if now - last < interval then Slot(last + interval, last + interval - now)
      else Slot(now, 0)
  }

  /** A granted slot is a full interval after the recorded one, never in the past, and is slept until. */
  lemma SlotIsSpaced(stamps: Stamps, c: Category, interval: int, now: int, horizon: int)
    requires interval > 0
    ensures var d := Decide(stamps, c, interval, now, horizon);
            d.Slot? ==> && d.stamp == now + d.slept && d.slept >= 0
                        && (c in stamps ==> stamps[c].At? && stamps[c].time + interval <= d.stamp)
                        && (d.slept > 0 ==> c in stamps && d.stamp == stamps[c].time + interval)
  {
  }

  function Contents(file: StateFile): Stamps {
    if file.Entries? then file.stamps else map[]
  }

  /** The file shared by every process; only the holder of the lock writes it. */
  class SharedState {
    var file: StateFile
    const directory: StateDirectory

    constructor (directory: StateDirectory)
      ensures file == Absent && this.directory == directory
    {
      file := Absent;
      this.directory := directory;
    }

    /** _store_state: a reader sees the old contents or the new, never a mixture. */
    method StoreState(stamps: Stamps, outcome: StoreOutcome) returns (failed: Option<Refused>)
      modifies this
      ensures file == (if outcome == FailsBeforeReplace then old(file) else Entries(stamps))
      ensures failed == (if outcome == Stores then None else Some(Persistence))
    {
      if outcome == FailsBeforeReplace {
        return Some(Persistence);
      }
      file := Entries(stamps);
      failed := if outcome == Stores then None else Some(Persistence);
    }
  }

  lemma OrphanIsRegular(name: string, info: Info, running: set<int>)
    requires IsOrphan(name, info, running)
    ensures info.kind == RegularFile
  {
  }

  /** What the environment does to one call: the clock, the listing, and where it fails. */
  datatype Call = Call(
    now: int, horizon: int, names: seq<string>, running: set<int>, minAge: int, unlinkable: set<string>,
    directoryAvailable: bool, lockOpens: bool, lockAcquired: bool, store: StoreOutcome, releases: bool)

  /** Every stale temporary that is old enough can be unlinked. */
  ghost predicate CleanupWorks(name: string, entries: map<string, Info>, call: Call) {
    forall n :: n in entries && Claims(name, n) && IsOrphan(n, entries[n], call.running) ==>
                  call.now - entries[n].mtime < call.minAge || n in call.unlinkable
  }

  /** Nothing but old enough orphans of this state file is gone, and nothing else has changed. */
  ghost predicate OnlyOrphansRemoved(name: string, before: map<string, Info>, after: map<string, Info>, call: Call) {
    && after.Keys <= before.Keys && (forall n :: n in after ==> after[n] == before[n])
    && forall n :: n in before && n !in after ==>
         Claims(name, n) && IsOrphan(n, before[n], call.running) && call.now - before[n].mtime >= call.minAge
  }

  /** Every listed orphan that is old enough is gone. */
  ghost predicate DueOrphansRemoved(name: string, before: map<string, Info>, after: map<string, Info>, call: Call) {
    forall n :: n in call.names && n in before && Claims(name, n) && IsOrphan(n, before[n], call.running) ==>
                  call.now - before[n].mtime < call.minAge || n !in after
  }

  class KisRateLimiter {
    var invalidated: bool
    const state: SharedState
    const name: string

    constructor (state: SharedState, name: string)
      ensures !invalidated && this.state == state && this.name == name
    {
      invalidated := false;
      this.state := state;
      this.name := name;
    }

    /**
     _wait_locked.  The namespace is classified, and refused or cleaned, before the state is
     read; a slot is returned only when it is durably recorded, and only its own category moves.
     */
    method WaitLocked(c: Category, interval: int, call: Call) returns (r: Result<int, Refused>)
      requires interval > 0
      modifies this, state, state.directory
      ensures Enforce(Scanned(name, call.names, old(state.directory.entries), call.running)) != None
              ==> r.Err? && r.error.Alien? && state.file == old(state.file)
                  && state.directory.entries == old(state.directory.entries)
      ensures invalidated ==> old(invalidated) || (r.Err? && r.error.Alien?)
      ensures old(invalidated) ==> invalidated
      ensures state.file != old(state.file) ==>
                var d := Decide(Contents(old(state.file)), c, interval, call.now, call.horizon);
                d.Slot? && state.file == Entries(Contents(old(state.file))[c := At(d.stamp)])
      ensures r.Ok? ==>
                var d := Decide(Contents(old(state.file)), c, interval, call.now, call.horizon);
                && d.Slot? && r.value == d.slept && call.store == Stores
                && state.file == Entries(Contents(old(state.file))[c := At(d.stamp)])
      ensures old(state.file).Unreadable? || old(state.file).Malformed? ==> r.Err? && state.file == old(state.file)
      ensures OnlyOrphansRemoved(name, old(state.directory.entries), state.directory.entries, call)
      ensures r.Ok? ==> DueOrphansRemoved(name, old(state.directory.entries), state.directory.entries, call)
      ensures && Enforce(Scanned(name, call.names, old(state.directory.entries), call.running)) == None
              && CleanupWorks(name, old(state.directory.entries), call) && call.store == Stores
              && (old(state.file).Absent? || old(state.file).Entries?)
              && Decide(Contents(old(state.file)), c, interval, call.now, call.horizon).Slot?
              ==> r.Ok?
    {
      hide Decide, Claims, IsOrphan, Scanned, Enforce;
      var artifacts := state.directory.ScanNamespace(name, call.names, call.running);
      var refusal := Enforce(artifacts);
      if refusal.Some? {
        invalidated := invalidated || refusal.value == ArtifactInvalid;
        return Err(Alien(refusal.value));
      }
      forall k: nat | k < |artifacts| && Removable(artifacts[k], call.now, call.minAge)
        ensures var a := artifacts[k];
                && a.name in state.directory.entries && a.info == state.directory.entries[a.name]
                && Claims(name, a.name)
                && IsOrphan(a.name, a.info, call.running) && call.now - a.info.mtime >= call.minAge
                && a.info.kind == RegularFile
      {
        RemovableIsOrphan(name, call.names, state.directory.entries, call.running, call.now, call.minAge, k);
        OrphanIsRegular(artifacts[k].name, artifacts[k].info, call.running);
      }
      forall n | n in call.names && n in state.directory.entries && Claims(name, n)
                 && IsOrphan(n, state.directory.entries[n], call.running)
                 && call.now - state.directory.entries[n].mtime >= call.minAge
        ensures exists k :: 0 <= k < |artifacts| && artifacts[k].name == n
                            && Removable(artifacts[k], call.now, call.minAge)
      {
        OrphanIsRemovable(name, call.names, state.directory.entries, call.running, call.now, call.minAge, n);
      }
      var cleaned := state.directory.CleanupStale(artifacts, call.now, call.minAge, call.unlinkable);
      if cleaned.Err? {
        invalidated := invalidated || cleaned.error == TypeChanged;
        return Err(Alien(cleaned.error));
      }
      if state.file.Unreadable? {
        return Err(StateUnavailable);
      }
      if state.file.Malformed? {
        return Err(StateInvalid);
      }
      var stamps := Contents(state.file);
      match Decide(stamps, c, interval, call.now, call.horizon)
      case Reject(reason) =>
        return Err(reason);
      case Slot(stamp, slept) =>
        var failed := state.StoreState(stamps[c := At(stamp)], call.store);
        return if failed.Some? then Err(failed.value) else Ok(slept);
    }

    /**
     wait: the whole lifecycle.  It returns only when the state was persisted and the lock
     released; every failure refuses the request, and a failed release stops this limiter.
     */
    method Wait(c: Category, interval: int, call: Call) returns (r: Result<int, Refused>)
      modifies this, state, state.directory
      ensures old(invalidated) ==> r == Err(Invalidated) && state.file == old(state.file)
                                   && state.directory.entries == old(state.directory.entries)
      ensures interval <= 0 ==> state.file == old(state.file) && (r.Ok? ==> r.value == 0)
      ensures interval <= 0 && !old(invalidated) ==>
                (r.Ok? <==> !Has(Scanned(name, call.names, old(state.directory.entries), call.running), Invalid))
      ensures state.file != old(state.file) ==>
                var d := Decide(Contents(old(state.file)), c, interval, call.now, call.horizon);
                interval > 0 && d.Slot? && state.file == Entries(Contents(old(state.file))[c := At(d.stamp)])
      ensures r.Ok? && interval > 0 ==>
                var d := Decide(Contents(old(state.file)), c, interval, call.now, call.horizon);
                && d.Slot? && r.value == d.slept && call.releases && !invalidated
                && state.file == Entries(Contents(old(state.file))[c := At(d.stamp)])
      ensures OnlyOrphansRemoved(name, old(state.directory.entries), state.directory.entries, call)
      ensures r.Ok? && interval > 0 ==>
                DueOrphansRemoved(name, old(state.directory.entries), state.directory.entries, call)
      ensures && !old(invalidated) && interval > 0
              && call.directoryAvailable && call.lockOpens && call.lockAcquired && call.releases
              && Enforce(Scanned(name, call.names, old(state.directory.entries), call.running)) == None
              && CleanupWorks(name, old(state.directory.entries), call) && call.store == Stores
              && (old(state.file).Absent? || old(state.file).Entries?)
              && Decide(Contents(old(state.file)), c, interval, call.now, call.horizon).Slot?
              ==> r.Ok?
      ensures call.lockAcquired && !call.releases && interval > 0 && call.lockOpens && call.directoryAvailable
              ==> invalidated && r.Err?
    {
      hide Decide, Claims, IsOrphan, Scanned, Enforce;
      if invalidated {
        return Err(Invalidated);
      }
      if interval <= 0 {
        var artifacts := state.directory.ScanNamespace(name, call.names, call.running);
        if Has(artifacts, Invalid) {
          invalidated := true;
          return Err(Alien(ArtifactInvalid));
        }
        return Ok(0);
      }
      if !call.directoryAvailable {
        return Err(DirectoryUnavailable);
      }
      if !call.lockOpens {
        return Err(LockUnavailable);
      }
      if !call.lockAcquired {
        return Err(LockTimeout);
      }
      r := WaitLocked(c, interval, call);
      if !call.releases {
        invalidated := true;
        if r.Ok? {
          r := Err(ReleaseFailed);
        }
      }
    }
  }
}
