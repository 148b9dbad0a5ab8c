/** Sharing one KIS access token between processes (brokers/kis_token_cache.py). */
module TokenCache {
  import opened Text
  import opened Wrappers

  datatype Identity = Identity(environment: string, baseUrl: string, fingerprint: string)

  /** The file, or NoEntry for every shape _load treats as a miss before it looks at the times. */
  datatype Cache = NoEntry | Entry(token: string, identity: Identity, expiresAt: int, createdAt: int)

  /** The caller's identity, the three tolerances, and when the run began. */
  datatype Env = Env(identity: Identity, clockSkew: nat, maxLifetime: int, refreshSkew: nat, start: int)

  /** _load: the cached token if it may be used at `now`. */
  function Load(env: Env, cache: Cache, now: int): Option<string> {
    if cache.NoEntry? || Trim(cache.token) == "" then None
    else if cache.createdAt > now + env.clockSkew then None
    else if cache.expiresAt <= cache.createdAt then None
    else if cache.expiresAt - cache.createdAt > env.maxLifetime then None
    else if cache.identity != env.identity then None
    else if now >= cache.expiresAt - env.refreshSkew then None
    else Some(cache.token)
  }

  /** What issue_fn returned, when expires_at was computed, and what became of it. */
  datatype Fate = Pending | Saved(createdAt: int) | Lost | Unshared

  datatype Issuance = Issuance(token: string, expiresIn: Option<int>, stampedAt: int, fate: Fate)

  /** clock() + max(float(expires_in), 0); a lifetime that is not a number counts as none. */
  function ExpiresAt(i: Issuance): int {
    i.stampedAt + (if i.expiresIn.Some? && i.expiresIn.value > 0 then i.expiresIn.value else 0)
  }

  /** When the token is due for replacement. */
  function RefreshAt(env: Env, i: Issuance): int {
    ExpiresAt(i) - env.refreshSkew
  }

  /** _store. */
  function EntryOf(env: Env, i: Issuance, createdAt: int): Cache {
    Entry(i.token, env.identity, ExpiresAt(i), createdAt)
  }

  /** A token worth sharing: not blank, and with a lifetime the cache accepts and outlives the skew. */
  predicate IsProper(env: Env, i: Issuance) {
    Trim(i.token) != "" && i.expiresIn.Some? && env.refreshSkew < i.expiresIn.value <= env.maxLifetime
  }

  /** A stored token loads back under its identity exactly until its refresh point, and never under another. */
  lemma StoreLoadRoundTrip(env: Env, other: Env, i: Issuance, createdAt: int, now: int)
    requires IsProper(env, i) && i.stampedAt <= createdAt <= now
    ensures Load(env, EntryOf(env, i, createdAt), now) == if now < RefreshAt(env, i) then Some(i.token) else None
    ensures other.identity != env.identity ==> Load(other, EntryOf(env, i, createdAt), now) == None
  {
  }

  /**
   Any issued token, once stored, loads back if and only if it is not blank, was given a lifetime
   in which the refresh skew still fits, and was not stored with more than the longest lifetime
   to go: one without a lifetime is never shared.
   */
  lemma StoredTokenLoadsIff(env: Env, i: Issuance, createdAt: int, now: int)
    requires i.stampedAt <= createdAt <= now
    ensures Load(env, EntryOf(env, i, createdAt), now).Some?
            <==> && Trim(i.token) != "" && i.expiresIn.Some?
                 && now + env.refreshSkew < i.stampedAt + i.expiresIn.value <= createdAt + env.maxLifetime
  {
    hide Trim;
  }

  /**
   Whatever the file holds, a token that is accepted belongs to the caller's identity, has more
   than the refresh skew left to live, and no more than the clock skew and a whole lifetime.
   */
  lemma AcceptedTokenIsSane(env: Env, cache: Cache, now: int)
    requires Load(env, cache, now).Some?
    ensures cache.Entry? && cache.identity == env.identity && Trim(Load(env, cache, now).value) != ""
    ensures now + env.refreshSkew < cache.expiresAt <= now + env.clockSkew + env.maxLifetime
    ensures cache.createdAt < cache.expiresAt && cache.createdAt <= now + env.clockSkew
  {
  }

  /** A miss now may become a hit later only for an entry dated in the future. */
  lemma MissStaysIff(env: Env, cache: Cache, now: int)
    requires Load(env, cache, now) == None
    ensures (forall t :: t >= now ==> Load(env, cache, t) == None)
            <==> cache.NoEntry? || cache.createdAt <= now + env.clockSkew
                 || Load(env, cache, cache.createdAt - env.clockSkew) == None
  {
    if cache.Entry? && cache.createdAt > now + env.clockSkew {
      forall t | t >= now && Load(env, cache, t).Some? ensures Load(env, cache, cache.createdAt - env.clockSkew).Some? {
      }
    }
  }

  /** The clock at each of one call's readings: the two loads, the expiry and the store. */
  datatype Readings = Readings(first: int, second: int, expiry: int, store: int)

  /** What issue_fn gives; None when it raises. */
  type Grant = Option<(string, Option<int>)>

  class SharedCache {
    var cache: Cache

    constructor ()
      ensures cache == NoEntry
    {
      cache := NoEntry;
    }

    /** _store: replaces the record, or leaves it when the filesystem refuses. */
    method Store(env: Env, i: Issuance, createdAt: int, stores: bool)
      modifies this
      ensures cache == if stores then EntryOf(env, i, createdAt) else old(cache)
    {
      if stores {
        cache := EntryOf(env, i, createdAt);
      }
    }

    /**
     get_or_issue.  `found` is what the file holds once the lock is held, after other processes
     may have replaced it.  A token is issued at most once, and only after a miss under the lock
     or without a lock; only one issued under the lock is stored, and a usable record is never replaced.
     */
    method GetOrIssue(env: Env, t: Readings, locked: bool, found: Cache, grant: Grant, stores: bool)
      returns (token: Option<string>, issues: nat)
      modifies this
      ensures Load(env, old(cache), t.first).Some? ==>
                token == Load(env, old(cache), t.first) && issues == 0 && cache == old(cache)
      ensures Load(env, old(cache), t.first).None? && !locked ==>
                issues == 1 && cache == old(cache) && (token.Some? <==> grant.Some?)
      ensures Load(env, old(cache), t.first).None? && locked && Load(env, found, t.second).Some? ==>
                token == Load(env, found, t.second) && issues == 0 && cache == found
      ensures Load(env, old(cache), t.first).None? && locked && Load(env, found, t.second).None? ==>
                issues == 1 && (token.Some? <==> grant.Some?)
      ensures issues == 1 && token.Some? ==> token.value == grant.value.0
      ensures cache != old(cache) && cache != found ==>
                locked && stores && grant.Some? && Load(env, found, t.second).None?
      ensures locked && stores && issues == 1 && grant.Some? && t.expiry <= t.store
              && IsProper(env, Issuance(grant.value.0, grant.value.1, t.expiry, Pending)) ==>
                forall now :: t.store <= now ==>
                  Load(env, cache, now)
                    == (if now < t.expiry + grant.value.1.value - env.refreshSkew then token else None)
    {
      var cached := Load(env, cache, t.first);
      if cached.Some? {
        return cached, 0;
      }
      if !locked {
        return if grant.Some? then Some(grant.value.0) else None, 1;
      }
      cache := found;
      cached := Load(env, cache, t.second);
      if cached.Some? {
        return cached, 0;
      }
      if grant.None? {
        return None, 1;
      }
      var i := Issuance(grant.value.0, grant.value.1, t.expiry, Pending);
      Store(env, i, t.store, stores);
      return Some(i.token), 1;
    }
  }

  // ----------------------------------------------------------- The processes

  datatype Control = Idle | Peeked(cache: Cache) | Waiting | Holding | Missed | Issued(k: nat) | Leaving(token: string)

  datatype World = World(clock: int, cache: Cache, holder: Option<nat>, procs: map<nat, Control>,
                         issued: seq<Issuance>, returned: seq<string>)

  datatype Action =
    | Tick(d: nat)
    | ReadCache(p: nat)
    | Judge(p: nat)
    | TimeOut(p: nat, token: string)
    | TakeLock(p: nat)
    | Recheck(p: nat)
    | Issue(p: nat, token: string, expiresIn: Option<int>)
    | IssueRaises(p: nat)
    | Save(p: nat)
    | SaveFails(p: nat)
    | Leave(p: nat)
    | Crash(p: nat)

  function At(w: World, p: nat): Control {
    if p in w.procs then w.procs[p] else Idle
  }

  predicate HoldsLock(c: Control) {
    c.Holding? || c.Missed? || c.Issued? || c.Leaving?
  }

  predicate Enabled(w: World, a: Action) {
    match a
    case Tick(_) => true
    case ReadCache(p) => At(w, p).Idle?
    case Judge(p) => At(w, p).Peeked?
    case TimeOut(p, _) => At(w, p).Waiting?
    case TakeLock(p) => At(w, p).Waiting? && w.holder.None?
    case Recheck(p) => At(w, p).Holding?
    case Issue(p, _, _) => At(w, p).Missed?
    case IssueRaises(p) => At(w, p).Missed?
    case Save(p) => At(w, p).Issued? && At(w, p).k < |w.issued|
    case SaveFails(p) => At(w, p).Issued? && At(w, p).k < |w.issued|
    case Leave(p) => At(w, p).Leaving?
    case Crash(p) => !At(w, p).Idle?
  }

  function Move(w: World, p: nat, c: Control): World {
    w.(procs := w.procs[p := c])
  }

  function Free(w: World, p: nat): World {
    w.(procs := w.procs[p := Idle], holder := if w.holder == Some(p) then None else w.holder)
  }

  function Settle(w: World, k: nat, fate: Fate): seq<Issuance>
    requires k < |w.issued|
  {
    w.issued[k := w.issued[k].(fate := fate)]
  }

  /** One step of one process, or the passing of time. */
  function Step(env: Env, w: World, a: Action): World
    requires Enabled(w, a)
  {
    match a
    case Tick(d) => w.(clock := w.clock + d)
    case ReadCache(p) => Move(w, p, Peeked(w.cache))
    case Judge(p) =>
      var hit := Load(env, At(w, p).cache, w.clock);
      if hit.Some? then Move(w, p, Idle).(returned := w.returned + [hit.value]) else Move(w, p, Waiting)
    case TimeOut(p, token) =>
      Move(w, p, Idle).(issued := w.issued + [Issuance(token, None, w.clock, Unshared)],
                        returned := w.returned + [token])
    case TakeLock(p) => Move(w, p, Holding).(holder := Some(p))
    case Recheck(p) =>
      var hit := Load(env, w.cache, w.clock);
      if hit.Some? then Move(w, p, Leaving(hit.value)) else Move(w, p, Missed)
    case Issue(p, token, expiresIn) =>
      Move(w, p, Issued(|w.issued|)).(issued := w.issued + [Issuance(token, expiresIn, w.clock, Pending)])
    case IssueRaises(p) => Free(w, p)
    case Save(p) =>
      var k := At(w, p).k;
      Move(w, p, Leaving(w.issued[k].token)).(issued := Settle(w, k, Saved(w.clock)),
                                              cache := EntryOf(env, w.issued[k], w.clock))
    case SaveFails(p) =>
      var k := At(w, p).k;
      Move(w, p, Leaving(w.issued[k].token)).(issued := Settle(w, k, Lost))
    case Leave(p) => Free(w, p).(returned := w.returned + [At(w, p).token])
    case Crash(p) =>
      var k := if At(w, p).Issued? then At(w, p).k else |w.issued|;
      Free(w, p).(issued := if k < |w.issued| then Settle(w, k, Lost) else w.issued)
  }

  // --------------------------------------------------------------- Invariant

  /** Unusable now and for ever. */
  ghost predicate IsDead(env: Env, cache: Cache) {
    forall t :: t >= env.start ==> Load(env, cache, t) == None
  }

  ghost predicate IsIssued(w: World, token: string) {
    exists k :: 0 <= k < |w.issued| && w.issued[k].token == token
  }

  /** A cache that can only yield a token issued in this run. */
  ghost predicate Known(env: Env, w: World, cache: Cache) {
    IsDead(env, cache) || (cache.Entry? && IsIssued(w, cache.token))
  }

  ghost predicate LockInv(w: World) {
    forall p: nat :: HoldsLock(At(w, p)) <==> w.holder == Some(p)
  }

  ghost predicate TokenInv(env: Env, w: World) {
    && Known(env, w, w.cache)
    && (forall p: nat :: At(w, p).Peeked? ==> Known(env, w, At(w, p).cache))
    && (forall p: nat :: At(w, p).Leaving? ==> IsIssued(w, At(w, p).token))
    && (forall k :: 0 <= k < |w.returned| ==> IsIssued(w, w.returned[k]))
  }

  ghost predicate TimeInv(env: Env, w: World) {
    && env.start <= w.clock
    && (forall k :: 0 <= k < |w.issued| ==> w.issued[k].stampedAt <= w.clock)
    && (forall k :: 0 <= k < |w.issued| && w.issued[k].fate.Saved? ==>
          w.issued[k].stampedAt <= w.issued[k].fate.createdAt <= w.clock)
    && (forall p: nat :: At(w, p).Issued? ==> At(w, p).k < |w.issued| && w.issued[At(w, p).k].fate == Pending)
  }

  /** Saved and worth sharing, and not yet due for replacement. */
  predicate IsFresh(env: Env, w: World, k: int)
    requires 0 <= k < |w.issued|
  {
    w.issued[k].fate.Saved? && IsProper(env, w.issued[k]) && w.clock < RefreshAt(env, w.issued[k])
  }

  /** A fresh token is what the file holds, and nobody who missed it under the lock is still at work. */
  ghost predicate FreshInv(env: Env, w: World) {
    forall k :: 0 <= k < |w.issued| && IsFresh(env, w, k) ==>
                  && w.cache == EntryOf(env, w.issued[k], w.issued[k].fate.createdAt)
                  && forall p: nat :: !At(w, p).Missed? && !At(w, p).Issued?
  }

  ghost predicate Inv(env: Env, w: World) {
    LockInv(w) && TokenInv(env, w) && TimeInv(env, w) && FreshInv(env, w)
  }

  lemma LockStep(env: Env, w: World, a: Action)
    requires LockInv(w) && Enabled(w, a)
    ensures LockInv(Step(env, w, a))
  {
    hide Load, EntryOf;
    var after := Step(env, w, a);
    forall p: nat ensures HoldsLock(At(after, p)) <==> after.holder == Some(p) {
      assert HoldsLock(At(w, p)) <==> w.holder == Some(p);
    }
  }

  lemma TimeStep(env: Env, w: World, a: Action)
    requires LockInv(w) && TimeInv(env, w) && Enabled(w, a)
    ensures TimeInv(env, Step(env, w, a))
  {
    hide Load, EntryOf;
    var after := Step(env, w, a);
    forall p: nat | At(after, p).Issued?
      ensures At(after, p).k < |after.issued| && after.issued[At(after, p).k].fate == Pending {
      assert HoldsLock(At(w, p)) ==> w.holder == Some(p);
    }
  }

  /** Every token known before is known after. */
  lemma IssuedStays(env: Env, w: World, a: Action, token: string)
    requires Enabled(w, a) && IsIssued(w, token)
    ensures IsIssued(Step(env, w, a), token)
  {
    hide Load, EntryOf;
    var k :| 0 <= k < |w.issued| && w.issued[k].token == token;
    assert Step(env, w, a).issued[k].token == token;
  }

  lemma HitIsIssued(env: Env, w: World, cache: Cache)
    requires Known(env, w, cache) && env.start <= w.clock && Load(env, cache, w.clock).Some?
    ensures IsIssued(w, Load(env, cache, w.clock).value)
  {
  }

  lemma KnownStays(env: Env, w: World, a: Action, cache: Cache)
    requires Enabled(w, a) && Known(env, w, cache)
    ensures Known(env, Step(env, w, a), cache)
  {
    hide IsDead, Step, Enabled;
    if !IsDead(env, cache) {
      IssuedStays(env, w, a, cache.token);
    }
  }

  lemma NewlyIssued(env: Env, w: World, a: Action)
    requires Enabled(w, a)
    ensures var after := Step(env, w, a);
            && (a.TimeOut? ==> IsIssued(after, a.token))
            && (a.Save? || a.SaveFails? ==> IsIssued(after, w.issued[At(w, a.p).k].token))
  {
    hide Load, EntryOf;
    var after := Step(env, w, a);
    if a.TimeOut? {
      assert after.issued[|w.issued|].token == a.token;
    }
    if a.Save? || a.SaveFails? {
      assert after.issued[At(w, a.p).k].token == w.issued[At(w, a.p).k].token;
    }
  }

  lemma CacheStaysKnown(env: Env, w: World, a: Action)
    requires Known(env, w, w.cache) && Enabled(w, a)
    ensures Known(env, Step(env, w, a), Step(env, w, a).cache)
  {
    hide Known, IsIssued, EntryOf, Load;
    KnownStays(env, w, a, w.cache);
    if a.Save? {
      SavedIsKnown(env, w, a);
    }
  }

  lemma PeeksStayKnown(env: Env, w: World, a: Action, p: nat)
    requires TokenInv(env, w) && Enabled(w, a) && At(Step(env, w, a), p).Peeked?
    ensures Known(env, Step(env, w, a), At(Step(env, w, a), p).cache)
  {
    hide Known, IsIssued, EntryOf, Load;
    KnownStays(env, w, a, w.cache);
    if At(w, p).Peeked? {
      KnownStays(env, w, a, At(w, p).cache);
    }
  }

  lemma LeaversStayIssued(env: Env, w: World, a: Action, p: nat)
    requires TokenInv(env, w) && TimeInv(env, w) && Enabled(w, a) && At(Step(env, w, a), p).Leaving?
    ensures IsIssued(Step(env, w, a), At(Step(env, w, a), p).token)
  {
    hide Known, IsIssued, EntryOf, Load;
    NewlyIssued(env, w, a);
    if At(w, p).Leaving? {
      IssuedStays(env, w, a, At(w, p).token);
    } else if a.Recheck? {
      HitIsIssued(env, w, w.cache);
      IssuedStays(env, w, a, Load(env, w.cache, w.clock).value);
    }
  }

  lemma ReturnsStayIssued(env: Env, w: World, a: Action, k: nat)
    requires TokenInv(env, w) && TimeInv(env, w) && Enabled(w, a) && k < |Step(env, w, a).returned|
    ensures IsIssued(Step(env, w, a), Step(env, w, a).returned[k])
  {
    hide Known, IsIssued, EntryOf, Load;
    NewlyIssued(env, w, a);
    if k < |w.returned| {
      IssuedStays(env, w, a, w.returned[k]);
    } else if a.Judge? {
      HitIsIssued(env, w, At(w, a.p).cache);
      IssuedStays(env, w, a, Load(env, At(w, a.p).cache, w.clock).value);
    } else if a.Leave? {
      IssuedStays(env, w, a, At(w, a.p).token);
    }
  }

  lemma TokenStep(env: Env, w: World, a: Action)
    requires TokenInv(env, w) && TimeInv(env, w) && Enabled(w, a)
    ensures TokenInv(env, Step(env, w, a))
  {
    var after := Step(env, w, a);
    CacheStaysKnown(env, w, a);
    forall p: nat | At(after, p).Peeked? ensures Known(env, after, At(after, p).cache) {
      PeeksStayKnown(env, w, a, p);
    }
    forall p: nat | At(after, p).Leaving? ensures IsIssued(after, At(after, p).token) {
      LeaversStayIssued(env, w, a, p);
    }
    forall k: nat | k < |after.returned| ensures IsIssued(after, after.returned[k]) {
      ReturnsStayIssued(env, w, a, k);
    }
    hide Step, Enabled, Known, IsIssued, At, TimeInv;
  }

  lemma SavedIsKnown(env: Env, w: World, a: Action)
    requires Enabled(w, a) && a.Save?
    ensures Known(env, Step(env, w, a), Step(env, w, a).cache)
  {
    hide Load, IsDead, IsIssued;
    NewlyIssued(env, w, a);
  }

  /** Under the lock, a fresh token is always found. */
  lemma FreshIsFound(env: Env, w: World, k: int)
    requires TimeInv(env, w) && FreshInv(env, w) && 0 <= k < |w.issued| && IsFresh(env, w, k)
    ensures Load(env, w.cache, w.clock) == Some(w.issued[k].token)
  {
    StoreLoadRoundTrip(env, env, w.issued[k], w.issued[k].fate.createdAt, w.clock);
  }

  /** An issuance that is fresh after a step was fresh before it, or has just been saved. */
  lemma FreshBefore(env: Env, w: World, a: Action, k: int)
    requires Enabled(w, a) && 0 <= k < |Step(env, w, a).issued| && IsFresh(env, Step(env, w, a), k)
    ensures || (a.Save? && At(w, a.p).k == k)
            || (k < |w.issued| && IsFresh(env, w, k) && Step(env, w, a).issued[k] == w.issued[k])
  {
    hide Load, EntryOf, Trim;
  }

  lemma FreshStep(env: Env, w: World, a: Action, k: int)
    requires LockInv(w) && TimeInv(env, w) && FreshInv(env, w) && Enabled(w, a)
    requires 0 <= k < |Step(env, w, a).issued| && IsFresh(env, Step(env, w, a), k)
    ensures var after := Step(env, w, a);
            && after.cache == EntryOf(env, after.issued[k], after.issued[k].fate.createdAt)
            && forall p: nat :: !At(after, p).Missed? && !At(after, p).Issued?
  {
    FreshBefore(env, w, a, k);
    hide Load, EntryOf, IsFresh;
    var after := Step(env, w, a);
    if a.Save? {
      if At(w, a.p).k == k {
        EntryIgnoresFate(env, w.issued[k], w.clock);
        forall p: nat ensures !At(after, p).Missed? && !At(after, p).Issued? {
          assert HoldsLock(At(w, p)) ==> w.holder == Some(p);
          assert HoldsLock(At(w, a.p));
        }
      } else {
        assert false;
      }
    } else {
      if a.Recheck? {
        FreshIsFound(env, w, k);
      }
      forall p: nat ensures !At(after, p).Missed? && !At(after, p).Issued? {
        assert !At(w, p).Missed? && !At(w, p).Issued?;
      }
    }
  }

  lemma EntryIgnoresFate(env: Env, i: Issuance, createdAt: int)
    ensures EntryOf(env, i.(fate := Saved(createdAt)), createdAt) == EntryOf(env, i, createdAt)
  {
  }

  lemma StepKeepsInv(env: Env, w: World, a: Action)
    requires Inv(env, w) && Enabled(w, a)
    ensures Inv(env, Step(env, w, a))
  {
    hide LockInv, TokenInv, TimeInv, Step, Enabled, IsFresh, EntryOf;
    LockStep(env, w, a);
    TimeStep(env, w, a);
    TokenStep(env, w, a);
    var after := Step(env, w, a);
    forall k | 0 <= k < |after.issued| && IsFresh(env, after, k)
      ensures after.issued[k].fate.Saved?
              && after.cache == EntryOf(env, after.issued[k], after.issued[k].fate.createdAt)
      ensures forall p: nat :: !At(after, p).Missed? && !At(after, p).Issued?
    {
      FreshIsSaved(env, after, k);
      FreshStep(env, w, a, k);
    }
  }

  lemma FreshIsSaved(env: Env, w: World, k: int)
    requires 0 <= k < |w.issued| && IsFresh(env, w, k)
    ensures w.issued[k].fate.Saved?
  {
  }

  // -------------------------------------------------------------------- Runs

  /** From a cache that is cold or dead for this identity, with nothing under way. */
  ghost predicate Starts(env: Env, w: World) {
    && IsDead(env, w.cache) && w.clock == env.start
    && w.holder == None && w.procs == map[] && w.issued == [] && w.returned == []
  }

  ghost predicate IsRun(env: Env, states: seq<World>, steps: seq<Action>) {
    && |states| == |steps| + 1
    && Starts(env, states[0])
    && forall k :: 0 <= k < |steps| ==> Enabled(states[k], steps[k]) && states[k + 1] == Step(env, states[k], steps[k])
  }

  lemma {:induction false} RunKeepsInv(env: Env, states: seq<World>, steps: seq<Action>, n: nat)
    requires IsRun(env, states, steps) && n < |states|
    ensures Inv(env, states[n])
    decreases n
  {
    hide Inv, Step, Enabled, Starts;
    if n == 0 {
      StartInv(env, states[0]);
    } else {
      RunKeepsInv(env, states, steps, n - 1);
      StepKeepsInv(env, states[n - 1], steps[n - 1]);
    }
  }

  lemma StartInv(env: Env, w: World)
    requires Starts(env, w)
    ensures Inv(env, w)
  {
    hide Load;
  }

  /**
   In every run, whatever crashes, times out or fails to be stored: no token is issued under the
   lock while an earlier one that was stored is still before its refresh point.
   */
  lemma NoIssueWhileFresh(env: Env, states: seq<World>, steps: seq<Action>, n: nat, k: nat)
    requires IsRun(env, states, steps) && n < |steps| && steps[n].Issue?
    requires k < |states[n].issued| && states[n].issued[k].fate.Saved? && IsProper(env, states[n].issued[k])
    ensures RefreshAt(env, states[n].issued[k]) <= states[n].clock
  {
    RunKeepsInv(env, states, steps, n);
    hide IsProper, RefreshAt, Step, EntryOf;
    assert Enabled(states[n], steps[n]);
    assert !IsFresh(env, states[n], k);
  }

  /** Every token any caller was given was issued in this run. */
  lemma ReturnedTokensWereIssued(env: Env, states: seq<World>, steps: seq<Action>, n: nat, r: nat)
    requires IsRun(env, states, steps) && n < |states| && r < |states[n].returned|
    ensures IsIssued(states[n], states[n].returned[r])
  {
    RunKeepsInv(env, states, steps, n);
  }

  // ------------------------------------------------------- One issuance at most

  /** The lock is got, stores succeed, and nobody dies between issuing and storing. */
  predicate Smooth(env: Env, w: World, a: Action) {
    && !a.TimeOut? && !a.SaveFails?
    && (a.Crash? ==> !At(w, a.p).Issued?)
    && (a.Issue? ==> IsProper(env, Issuance(a.token, a.expiresIn, w.clock, Pending)))
  }

  /** Every issuance is proper; all but the last are past their refresh point; any not yet stored is being stored. */
  ghost predicate SmoothInv(env: Env, w: World) {
    && (forall k :: 0 <= k < |w.issued| ==> IsProper(env, w.issued[k]))
    && (forall k :: 0 <= k < |w.issued| - 1 ==> RefreshAt(env, w.issued[k]) <= w.clock)
    && (forall k :: 0 <= k < |w.issued| ==> w.issued[k].fate.Saved? || IsPending(w, k))
  }

  ghost predicate IsPending(w: World, k: nat) {
    exists p: nat :: At(w, p) == Issued(k)
  }

  lemma NobodyIsPending(w: World, p: nat, k: nat)
    requires LockInv(w) && At(w, p).Missed?
    ensures !IsPending(w, k)
  {
    forall q: nat ensures At(w, q) != Issued(k) {
      assert HoldsLock(At(w, q)) <==> w.holder == Some(q);
      assert HoldsLock(At(w, p)) <==> w.holder == Some(p);
    }
  }

  lemma IssueFindsAllStored(env: Env, w: World, a: Action, k: nat)
    requires LockInv(w) && FreshInv(env, w) && SmoothInv(env, w) && Enabled(w, a) && a.Issue? && k < |w.issued|
    ensures RefreshAt(env, w.issued[k]) <= w.clock
  {
    hide IsProper, RefreshAt, EntryOf;
    NobodyIsPending(w, a.p, k);
    assert !IsFresh(env, w, k);
  }

  lemma PendingStays(env: Env, w: World, a: Action, k: nat)
    requires LockInv(w) && Enabled(w, a) && Smooth(env, w, a) && k < |w.issued|
    requires w.issued[k].fate.Saved? || IsPending(w, k)
    ensures Step(env, w, a).issued[k].fate.Saved? || IsPending(Step(env, w, a), k)
  {
    hide IsProper, Load, EntryOf;
    var after := Step(env, w, a);
    if !w.issued[k].fate.Saved? {
      var p: nat :| At(w, p) == Issued(k);
      assert HoldsLock(At(w, p));
      assert !(a.Save? && a.p == p) ==> At(after, p) == Issued(k);
    }
  }

  lemma ProperStays(env: Env, w: World, a: Action, k: nat)
    requires Enabled(w, a) && k < |w.issued|
    ensures k < |Step(env, w, a).issued| && IsProper(env, Step(env, w, a).issued[k]) == IsProper(env, w.issued[k])
    ensures RefreshAt(env, Step(env, w, a).issued[k]) == RefreshAt(env, w.issued[k])
    ensures w.clock <= Step(env, w, a).clock
  {
    hide Load, EntryOf, Trim;
  }

  lemma SmoothGrowth(env: Env, w: World, a: Action)
    requires Enabled(w, a) && Smooth(env, w, a)
    ensures var after := Step(env, w, a);
            && |after.issued| == |w.issued| + (if a.Issue? then 1 else 0)
            && (a.Issue? ==> IsProper(env, after.issued[|w.issued|]) && At(after, a.p) == Issued(|w.issued|))
  {
    hide Load, EntryOf, IsProper;
  }

  lemma SmoothStep(env: Env, w: World, a: Action)
    requires Inv(env, w) && SmoothInv(env, w) && Enabled(w, a) && Smooth(env, w, a)
    ensures SmoothInv(env, Step(env, w, a))
  {
    hide IsProper, RefreshAt, Load, EntryOf, Step, Enabled, Smooth, LockInv, FreshInv, TokenInv, TimeInv;
    var after := Step(env, w, a);
    SmoothGrowth(env, w, a);
    forall k: nat | k < |w.issued|
      ensures IsProper(env, after.issued[k]) && (after.issued[k].fate.Saved? || IsPending(after, k))
      ensures k < |after.issued| - 1 ==> RefreshAt(env, after.issued[k]) <= after.clock
    {
      ProperStays(env, w, a, k);
      PendingStays(env, w, a, k);
      if a.Issue? {
        IssueFindsAllStored(env, w, a, k);
      }
    }
  }

  lemma {:induction false} SmoothRun(env: Env, states: seq<World>, steps: seq<Action>, n: nat)
    requires IsRun(env, states, steps) && n < |states|
    requires forall j :: 0 <= j < |steps| ==> Smooth(env, states[j], steps[j])
    ensures SmoothInv(env, states[n])
    decreases n
  {
    hide Inv, Step, Enabled, Smooth, IsProper;
    if n > 0 {
      SmoothRun(env, states, steps, n - 1);
      RunKeepsInv(env, states, steps, n - 1);
      hide SmoothInv;
      SmoothStep(env, states[n - 1], steps[n - 1]);
    }
  }

  /**
   From a cold or expired cache, any number of callers in any interleaving: until the first
   token's refresh point the token is issued once, and every caller that returned has that token.
   */
  lemma OneIssuanceForAll(env: Env, states: seq<World>, steps: seq<Action>, n: nat, r: nat)
    requires IsRun(env, states, steps) && n < |states| && r < |states[n].returned|
    requires forall j :: 0 <= j < |steps| ==> Smooth(env, states[j], steps[j])
    requires |states[n].issued| > 0 ==> states[n].clock < RefreshAt(env, states[n].issued[0])
    ensures |states[n].issued| == 1 && states[n].returned[r] == states[n].issued[0].token
  {
    SmoothRun(env, states, steps, n);
    ReturnedTokensWereIssued(env, states, steps, n, r);
    hide IsRun, Smooth, RefreshAt, IsProper;
  }
}
