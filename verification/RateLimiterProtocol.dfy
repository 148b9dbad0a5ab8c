/**
 The limiter as a concurrent protocol (brokers/kis_rate_limiter.py): any number of processes
 take the lock, read, replace the file, sync it and release, with a crash possible between any
 two steps, a power loss that loses an unsynced rename, and a wall clock that may step back.
 */
module RateLimiterProtocol {
  import opened Wrappers
  import opened RateLimiter

  type Proc = nat

  /** One rename of the state file: the slot it records and what it was computed from. */
  datatype Write = Write(category: Category, stamp: int, interval: int, now: int)

  datatype Pc =
    | Locked(category: Category, interval: int)
    | Loaded(category: Category, interval: int, seen: Stamps)
    | Replaced(write: Write)
    | Synced(write: Write)

  /**
   `file` is what readers see and `durable` what is sure to survive a power loss.  `written` lists
   the renames that `file` reflects, the first `syncedCount` of them durably; `granted` holds
   the indices in `written` of the waits that returned normally, in the order they returned.
   */
  datatype Sys = Sys(
    file: Stamps, durable: Stamps, holder: Option<Proc>, pcs: map<Proc, Pc>,
    written: seq<Write>, syncedCount: nat, granted: seq<nat>)

  const INIT := Sys(map[], map[], None, map[], [], 0, [])

  datatype Action =
    | Acquire(p: Proc, category: Category, interval: int)
    | Load(p: Proc)
    | Replace(p: Proc, now: int, horizon: int)
    | Sync(p: Proc)
    | Return(p: Proc)
    | Abandon(p: Proc)
    | PowerLoss(kept: nat, found: Stamps)

  /** When an action can happen. */
  predicate Enabled(s: Sys, a: Action) {
    match a
    case Acquire(p, c, interval) => s.holder == None && p !in s.pcs && interval > 0
    case Load(p) => p in s.pcs && s.pcs[p].Locked?
    case Replace(p, now, horizon) =>
      p in s.pcs && s.pcs[p].Loaded?
      && Decide(s.pcs[p].seen, s.pcs[p].category, s.pcs[p].interval, now, horizon).Slot?
    case Sync(p) => p in s.pcs && s.pcs[p].Replaced?
    case Return(p) => p in s.pcs && s.pcs[p].Synced? && |s.written| > 0
    case Abandon(p) => p in s.pcs && s.holder == Some(p)
    case PowerLoss(kept, found) => s.syncedCount <= kept <= |s.written| && Reflects(found, s.written[..kept])
  }

  /**
   What it does.  A refusal, an I/O error and a crash all abandon the call and free the lock.  A
   power loss keeps every synced rename and any number of the ones after it.
   */
  function Next(s: Sys, a: Action): Sys
    requires Enabled(s, a)
  {
    match a
    case Acquire(p, c, interval) => s.(holder := Some(p), pcs := s.pcs[p := Locked(c, interval)])
    case Load(p) => s.(pcs := s.pcs[p := Loaded(s.pcs[p].category, s.pcs[p].interval, s.file)])
    case Replace(p, now, horizon) =>
      var pc := s.pcs[p];
      var w := Write(pc.category, Decide(pc.seen, pc.category, pc.interval, now, horizon).stamp, pc.interval, now);
      s.(file := pc.seen[w.category := At(w.stamp)], written := s.written + [w], pcs := s.pcs[p := Replaced(w)])
    case Sync(p) =>
      s.(durable := s.file, syncedCount := |s.written|, pcs := s.pcs[p := Synced(s.pcs[p].write)])
    case Return(p) =>
      s.(holder := None, pcs := s.pcs - {p}, granted := s.granted + [|s.written| - 1])
    case Abandon(p) => s.(holder := None, pcs := s.pcs - {p})
    case PowerLoss(kept, found) =>
      s.(file := found, durable := found, written := s.written[..kept], syncedCount := kept,
         holder := None, pcs := map[])
  }

  // ---------------------------------------------------------- What is recorded

  /** The latest slot recorded for a category. */
  function LastStamp(ws: seq<Write>, c: Category): Option<int> {
    if ws == [] then None
    else if ws[|ws| - 1].category == c then Some(ws[|ws| - 1].stamp)
    else LastStamp(ws[..|ws| - 1], c)
  }

  predicate Reflects(file: Stamps, ws: seq<Write>) {
    forall c: Category :: (c in file <==> LastStamp(ws, c).Some?) &&
                              (c in file ==> file[c] == At(LastStamp(ws, c).value))
  }

  /** A write takes the next free slot after the ones before it. */
  predicate TakesNextSlot(before: seq<Write>, w: Write) {
    && w.interval > 0
    && match LastStamp(before, w.category)
       case None => w.stamp == w.now
       case Some(last) => w.stamp == (if w.now - last < w.interval then last + w.interval else w.now)
  }

  ghost predicate Chain(ws: seq<Write>) {
    forall k :: 0 <= k < |ws| ==> TakesNextSlot(ws[..k], ws[k])
  }

  /** Who may be where: only the lock holder is past Idle, and it has seen the current file. */
  ghost predicate LockDiscipline(s: Sys) {
    forall p :: p in s.pcs ==>
      && s.holder == Some(p)
      && (s.pcs[p].Locked? || s.pcs[p].Loaded? ==> s.pcs[p].interval > 0)
      && (s.pcs[p].Loaded? ==> s.pcs[p].seen == s.file)
      && (s.pcs[p].Synced? ==> s.syncedCount == |s.written| > 0)
      && (s.pcs[p].Synced? || s.pcs[p].Replaced? ==>
            s.written != [] && (forall k :: 0 <= k < |s.granted| ==> s.granted[k] < |s.written| - 1))
  }

  ghost predicate Inv(s: Sys) {
    && s.syncedCount <= |s.written|
    && Chain(s.written)
    && Reflects(s.file, s.written)
    && Reflects(s.durable, s.written[..s.syncedCount])
    && LockDiscipline(s)
    && (forall k :: 0 <= k < |s.granted| ==> s.granted[k] < s.syncedCount)
    && (forall j, k :: 0 <= j < k < |s.granted| ==> s.granted[j] < s.granted[k])
  }

  lemma ReflectsAppend(file: Stamps, ws: seq<Write>, w: Write)
    requires Reflects(file, ws)
    ensures Reflects(file[w.category := At(w.stamp)], ws + [w])
  {
    assert (ws + [w])[..|ws|] == ws;
  }

  lemma ChainAppend(ws: seq<Write>, w: Write)
    requires Chain(ws) && TakesNextSlot(ws, w)
    ensures Chain(ws + [w])
  {
    hide TakesNextSlot;
    forall k | 0 <= k < |ws + [w]| ensures TakesNextSlot((ws + [w])[..k], (ws + [w])[k]) {
      if k < |ws| {
        assert (ws + [w])[..k] == ws[..k];
      } else {
        assert (ws + [w])[..k] == ws;
      }
    }
  }

  lemma ChainPrefix(ws: seq<Write>, n: nat)
    requires Chain(ws) && n <= |ws|
    ensures Chain(ws[..n])
  {
    hide TakesNextSlot;
    forall k | 0 <= k < n ensures TakesNextSlot(ws[..n][..k], ws[..n][k]) {
      assert ws[..n][..k] == ws[..k];
    }
  }

  lemma DecisionTakesNextSlot(file: Stamps, ws: seq<Write>, c: Category, interval: int, now: int, horizon: int)
    requires Reflects(file, ws) && interval > 0
    ensures var d := Decide(file, c, interval, now, horizon);
            d.Slot? ==> TakesNextSlot(ws, Write(c, d.stamp, interval, now))
  {
  }

  lemma ReplaceKeepsInv(s: Sys, p: Proc, now: int, horizon: int)
    requires Inv(s) && Enabled(s, Replace(p, now, horizon))
    ensures Inv(Next(s, Replace(p, now, horizon)))
  {
    hide Decide, TakesNextSlot, Reflects;
    var pc := s.pcs[p];
    var s' := Next(s, Replace(p, now, horizon));
    var w := s'.pcs[p].write;
    DecisionTakesNextSlot(s.file, s.written, pc.category, pc.interval, now, horizon);
    ChainAppend(s.written, w);
    ReflectsAppend(s.file, s.written, w);
    assert s'.written[..s.syncedCount] == s.written[..s.syncedCount];
  }

  /** Every step of every process, every crash and every power loss keeps the invariant. */
  lemma StepKeepsInv(s: Sys, a: Action)
    requires Inv(s) && Enabled(s, a)
    ensures Inv(Next(s, a))
  {
    match a
    case Replace(p, now, horizon) =>
      ReplaceKeepsInv(s, p, now, horizon);
    case PowerLoss(kept, found) =>
      hide Decide, Chain, Reflects;
      ChainPrefix(s.written, kept);
      assert s.written[..kept][..kept] == s.written[..kept];
    case _ =>
      hide Decide, Chain, Reflects;
      assert s.written[..|s.written|] == s.written;
  }

  // ------------------------------------------------------------------- Runs

  ghost predicate IsRun(states: seq<Sys>, actions: seq<Action>) {
    && |states| == |actions| + 1
    && states[0] == INIT
    && forall k :: 0 <= k < |actions| ==> Enabled(states[k], actions[k]) && states[k + 1] == Next(states[k], actions[k])
  }

  lemma {:induction false} RunKeepsInv(states: seq<Sys>, actions: seq<Action>, k: nat)
    requires IsRun(states, actions) && k < |states|
    ensures Inv(states[k])
    decreases k
  {
    hide Inv, Next, Enabled;
    if k == 0 {
      InitInv();
    } else {
      RunKeepsInv(states, actions, k - 1);
      StepKeepsInv(states[k - 1], actions[k - 1]);
    }
  }

  lemma InitInv()
    ensures Inv(INIT)
  {
  }

  // ---------------------------------------------------------------- Spacing

  lemma {:induction false} LaterSlots(ws: seq<Write>, i: nat, n: nat)
    requires Chain(ws) && i < n <= |ws|
    ensures LastStamp(ws[..n], ws[i].category).Some? && ws[i].stamp <= LastStamp(ws[..n], ws[i].category).value
  {
    var w := ws[n - 1];
    assert ws[..n][..n - 1] == ws[..n - 1];
    if i < n - 1 {
      LaterSlots(ws, i, n - 1);
      assert TakesNextSlot(ws[..n - 1], w);
    }
  }

  /** Any later slot of a category is a full interval of its own after any earlier one. */
  lemma SlotsAreSpaced(ws: seq<Write>, i: nat, j: nat)
    requires Chain(ws) && i < j < |ws| && ws[i].category == ws[j].category
    ensures ws[i].stamp + ws[j].interval <= ws[j].stamp
  {
    LaterSlots(ws, i, j);
    assert TakesNextSlot(ws[..j], ws[j]);
  }

  /**
   Safety over every run: two waits of one category that returned normally hold slots at least
   the later one's interval apart, whatever crashed, was lost or stepped back in between.
   */
  lemma GrantedSlotsAreSpaced(states: seq<Sys>, actions: seq<Action>, i: nat, j: nat)
    requires IsRun(states, actions)
    requires var s := states[|states| - 1]; i < j < |s.granted|
    ensures var s := states[|states| - 1];
            && s.granted[i] < s.granted[j] < |s.written|
            && var wi, wj := s.written[s.granted[i]], s.written[s.granted[j]];
               wi.category == wj.category ==> wi.stamp + wj.interval <= wj.stamp
  {
    RunKeepsInv(states, actions, |states| - 1);
    var s := states[|states| - 1];
    if s.written[s.granted[i]].category == s.written[s.granted[j]].category {
      SlotsAreSpaced(s.written, s.granted[i], s.granted[j]);
    }
  }

  /** A category's slot recorded in a prefix of the writes is no later than the one recorded in more of them. */
  lemma {:induction false} PrefixStamp(ws: seq<Write>, m: nat, n: nat, c: Category)
    requires Chain(ws) && m <= n <= |ws| && LastStamp(ws[..m], c).Some?
    ensures LastStamp(ws[..n], c).Some? && LastStamp(ws[..m], c).value <= LastStamp(ws[..n], c).value
    decreases n
  {
    if m < n {
      PrefixStamp(ws, m, n - 1, c);
      assert ws[..n][..n - 1] == ws[..n - 1] && ws[..n][n - 1] == ws[n - 1];
      assert TakesNextSlot(ws[..n - 1], ws[n - 1]);
      hide Chain;
    }
  }

  /** No step lowers a category's recorded slot, except that a power loss may fall back as far as the durable one. */
  lemma RecordedSlotNeverFalls(s: Sys, a: Action, c: Category)
    requires Inv(s) && Enabled(s, a) && c in (if a.PowerLoss? then s.durable else s.file)
    ensures var s', from := Next(s, a), if a.PowerLoss? then s.durable else s.file;
            c in s'.file && from[c].At? && s'.file[c].At? && from[c].time <= s'.file[c].time
    ensures a.PowerLoss? && c in Next(s, a).file
            ==> c in s.file && s.file[c].At? && Next(s, a).file[c].time <= s.file[c].time
  {
    if a.Replace? {
      hide Inv;
      ReflectedStamp(s, c);
      SlotIsSpaced(s.file, s.pcs[a.p].category, s.pcs[a.p].interval, a.now, a.horizon);
    } else if a.PowerLoss? {
      PrefixStamp(s.written, s.syncedCount, a.kept, c);
      PrefixStamp(s.written, a.kept, |s.written|, c);
      assert s.written[..|s.written|] == s.written;
      hide Chain, LockDiscipline;
    }
  }

  lemma ReflectedStamp(s: Sys, c: Category)
    requires Inv(s) && c in s.file
    ensures s.file[c].At?
    ensures forall p :: p in s.pcs && s.pcs[p].Loaded? ==> s.pcs[p].seen == s.file && s.pcs[p].interval > 0
  {
  }

  /** A granted slot survives every later step, power loss included. */
  lemma GrantedSlotsSurvive(s: Sys, a: Action, k: nat)
    requires Inv(s) && Enabled(s, a) && k < |s.granted|
    ensures var s' := Next(s, a);
            k < |s'.granted| && s'.granted[k] == s.granted[k] < |s.written|
            && s.granted[k] < |s'.written| && s'.written[s.granted[k]] == s.written[s.granted[k]]
  {
    hide Decide, Reflects, Chain;
  }

  /**
   The steps leave nothing out: a free lock can be taken, whoever is at work can give up or crash,
   which frees it, and the power can fail at any moment, with every rename kept or only the synced ones.
   */
  lemma AnythingCanHappen(s: Sys, p: Proc, c: Category)
    requires Inv(s)
    ensures s.holder == None ==> Enabled(s, Acquire(p, c, 1))
    ensures p in s.pcs ==> Enabled(s, Abandon(p)) && Next(s, Abandon(p)).holder == None
    ensures p in s.pcs && !s.pcs[p].Loaded? ==> Enabled(s, Load(p)) || Enabled(s, Sync(p)) || Enabled(s, Return(p))
    ensures Enabled(s, PowerLoss(|s.written|, s.file)) && Enabled(s, PowerLoss(s.syncedCount, s.durable))
  {
    hide Chain, Reflects;
    assert s.written[..|s.written|] == s.written;
  }

  // ------------------------------------------------------------- Rate per window

  function Count(xs: seq<int>, from: int, to: int): nat {
    if xs == [] then 0 else Count(xs[..|xs| - 1], from, to) + (if from <= xs[|xs| - 1] <= to then 1 else 0)
  }

  lemma {:induction false} CountIsHowMany(xs: seq<int>, from: int, to: int)
    ensures Count(xs, from, to) == |set k | 0 <= k < |xs| && from <= xs[k] <= to|
  {
    if xs != [] {
      var n := |xs| - 1;
      var rest := xs[..n];
      CountIsHowMany(rest, from, to);
      var before := set k | 0 <= k < n && from <= rest[k] <= to;
      assert (set k | 0 <= k < |xs| && from <= xs[k] <= to)
             == if from <= xs[n] <= to then before + {n} else before;
    }
  }

  ghost predicate SpacedBy(xs: seq<int>, gap: int) {
    forall i, j :: 0 <= i < j < |xs| ==> xs[i] + gap <= xs[j]
  }

  lemma OneMore(n: int, gap: int)
    ensures n * gap == (n - 1) * gap + gap
  {
  }

  lemma {:induction false} LastInWindow(xs: seq<int>, gap: int, from: int, to: int) returns (x: int)
    requires SpacedBy(xs, gap) && gap > 0 && Count(xs, from, to) > 0
    ensures x in xs && x <= to && from + (Count(xs, from, to) - 1) * gap <= x
  {
    var rest, last := xs[..|xs| - 1], xs[|xs| - 1];
    if from <= last <= to {
      if Count(rest, from, to) > 0 {
        x := LastInWindow(rest, gap, from, to);
        OneMore(Count(rest, from, to), gap);
      }
      x := last;
    } else {
      x := LastInWindow(rest, gap, from, to);
    }
  }

  /** The slots a category was granted, in order. */
  function GrantedStamps(s: Sys, c: Category, n: nat): seq<int>
    requires n <= |s.granted| && forall k :: 0 <= k < n ==> s.granted[k] < |s.written|
  {
    if n == 0 then []
    else
      var w := s.written[s.granted[n - 1]];
      GrantedStamps(s, c, n - 1) + (if w.category == c then [w.stamp] else [])
  }

  lemma {:induction false} GrantedStampsFrom(s: Sys, c: Category, n: nat, x: int) returns (k: nat)
    requires n <= |s.granted| && (forall k :: 0 <= k < n ==> s.granted[k] < |s.written|)
    requires x in GrantedStamps(s, c, n)
    ensures k < n && s.written[s.granted[k]].category == c && s.written[s.granted[k]].stamp == x
  {
    var w := s.written[s.granted[n - 1]];
    if w.category == c && w.stamp == x {
      k := n - 1;
    } else {
      k := GrantedStampsFrom(s, c, n - 1, x);
    }
  }

  lemma LastGrantIsFar(s: Sys, c: Category, n: nat, gap: int, x: int)
    requires Inv(s) && 0 < n <= |s.granted| && x in GrantedStamps(s, c, n - 1)
    requires s.granted[n - 1] < |s.written| && s.written[s.granted[n - 1]].category == c
    requires forall k :: 0 <= k < |s.written| && s.written[k].category == c ==> gap <= s.written[k].interval
    ensures x + gap <= s.written[s.granted[n - 1]].stamp
  {
    hide Reflects, LockDiscipline, GrantedStamps;
    var k := GrantedStampsFrom(s, c, n - 1, x);
    SlotsAreSpaced(s.written, s.granted[k], s.granted[n - 1]);
  }

  lemma {:induction false} GrantedStampsSpaced(s: Sys, c: Category, n: nat, gap: int)
    requires Inv(s) && n <= |s.granted|
    requires forall k :: 0 <= k < |s.written| && s.written[k].category == c ==> gap <= s.written[k].interval
    ensures SpacedBy(GrantedStamps(s, c, n), gap)
  {
    hide Reflects, LockDiscipline;
    if n > 0 {
      assert s.granted[n - 1] < |s.written|;
      hide Inv;
      GrantedStampsSpaced(s, c, n - 1, gap);
      var w := s.written[s.granted[n - 1]];
      var xs := GrantedStamps(s, c, n - 1);
      if w.category == c {
        forall i | 0 <= i < |xs| ensures xs[i] + gap <= w.stamp {
          assert xs[i] in xs;
          LastGrantIsFar(s, c, n, gap, xs[i]);
        }
      }
    }
  }

  /** In any window of length W, at most W / interval + 1 slots of a category are ever granted. */
  lemma RateIsBounded(states: seq<Sys>, actions: seq<Action>, c: Category, gap: int, from: int, to: int)
    requires IsRun(states, actions) && gap > 0 && from <= to
    requires var s := states[|states| - 1];
             forall k :: 0 <= k < |s.written| && s.written[k].category == c ==> gap <= s.written[k].interval
    ensures var s := states[|states| - 1];
            && (forall k :: 0 <= k < |s.granted| ==> s.granted[k] < |s.written|)
            && Count(GrantedStamps(s, c, |s.granted|), from, to) <= (to - from) / gap + 1
  {
    RunKeepsInv(states, actions, |states| - 1);
    var s := states[|states| - 1];
    GrantedStampsSpaced(s, c, |s.granted|, gap);
    WindowCount(GrantedStamps(s, c, |s.granted|), gap, from, to);
  }

  lemma WindowCount(xs: seq<int>, gap: int, from: int, to: int)
    requires SpacedBy(xs, gap) && gap > 0 && from <= to
    ensures Count(xs, from, to) <= (to - from) / gap + 1
  {
    if Count(xs, from, to) > 0 {
      var x := LastInWindow(xs, gap, from, to);
      DivideOut(Count(xs, from, to) - 1, gap, to - from);
    }
  }

  lemma Scaled(x: int, y: int, gap: int)
    requires x <= y && gap > 0
    ensures x * gap <= y * gap
  {
  }

  lemma DivideOut(n: int, gap: int, width: int)
    requires gap > 0 && n * gap <= width
    ensures n <= width / gap
  {
    var q := width / gap;
    assert width < (q + 1) * gap;
    if n >= q + 1 {
      Scaled(q + 1, n, gap);
    }
  }

  // ------------------------------------------------- The queue and its horizon

  /** How many recorded slots of a category are still in the future. */
  function Queued(ws: seq<Write>, c: Category, now: int): nat {
    if ws == [] then 0
    else
      var w := ws[|ws| - 1];
      Queued(ws[..|ws| - 1], c, now) + (if w.category == c && w.stamp > now then 1 else 0)
  }

  /** The positions of those slots. */
  function QueuedAt(ws: seq<Write>, c: Category, now: int): set<int> {
    set k | 0 <= k < |ws| && ws[k].category == c && now < ws[k].stamp
  }

  lemma {:induction false} QueuedIsHowMany(ws: seq<Write>, c: Category, now: int)
    ensures Queued(ws, c, now) == |QueuedAt(ws, c, now)|
  {
    if ws != [] {
      QueuedIsHowMany(ws[..|ws| - 1], c, now);
      OneMorePosition(ws, c, now);
      hide QueuedAt;
    }
  }

  lemma OneMorePosition(ws: seq<Write>, c: Category, now: int)
    requires ws != []
    ensures var n := |ws| - 1;
            var before := QueuedAt(ws[..n], c, now);
            n !in before
            && QueuedAt(ws, c, now) == if ws[n].category == c && now < ws[n].stamp then before + {n} else before
  {
  }

  /**
   If the clock is not behind any of its earlier readings, k slots in the future put the last
   one at most k intervals ahead.
   */
  lemma {:induction false} QueueReach(ws: seq<Write>, c: Category, now: int, interval: int)
    requires Chain(ws) && interval > 0
    requires forall k :: 0 <= k < |ws| ==> ws[k].now <= now && (ws[k].category == c ==> ws[k].interval <= interval)
    ensures LastStamp(ws, c).Some? ==> LastStamp(ws, c).value <= now + Queued(ws, c, now) * interval
  {
    if ws != [] {
      var rest, w := ws[..|ws| - 1], ws[|ws| - 1];
      ChainPrefix(ws, |ws| - 1);
      QueueReach(rest, c, now, interval);
      assert TakesNextSlot(ws[..|ws| - 1], ws[|ws| - 1]);
      OneMore(Queued(rest, c, now) + 1, interval);
      NonNegativeProduct(Queued(ws, c, now), interval);
    }
  }

  lemma NonNegativeProduct(n: nat, interval: int)
    requires interval > 0
    ensures n * interval >= 0
  {
  }

  lemma {:induction false} StampsNotNegative(ws: seq<Write>, c: Category)
    requires Chain(ws) && forall k :: 0 <= k < |ws| ==> ws[k].now >= 0
    ensures LastStamp(ws, c).Some? ==> LastStamp(ws, c).value >= 0
  {
    if ws != [] {
      ChainPrefix(ws, |ws| - 1);
      StampsNotNegative(ws[..|ws| - 1], c);
      assert TakesNextSlot(ws[..|ws| - 1], ws[|ws| - 1]);
    }
  }

  /**
   The corruption guard never fires on the limiter's own behaviour: while no more callers are
   queued than the believed depth, the holder gets a slot and sleeps at most one interval more
   than the queue ahead of it.
   */
  lemma HorizonAdmitsTheQueue(s: Sys, p: Proc, now: int, depth: nat, skew: nat)
    requires Inv(s) && p in s.pcs && s.pcs[p].Loaded?
    requires var c, interval := s.pcs[p].category, s.pcs[p].interval;
             && (forall k :: 0 <= k < |s.written| ==>
                   (0 <= s.written[k].now <= now && (s.written[k].category == c ==> s.written[k].interval <= interval)))
             && Queued(s.written, c, now) <= depth
    ensures var pc := s.pcs[p];
            var d := Decide(pc.seen, pc.category, pc.interval, now, FutureHorizon(pc.interval, depth, skew));
            && d.Slot?
            && d.slept <= (Queued(s.written, pc.category, now) + 1) * pc.interval
  {
    var c, interval := s.pcs[p].category, s.pcs[p].interval;
    var k := Queued(s.written, c, now);
    QueueReach(s.written, c, now, interval);
    StampsNotNegative(s.written, c);
    Scaled(k, depth, interval);
    OneMore(k + 1, interval);
    NonNegativeProduct(k + 1, interval);
    ReflectedLast(s, p);
  }

  lemma ReflectedLast(s: Sys, p: Proc)
    requires Inv(s) && p in s.pcs && s.pcs[p].Loaded?
    ensures var pc := s.pcs[p];
            && pc.interval > 0
            && (pc.category in pc.seen <==> LastStamp(s.written, pc.category).Some?)
            && (pc.category in pc.seen ==> pc.seen[pc.category] == At(LastStamp(s.written, pc.category).value))
  {
  }

  /** n callers reserving at one instant. */
  function Burst(c: Category, interval: int, now: int, n: nat): seq<Write>
  {
    if n == 0 then [] else Burst(c, interval, now, n - 1) + [Write(c, now + (n - 1) * interval, interval, now)]
  }

  lemma {:induction false} BurstIsAChain(c: Category, interval: int, now: int, n: nat)
    requires interval > 0
    ensures Chain(Burst(c, interval, now, n))
    ensures LastStamp(Burst(c, interval, now, n), c) == if n > 0 then Some(now + (n - 1) * interval) else None
  {
    hide TakesNextSlot;
    if n > 0 {
      BurstIsAChain(c, interval, now, n - 1);
      var rest, w := Burst(c, interval, now, n - 1), Write(c, now + (n - 1) * interval, interval, now);
      BurstStep(rest, w, n, now);
      ChainAppend(rest, w);
      assert (rest + [w])[..|rest|] == rest;
    }
  }

  lemma BurstStep(rest: seq<Write>, w: Write, n: nat, now: int)
    requires n > 0 && w.interval > 0 && w.now == now && w.stamp == now + (n - 1) * w.interval
    requires LastStamp(rest, w.category) == if n > 1 then Some(now + (n - 2) * w.interval) else None
    ensures TakesNextSlot(rest, w)
  {
    hide LastStamp;
    if n > 1 {
      OneMore(n - 1, w.interval);
      NonNegativeProduct(n - 2, w.interval);
    }
  }

  /**
   The depth is exact: after n callers reserve at one instant, the next is refused as corrupt
   precisely when the n - 1 queued intervals exceed the horizon.
   */
  lemma HorizonIsTight(file: Stamps, c: Category, interval: int, now: int, n: nat, depth: nat, skew: nat)
    requires interval > 0 && now >= 0 && n > 0 && Reflects(file, Burst(c, interval, now, n))
    ensures Decide(file, c, interval, now, FutureHorizon(interval, depth, skew)) == Reject(FutureTimestamp)
            <==> (n - 1) * interval > depth * interval + skew
  {
    BurstIsAChain(c, interval, now, n);
    NonNegativeProduct(n - 1, interval);
    NonNegativeProduct(depth, interval);
  }
}
