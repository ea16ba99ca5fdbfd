/** src/mutex.cpp: `lock`, `try_lock`, `unlock` and `RequestReset`, and the statistics they keep.
    Each completed call is one step; a lock call that blocks is two. */
module MutexStats {
  import opened Options

  const TWO64: nat := 0x1_0000_0000_0000_0000
  const UINT64_MAX: nat := TWO64 - 1

  type Thread = nat

  datatype Stats = Stats(numLocks: nat, numContendedLocks: nat, totalLockWaitTicks: nat,
                         minLockWaitTicks: nat, maxLockWaitTicks: nat, numSuccessfulTryLocks: nat)

  const NO_STATS := Stats(0, 0, 0, UINT64_MAX, 0, 0)

  datatype State = State(holder: Option<Thread>, stats: Stats, reset: bool, everLocked: bool, numTryLocks: nat)

  const START := State(None, NO_STATS, false, false, 0)

  /** `++` on a 64-bit counter. */
  function Inc(n: nat): nat {
    (n + 1) % TWO64
  }

  /** The exchange of the reset flag, and `Reset` if it was set. */
  function TakeReset(s: State): State {
    if s.reset then s.(reset := false, stats := NO_STATS, numTryLocks := 0) else s
  }

  function AddWait(s: Stats, wait: nat): Stats {
    s.(totalLockWaitTicks := (s.totalLockWaitTicks + wait) % TWO64,
       minLockWaitTicks := if wait < s.minLockWaitTicks then wait else s.minLockWaitTicks,
       maxLockWaitTicks := if wait > s.maxLockWaitTicks then wait else s.maxLockWaitTicks)
  }

  function CountLock(s: Stats, contended: bool): Stats {
    s.(numLocks := Inc(s.numLocks),
       numContendedLocks := if contended then Inc(s.numContendedLocks) else s.numContendedLocks)
  }

  /** A lock call gets the mutex: it is counted, then a pending reset wipes the counts, then the
      wait is added. */
  function Locked(s: State, t: Thread, contended: bool, wait: nat): State {
    var u := TakeReset(s.(holder := Some(t), stats := CountLock(s.stats, contended)));
    u.(everLocked := true, stats := AddWait(u.stats, wait))
  }

  function Tried(s: State, t: Thread): State {
    var u := if s.holder.None?
             then s.(holder := Some(t),
                     stats := s.stats.(numSuccessfulTryLocks := Inc(s.stats.numSuccessfulTryLocks)))
             else s;
    TakeReset(u.(numTryLocks := Inc(u.numTryLocks)))
  }

  class Mutex {
    var holder: Option<Thread>
    var numLocks: nat
    var numContendedLocks: nat
    var totalLockWaitTicks: nat
    var minLockWaitTicks: nat
    var maxLockWaitTicks: nat
    var numSuccessfulTryLocks: nat
    var reset: bool
    var everLocked: bool
    var numTryLocks: nat

    ghost function S(): State
      reads this
    {
      State(holder,
            Stats(numLocks, numContendedLocks, totalLockWaitTicks,
                  minLockWaitTicks, maxLockWaitTicks, numSuccessfulTryLocks),
            reset, everLocked, numTryLocks)
    }

    constructor ()
      ensures S() == START
    {
      holder, reset, everLocked, numTryLocks := None, false, false, 0;
      numLocks, numContendedLocks, totalLockWaitTicks := 0, 0, 0;
      minLockWaitTicks, maxLockWaitTicks, numSuccessfulTryLocks := UINT64_MAX, 0, 0;
    }

    method ClearStats()
      modifies this
      ensures S() == old(S()).(stats := NO_STATS)
    {
      numLocks, numContendedLocks, totalLockWaitTicks := 0, 0, 0;
      minLockWaitTicks, maxLockWaitTicks, numSuccessfulTryLocks := UINT64_MAX, 0, 0;
    }

    method RequestReset()
      modifies this
      ensures S() == old(S()).(stats := NO_STATS, reset := true)
    {
      ClearStats();
      reset := true;
    }

    method ExchangeReset()
      modifies this
      ensures S() == TakeReset(old(S()))
    {
      if reset {
        reset := false;
        ClearStats();
        numTryLocks := 0;
      }
    }

    /** A lock call from its first try to its return. `atOnce` says whether that try succeeded,
        `elapsed` is the time the call, or its blocking part, took by the tick counter. */
    method Lock(t: Thread, atOnce: bool, assumeFreeUncontendedLocks: bool, elapsed: nat)
      requires holder.None? && elapsed <= UINT64_MAX
      modifies this
      ensures S() == Locked(old(S()), t, !atOnce, if assumeFreeUncontendedLocks && atOnce then 0 else elapsed)
    {
      var lockWaitTicks := 0;
      holder := Some(t);
      if !atOnce {
        numContendedLocks := Inc(numContendedLocks);
        if assumeFreeUncontendedLocks {
          lockWaitTicks := lockWaitTicks + elapsed;
        }
      }
      numLocks := Inc(numLocks);
      if !assumeFreeUncontendedLocks {
        lockWaitTicks := lockWaitTicks + elapsed;
      }
      ExchangeReset();
      everLocked := true;
      RecordWait(lockWaitTicks);
    }

    /** The end of `lock`. */
    method RecordWait(wait: nat)
      modifies this
      ensures S() == old(S()).(stats := AddWait(old(S()).stats, wait))
    {
      totalLockWaitTicks := (totalLockWaitTicks + wait) % TWO64;
      if wait < minLockWaitTicks {
        minLockWaitTicks := wait;
      }
      if wait > maxLockWaitTicks {
        maxLockWaitTicks := wait;
      }
    }

    method TryLock(t: Thread) returns (succeeded: bool)
      modifies this
      ensures succeeded == old(holder).None?
      ensures S() == Tried(old(S()), t)
    {
      succeeded := holder.None?;
      if succeeded {
        holder := Some(t);
        numSuccessfulTryLocks := Inc(numSuccessfulTryLocks);
      }
      numTryLocks := Inc(numTryLocks);
      ExchangeReset();
    }

    method Unlock(t: Thread)
      requires holder == Some(t)
      modifies this
      ensures S() == old(S()).(holder := None)
    {
      holder := None;
    }
  }

  // ----- runs of many threads -----

  datatype Event =
    | LockAtOnce(t: Thread, wait: nat)
    | LockBlocks(t: Thread)
    | LockGranted(t: Thread, wait: nat)
    | TryLock(t: Thread)
    | Unlock(t: Thread)
    | RequestReset

  /** The mutex, and the threads blocked in a lock call. */
  datatype World = World(m: State, blocked: set<Thread>)

  predicate Enabled(w: World, e: Event) {
    match e
    case LockAtOnce(t, wait) => w.m.holder.None? && t !in w.blocked && wait <= UINT64_MAX
    case LockBlocks(t) => w.m.holder.Some? && w.m.holder != Some(t) && t !in w.blocked
    case LockGranted(t, wait) => w.m.holder.None? && t in w.blocked && wait <= UINT64_MAX
    case TryLock(t) => w.m.holder != Some(t) && t !in w.blocked
    case Unlock(t) => w.m.holder == Some(t)
    case RequestReset => true
  }

  function Next(w: World, e: Event): World {
    match e
    case LockAtOnce(t, wait) => w.(m := Locked(w.m, t, false, wait))
    case LockBlocks(t) => w.(blocked := w.blocked + {t})
    case LockGranted(t, wait) => World(Locked(w.m, t, true, wait), w.blocked - {t})
    case TryLock(t) => w.(m := Tried(w.m, t))
    case Unlock(t) => w.(m := w.m.(holder := None))
    case RequestReset => w.(m := w.m.(stats := NO_STATS, reset := true))
  }

  function Run(events: seq<Event>): World {
    if events == [] then World(START, {}) else Next(Run(events[..|events| - 1]), events[|events| - 1])
  }

  predicate Legal(events: seq<Event>) {
    events == [] ||
    (Legal(events[..|events| - 1]) && Enabled(Run(events[..|events| - 1]), events[|events| - 1]))
  }

  // ----- what the statistics stand for: the history, read off the events alone -----

  predicate GetsLock(e: Event) {
    e.LockAtOnce? || e.LockGranted?
  }

  /** A reset was asked for and no lock or try-lock call has completed since. */
  predicate Pending(events: seq<Event>) {
    events != [] &&
    var e := events[|events| - 1];
    e.RequestReset? || (!GetsLock(e) && !e.TryLock? && Pending(events[..|events| - 1]))
  }

  /** The waits of the lock calls since the last request for a reset. */
  function Waits(events: seq<Event>): seq<nat> {
    if events == [] then []
    else
      var e := events[|events| - 1];
      if e.RequestReset? then []
      else if GetsLock(e) then Waits(events[..|events| - 1]) + [e.wait]
      else Waits(events[..|events| - 1])
  }

  datatype Kind = LockCalls | ContendedLockCalls | SuccessfulTryLocks

  predicate Picks(kind: Kind, m: State, e: Event) {
    match kind
    case LockCalls => GetsLock(e)
    case ContendedLockCalls => e.LockGranted?
    case SuccessfulTryLocks => e.TryLock? && m.holder.None?
  }

  /** How many calls of a kind have completed since the last reset took effect;
      the call that makes it take effect is not among them. */
  function Count(events: seq<Event>, kind: Kind): nat {
    if events == [] then 0
    else
      var before, e := events[..|events| - 1], events[|events| - 1];
      if e.RequestReset? || (Pending(before) && (GetsLock(e) || e.TryLock?)) then 0
      else Count(before, kind) + if Picks(kind, Run(before).m, e) then 1 else 0
  }

  /** The same for try-lock calls, whose counter a request for a reset leaves alone at first. */
  function Tries(events: seq<Event>): nat {
    if events == [] then 0
    else
      var before, e := events[..|events| - 1], events[|events| - 1];
      if Pending(before) && (GetsLock(e) || e.TryLock?) then 0
      else Tries(before) + if e.TryLock? then 1 else 0
  }

  function Sum(s: seq<nat>): nat {
    if s == [] then 0 else Sum(s[..|s| - 1]) + s[|s| - 1]
  }

  function Least(s: seq<nat>): (n: nat)
    ensures forall i | 0 <= i < |s| :: n <= s[i]
    ensures n <= UINT64_MAX && (n < UINT64_MAX ==> n in s)
  {
    if s == [] then UINT64_MAX
    else if s[|s| - 1] < Least(s[..|s| - 1]) then s[|s| - 1] else Least(s[..|s| - 1])
  }

  function Greatest(s: seq<nat>): (n: nat)
    ensures forall i | 0 <= i < |s| :: s[i] <= n
    ensures n > 0 ==> n in s
  {
    if s == [] then 0
    else if s[|s| - 1] > Greatest(s[..|s| - 1]) then s[|s| - 1] else Greatest(s[..|s| - 1])
  }

  lemma IncMod(n: nat)
    ensures Inc(n % TWO64) == (n + 1) % TWO64
  {
  }

  lemma AddMod(n: nat, k: nat)
    ensures (n % TWO64 + k) % TWO64 == (n + k) % TWO64
  {
    var q := n / TWO64;
    assert n + k == q * TWO64 + (n % TWO64 + k);
  }

  /** What the history says, gathered. */
  datatype History = History(pending: bool, locks: nat, contended: nat, successes: nat, tries: nat, waits: seq<nat>)

  function HistoryOf(events: seq<Event>): History {
    History(Pending(events), Count(events, LockCalls), Count(events, ContendedLockCalls),
            Count(events, SuccessfulTryLocks), Tries(events), Waits(events))
  }

  /** Every statistic is what the history says, modulo 2^64 where it is a sum. */
  ghost predicate Tells(m: State, h: History) {
    && m.reset == h.pending
    && m.stats.numLocks == h.locks % TWO64
    && m.stats.numContendedLocks == h.contended % TWO64
    && m.stats.numSuccessfulTryLocks == h.successes % TWO64
    && m.numTryLocks == h.tries % TWO64
    && m.stats.totalLockWaitTicks == Sum(h.waits) % TWO64
    && m.stats.minLockWaitTicks == Least(h.waits)
    && m.stats.maxLockWaitTicks == Greatest(h.waits)
  }

  lemma WaitsAppend(s: seq<nat>, wait: nat)
    ensures Sum(s + [wait]) == Sum(s) + wait
    ensures Least(s + [wait]) == if wait < Least(s) then wait else Least(s)
    ensures Greatest(s + [wait]) == if wait > Greatest(s) then wait else Greatest(s)
  {
    assert (s + [wait])[..|s|] == s;
  }

  function LockHistory(h: History, contended: bool, wait: nat): History {
    if h.pending then History(false, 0, 0, 0, 0, [wait])
    else h.(locks := h.locks + 1, contended := h.contended + if contended then 1 else 0, waits := h.waits + [wait])
  }

  function TryHistory(h: History, success: bool): History {
    if h.pending then History(false, 0, 0, 0, 0, [])
    else h.(tries := h.tries + 1, successes := h.successes + if success then 1 else 0)
  }

  lemma LockTells(m: State, h: History, t: Thread, contended: bool, wait: nat)
    requires Agrees(m, h)
    ensures Agrees(Locked(m, t, contended, wait), LockHistory(h, contended, wait))
  {
    hide Sum, Least, Greatest;
    IncMod(h.locks);
    IncMod(h.contended);
    AddMod(Sum(h.waits), wait);
    WaitsAppend(h.waits, wait);
    assert h.pending ==> h.waits + [wait] == [wait];
  }

  lemma TryTells(m: State, h: History, t: Thread)
    requires Agrees(m, h)
    ensures Agrees(Tried(m, t), TryHistory(h, m.holder.None?))
  {
    IncMod(h.successes);
    IncMod(h.tries);
  }

  function NextHistory(h: History, m: State, e: Event): History {
    match e
    case LockAtOnce(_, wait) => LockHistory(h, false, wait)
    case LockGranted(_, wait) => LockHistory(h, true, wait)
    case TryLock(_) => TryHistory(h, m.holder.None?)
    case RequestReset => History(true, 0, 0, 0, h.tries, [])
    case _ => h
  }

  lemma HistoryNext(before: seq<Event>, e: Event)
    ensures HistoryOf(before + [e]) == NextHistory(HistoryOf(before), Run(before).m, e)
  {
    hide Run;
    assert (before + [e])[..|before|] == before;
    PendingIsFresh(before);
  }

  lemma {:induction false} PendingIsFresh(events: seq<Event>)
    ensures Pending(events) ==> Waits(events) == []
  {
    if events != [] {
      PendingIsFresh(events[..|events| - 1]);
    }
  }

  /** The state agrees with the history, and a state with a reset pending has no statistics. */
  ghost predicate Agrees(m: State, h: History) {
    Tells(m, h) && (h.pending ==> m.stats == NO_STATS && h.waits == [])
  }

  lemma OtherTells(m: State, h: History)
    requires Agrees(m, h)
    ensures Agrees(m.(holder := None), h)
    ensures Agrees(m.(stats := NO_STATS, reset := true), History(true, 0, 0, 0, h.tries, []))
  {
  }

  lemma {:induction false} StatsTellHistory(events: seq<Event>)
    requires Legal(events)
    ensures Agrees(Run(events).m, HistoryOf(events))
  {
    hide HistoryOf, Locked, Tried, Agrees, LockHistory, TryHistory;
    if events == [] {
      StartTells();
    } else {
      var before, e := events[..|events| - 1], events[|events| - 1];
      StatsTellHistory(before);
      assert events == before + [e];
      HistoryNext(before, e);
      var m, h := Run(before).m, HistoryOf(before);
      OtherTells(m, h);
      match e {
        case LockAtOnce(t, wait) => LockTells(m, h, t, false, wait);
        case LockGranted(t, wait) => LockTells(m, h, t, true, wait);
        case TryLock(t) => TryTells(m, h, t);
        case _ =>
      }
    }
  }

  lemma StartTells()
    ensures Agrees(START, HistoryOf([]))
  {
  }

  // ----- safety -----

  /** The blocked threads never hold the mutex, and only the holder's unlock lets it go. */
  lemma {:induction false} BlockedDoNotHold(events: seq<Event>)
    requires Legal(events)
    ensures var w := Run(events); w.m.holder.Some? ==> w.m.holder.value !in w.blocked
  {
    if events != [] {
      BlockedDoNotHold(events[..|events| - 1]);
    }
  }

  /** The thread inside, as the events tell it: the last that got the mutex and has not left. */
  function Inside(events: seq<Event>): set<Thread> {
    if events == [] then {}
    else
      var before, e := events[..|events| - 1], events[|events| - 1];
      match e
      case LockAtOnce(t, _) => Inside(before) + {t}
      case LockGranted(t, _) => Inside(before) + {t}
      case TryLock(t) => if Run(before).m.holder.None? then Inside(before) + {t} else Inside(before)
      case Unlock(t) => Inside(before) - {t}
      case _ => Inside(before)
  }

  /** At most one thread is inside. */
  lemma {:induction false} MutualExclusion(events: seq<Event>)
    requires Legal(events)
    ensures Inside(events) == match Run(events).m.holder case None => {} case Some(t) => {t}
  {
    if events != [] {
      MutualExclusion(events[..|events| - 1]);
    }
  }

  lemma {:induction false} CountsAreOrdered(events: seq<Event>)
    requires Legal(events)
    ensures Count(events, ContendedLockCalls) <= Count(events, LockCalls)
    ensures Count(events, LockCalls) <= |Waits(events)| <= Count(events, LockCalls) + 1
    ensures Count(events, SuccessfulTryLocks) <= Tries(events)
    ensures Pending(events) ==> Count(events, LockCalls) == 0 && Waits(events) == []
  {
    if events != [] {
      CountsAreOrdered(events[..|events| - 1]);
    }
  }

  lemma TimesMore(k: nat, a: nat, b: nat)
    requires a <= b
    ensures k * a <= k * b
  {
  }

  lemma BoundBelow(n: nat, least: nat, was: nat, sum: nat, last: nat)
    requires n * was <= sum && least <= was && least <= last
    ensures (n + 1) * least <= sum + last
  {
    TimesMore(n, least, was);
  }

  lemma BoundAbove(n: nat, most: nat, was: nat, sum: nat, last: nat)
    requires sum <= n * was && was <= most && last <= most
    ensures sum + last <= (n + 1) * most
  {
    TimesMore(n, was, most);
  }

  lemma {:induction false} SumBounds(s: seq<nat>)
    requires forall i | 0 <= i < |s| :: s[i] <= UINT64_MAX
    ensures |s| * Least(s) <= Sum(s) <= |s| * Greatest(s)
  {
    if s != [] {
      var before, last := s[..|s| - 1], s[|s| - 1];
      assert s == before + [last];
      hide Least, Greatest, Sum;
      SumBounds(before);
      WaitsAppend(before, last);
      BoundBelow(|before|, Least(s), Least(before), Sum(before), last);
      BoundAbove(|before|, Greatest(s), Greatest(before), Sum(before), last);
    }
  }

  lemma {:induction false} WaitsFit(events: seq<Event>)
    requires Legal(events)
    ensures forall i | 0 <= i < |Waits(events)| :: Waits(events)[i] <= UINT64_MAX
  {
    if events != [] {
      WaitsFit(events[..|events| - 1]);
    }
  }

  lemma WaitBounds(waits: seq<nat>, n: nat)
    requires n <= |waits| <= n + 1 && forall i | 0 <= i < |waits| :: waits[i] <= UINT64_MAX
    ensures n * Least(waits) <= Sum(waits) <= (n + 1) * Greatest(waits)
  {
    hide Least, Greatest, Sum;
    SumBounds(waits);
    TimesMore(Least(waits), n, |waits|);
    TimesMore(Greatest(waits), |waits|, n + 1);
  }

  lemma Wrapped(n: nat)
    ensures n % TWO64 <= n && (n < TWO64 ==> n % TWO64 == n)
  {
  }

  /** How the statistics hang together after every run, and how much each relation needs: a sum that
      has wrapped is too small, so only a lower bound on it can fail. The extra 1 is the lock call that
      makes a reset take effect: its wait counts, it does not. */
  lemma StatsHangTogether(events: seq<Event>)
    requires Legal(events)
    ensures var m := Run(events).m; var s := m.stats;
      && (Count(events, LockCalls) < TWO64 ==> s.numContendedLocks <= s.numLocks)
      && (Tries(events) < TWO64 ==> s.numSuccessfulTryLocks <= m.numTryLocks)
      && (Sum(Waits(events)) < TWO64 ==> s.numLocks * s.minLockWaitTicks <= s.totalLockWaitTicks)
      && (Count(events, LockCalls) < TWO64 ==> s.totalLockWaitTicks <= (s.numLocks + 1) * s.maxLockWaitTicks)
  {
    hide Least, Greatest, Sum, Run, Legal, Count, Tries, Waits;
    StatsTellHistory(events);
    CountsAreOrdered(events);
    WaitsFit(events);
    var waits, n := Waits(events), Count(events, LockCalls);
    WaitBounds(waits, n);
    Wrapped(n);
    TimesMore(Least(waits), n % TWO64, n);
    Wrapped(Sum(waits));
    Wrapped(Tries(events));
    Wrapped(Count(events, ContendedLockCalls));
    Wrapped(Count(events, SuccessfulTryLocks));
  }

  predicate EverGotLock(events: seq<Event>) {
    exists i :: 0 <= i < |events| && GetsLock(events[i])
  }

  /** `ever_locked` tells whether a `lock` call has completed, not whether the mutex was ever held:
      a successful try-lock does not set it. */
  lemma {:induction false} EverLockedMeansLockCall(events: seq<Event>)
    requires Legal(events)
    ensures Run(events).m.everLocked <==> EverGotLock(events)
  {
    if events != [] {
      var before, e := events[..|events| - 1], events[|events| - 1];
      EverLockedMeansLockCall(before);
      assert EverGotLock(events) <==> EverGotLock(before) || GetsLock(e) by {
        assert forall i | 0 <= i < |before| :: events[i] == before[i];
      }
    }
  }

  lemma HeldButNeverLocked()
    ensures var events := [TryLock(0)];
      Legal(events) && Run(events).m.holder == Some(0) && !Run(events).m.everLocked
  {
    assert [TryLock(0)][..0] == [];
  }
}
