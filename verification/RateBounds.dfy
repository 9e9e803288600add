/** What the limiter guarantees over whole runs. */
module RateBounds {
  import opened Prelude
  import opened SlidingWindow

  /** `Call` with a sweep takes a second reading; without one `later` is not read. */
  datatype Op =
    | Call(key: string, now: int, later: int)
    | Prune(now: int)
    | Reset(key: string)

  /** The limiter, every hit admitted since its key was last reset, and the clock. */
  datatype Sys = Sys(l: Limiter, log: Hits, clock: int)

  const FRESH := Sys(START, map[], 0)

  function Next(rpm: int, s: Sys, op: Op): Sys {
    match op
    case Call(key, now, later) =>
      var log := if Admits(rpm, s.l, key, now) then s.log[key := HitsOf(s.log, key) + [now]] else s.log;
      Sys(AllowState(rpm, s.l, key, now, later), log, later)
    case Prune(now) =>
      Sys(Limiter(PruneHits(s.l.hits, now), s.l.lastPrune), s.log, now)
    case Reset(key) =>
      Sys(Limiter(s.l.hits - {key}, s.l.lastPrune), s.log - {key}, s.clock)
  }

  predicate Timely(clock: int, op: Op) {
    match op
    case Call(_, now, later) => clock <= now <= later
    case Prune(now) => clock <= now
    case Reset(_) => true
  }

  function After(rpm: int, ops: seq<Op>): Sys {
    if ops == [] then FRESH else Next(rpm, After(rpm, ops[..|ops| - 1]), ops[|ops| - 1])
  }

  /** Readings never go back, within a call or between calls. */
  predicate Forward(rpm: int, ops: seq<Op>) {
    ops == [] || (Forward(rpm, ops[..|ops| - 1])
                  && Timely(After(rpm, ops[..|ops| - 1]).clock, ops[|ops| - 1]))
  }

  /** The two readings of a call are equal. */
  predicate ExactOp(op: Op) {
    op.Call? ==> op.now == op.later
  }

  predicate Exact(ops: seq<Op>) {
    forall i :: 0 <= i < |ops| ==> ExactOp(ops[i])
  }

  /** An admitted call whose sweep, by its own reading, finds every hit of the caller
      expired: it drops the list about to receive the new hit, which is still young. */
  predicate Loses(rpm: int, s: Sys, op: Op) {
    op.Call? && Admits(rpm, s.l, op.key, op.now) && Sweeps(s.l, op.key, op.now)
    && Stale(Recent(HitsOf(s.l.hits, op.key), op.now - WINDOW), op.later) && op.later < op.now + WINDOW
  }

  predicate Lossless(rpm: int, ops: seq<Op>) {
    ops == [] || (Lossless(rpm, ops[..|ops| - 1]) && !Loses(rpm, After(rpm, ops[..|ops| - 1]), ops[|ops| - 1]))
  }

  // ---- filtering ----

  predicate Ascending(s: seq<int>) {
    forall i, j :: 0 <= i < j < |s| ==> s[i] <= s[j]
  }

  lemma {:induction false} RecentMembers(s: seq<int>, cut: int)
    ensures forall t :: t in Recent(s, cut) <==> t in s && t > cut
  {
    if s != [] {
      RecentMembers(s[1..], cut);
      assert forall t :: t in s <==> t == s[0] || t in s[1..];
    }
  }

  lemma {:induction false} RecentTwice(s: seq<int>, a: int, b: int)
    requires a <= b
    ensures Recent(Recent(s, a), b) == Recent(s, b)
  {
    if s != [] {
      RecentTwice(s[1..], a, b);
      if s[0] > a {
        assert ([s[0]] + Recent(s[1..], a))[1..] == Recent(s[1..], a);
      } else {
        assert Recent(s, a) == Recent(s[1..], a);
      }
    }
  }

  lemma {:induction false} RecentAppend(s: seq<int>, t: int, cut: int)
    ensures Recent(s + [t], cut) == Recent(s, cut) + (if t > cut then [t] else [])
  {
    if s != [] {
      assert (s + [t])[1..] == s[1..] + [t];
      RecentAppend(s[1..], t, cut);
    } else {
      assert s + [t] == [t];
    }
  }

  lemma {:induction false} RecentNone(s: seq<int>, cut: int)
    requires forall t :: t in s ==> t <= cut
    ensures Recent(s, cut) == []
  {
    if s != [] {
      assert s[0] in s && forall t :: t in s[1..] ==> t in s;
      RecentNone(s[1..], cut);
    }
  }

  /** On an ascending list the recent times are its tail. */
  lemma {:induction false} RecentTail(s: seq<int>, cut: int)
    requires Ascending(s)
    ensures |Recent(s, cut)| <= |s| && Recent(s, cut) == s[|s| - |Recent(s, cut)|..]
    ensures forall i :: 0 <= i < |s| - |Recent(s, cut)| ==> s[i] <= cut
  {
    if s != [] {
      RecentTail(s[1..], cut);
      if s[0] > cut {
        RecentAll(s, cut);
      } else {
        assert Recent(s, cut) == Recent(s[1..], cut);
        var n := |Recent(s, cut)|;
        assert s[1..][|s| - 1 - n..] == s[|s| - n..];
      }
    }
  }

  lemma {:induction false} RecentAll(s: seq<int>, cut: int)
    requires forall i :: 0 <= i < |s| ==> s[i] > cut
    ensures Recent(s, cut) == s
  {
    if s != [] {
      RecentAll(s[1..], cut);
      assert s == [s[0]] + s[1..];
    }
  }

  // ---- the limiter against its full history ----

  /** The list still held for a key agrees with the key's history in the window
      ending now; after a lossy call it may lack the oldest hit there. */
  ghost predicate Agrees(held: seq<int>, past: seq<int>, now: int, exact: bool) {
    var h, p := Recent(held, now - WINDOW), Recent(past, now - WINDOW);
    h == p || (!exact && p != [] && h == p[1..])
  }

  lemma AgreesLater(held: seq<int>, past: seq<int>, now: int, now': int, exact: bool)
    requires Agrees(held, past, now, exact) && now <= now'
    ensures Agrees(held, past, now', exact)
  {
    var cut, cut' := now - WINDOW, now' - WINDOW;
    var p := Recent(past, cut);
    RecentTwice(held, cut, cut');
    RecentTwice(past, cut, cut');
    if p != [] {
      var tail := Recent(p[1..], cut');
      assert Recent(p, cut') == if p[0] > cut' then [p[0]] + tail else tail;
      assert ([p[0]] + tail)[1..] == tail;
    }
  }

  /** A sweep takes nothing that a later call could count. */
  lemma AgreesPruned(held: seq<int>, past: seq<int>, now: int, exact: bool)
    requires Agrees(held, past, now, exact) && Stale(held, now)
    ensures Agrees([], past, now, exact)
  {
    RecentNone(held, now - WINDOW);
  }

  lemma AgreesAppend(held: seq<int>, past: seq<int>, now: int, exact: bool)
    requires Agrees(held, past, now, exact)
    ensures Agrees(Recent(held, now - WINDOW) + [now], past + [now], now, exact)
  {
    var cut := now - WINDOW;
    var h, p := Recent(held, cut), Recent(past, cut);
    RecentTwice(held, cut, cut);
    RecentAppend(h, now, cut);
    RecentAppend(past, now, cut);
    if p != [] {
      assert (p + [now])[1..] == p[1..] + [now];
    }
  }

  lemma AgreesFiltered(held: seq<int>, past: seq<int>, now: int, exact: bool)
    requires Agrees(held, past, now, exact)
    ensures Agrees(Recent(held, now - WINDOW), past, now, exact)
  {
    RecentTwice(held, now - WINDOW, now - WINDOW);
  }

  /** When every held hit is older than the sweep's window, so is the whole history. */
  lemma PastIsOld(h: seq<int>, p: seq<int>, bound: int)
    requires h != [] && Ascending(p) && (p == h || (p != [] && p[1..] == h))
    requires forall t :: t in h ==> t <= bound
    ensures forall t :: t in p ==> t <= bound
  {
    assert h[0] in h;
    if p != h {
      assert p[0] <= p[1] && p[1] == h[0];
      HeadAndTail(p, bound);
    }
  }

  /** The one lossy case: the sweep's own reading has moved past every hit of the
      caller, so its list is dropped and the new hit appended to nothing. */
  lemma AgreesDetached(held: seq<int>, past: seq<int>, now: int, later: int, exact: bool)
    requires Agrees(held, past, now, exact) && Ascending(past) && now <= later
    requires Stale(Recent(held, now - WINDOW), later)
    ensures later > now
    ensures Agrees([], past + [now], later, false)
  {
    hide Recent;
    var cut := now - WINDOW;
    var h, p := Recent(held, cut), Recent(past, cut);
    RecentMembers(held, cut);
    assert h[0] in h && h[0] > cut;
    RecentAscends(past, cut);
    PastIsOld(h, p, later - WINDOW);
    NothingRecent(past, p, now, later);
  }

  lemma RecentAscends(s: seq<int>, cut: int)
    requires Ascending(s)
    ensures Ascending(Recent(s, cut))
  {
    RecentTail(s, cut);
  }

  lemma NothingRecent(past: seq<int>, p: seq<int>, now: int, later: int)
    requires now <= later && p == Recent(past, now - WINDOW) && forall t :: t in p ==> t <= later - WINDOW
    ensures Agrees([], past + [now], later, false)
  {
    RecentNone(p, later - WINDOW);
    RecentTwice(past, now - WINDOW, later - WINDOW);
    RecentAppend(past, now, later - WINDOW);
  }

  lemma HeadAndTail(p: seq<int>, bound: int)
    requires p != [] && p[0] <= bound && forall t :: t in p[1..] ==> t <= bound
    ensures forall t :: t in p ==> t <= bound
  {
    assert p == [p[0]] + p[1..];
  }

  ghost predicate Sound(s: Sys, exact: bool) {
    && (forall k :: Agrees(HitsOf(s.l.hits, k), HitsOf(s.log, k), s.clock, exact))
    && LogsOrdered(s)
  }

  /** What a call leaves of each list. */
  lemma ListAfterCall(rpm: int, l: Limiter, key: string, now: int, later: int, k: string)
    ensures var window := Recent(HitsOf(l.hits, key), now - WINDOW);
      var was, left := HitsOf(l.hits, k), HitsOf(AllowState(rpm, l, key, now, later).hits, k);
      if k != key then left == was || (Stale(was, later) && left == [])
      else if Sweeps(l, key, now) && Stale(window, later) then left == []
      else left == if Admits(rpm, l, key, now) then window + [now] else window
  {}

  lemma CallAgrees(rpm: int, s: Sys, key: string, now: int, later: int, k: string, exact: bool)
    requires Sound(s, exact) && s.clock <= now <= later && (exact ==> !Loses(rpm, s, Call(key, now, later)))
    ensures var s' := Next(rpm, s, Call(key, now, later));
      Agrees(HitsOf(s'.l.hits, k), HitsOf(s'.log, k), later, exact)
  {
    hide Recent, Agrees, AllowState, Stale, Sweeps;
    var held, past := HitsOf(s.l.hits, k), HitsOf(s.log, k);
    var window := Recent(HitsOf(s.l.hits, key), now - WINDOW);
    ListAfterCall(rpm, s.l, key, now, later, k);
    assert Agrees(held, past, s.clock, exact);
    AgreesLater(held, past, s.clock, now, exact);
    AgreesLater(held, past, now, later, exact);
    if k != key {
      if Stale(held, later) {
        AgreesPruned(held, past, later, exact);
      }
    } else {
      AgreesFiltered(held, past, now, exact);
      AgreesLater(window, past, now, later, exact);
      AgreesAppend(held, past, now, exact);
      AgreesLater(window + [now], past + [now], now, later, exact);
      if Stale(window, later) {
        AgreesDetached(held, past, now, later, exact);
        AgreesPruned(window, past, later, exact);
        if now <= later - WINDOW {
          AgreesForgotten(past, now, later, exact);
        }
      }
    }
  }

  /** A hit already outside the sweep's window is no loss. */
  lemma AgreesForgotten(past: seq<int>, now: int, later: int, exact: bool)
    requires Agrees([], past, later, exact) && now <= later - WINDOW
    ensures Agrees([], past + [now], later, exact)
  {
    RecentAppend(past, now, later - WINDOW);
  }

  lemma NextSound(rpm: int, s: Sys, op: Op, exact: bool)
    requires rpm > 0 && Sound(s, exact) && Timely(s.clock, op) && (exact ==> !Loses(rpm, s, op))
    ensures Sound(Next(rpm, s, op), exact)
  {
    var s' := Next(rpm, s, op);
    forall k ensures Agrees(HitsOf(s'.l.hits, k), HitsOf(s'.log, k), s'.clock, exact) {
      var held, past := HitsOf(s.l.hits, k), HitsOf(s.log, k);
      assert Agrees(held, past, s.clock, exact);
      match op
      case Call(key, now, later) =>
        CallAgrees(rpm, s, key, now, later, k, exact);
      case Prune(now) =>
        AgreesLater(held, past, s.clock, now, exact);
        if Stale(held, now) {
          AgreesPruned(held, past, now, exact);
        }
      case Reset(key) =>
        assert Agrees([], [], s.clock, exact);
    }
    LogsAscend(rpm, s, op);
    hide Agrees, AllowState, Recent, Loses;
  }

  /** The history of each key ascends and ends by the clock. */
  ghost predicate LogsOrdered(s: Sys) {
    forall k :: k in s.log ==> Ascending(s.log[k]) && forall t :: t in s.log[k] ==> t <= s.clock
  }

  lemma AscendingAppend(s: seq<int>, t: int)
    requires Ascending(s) && forall x :: x in s ==> x <= t
    ensures Ascending(s + [t])
  {
    forall i | 0 <= i < |s| ensures s[i] <= t {
      assert s[i] in s;
    }
  }

  lemma LogsAscend(rpm: int, s: Sys, op: Op)
    requires LogsOrdered(s) && Timely(s.clock, op)
    ensures LogsOrdered(Next(rpm, s, op))
  {
    hide AllowState, Recent;
    if op.Call? {
      var past := HitsOf(s.log, op.key);
      assert Ascending(past) && forall x :: x in past ==> x <= op.now;
      AscendingAppend(past, op.now);
    }
  }

  // ---- how many hits a window can hold ----

  /** Hits `n` places apart are a full window apart. */
  ghost predicate Spaced(s: seq<int>, n: nat) {
    forall i, j :: 0 <= i && j == i + n < |s| ==> s[j] - s[i] >= WINDOW
  }

  /** How many of the hits fall in the half-open minute starting at `x`. */
  function WindowCount(s: seq<int>, x: int): (c: nat)
    ensures c <= |s|
  {
    if s == [] then 0 else (if x <= s[0] < x + 60_000_000 then 1 else 0) + WindowCount(s[1..], x)
  }

  lemma {:induction false} CountSplit(s: seq<int>, n: nat, x: int)
    requires n <= |s|
    ensures WindowCount(s, x) == WindowCount(s[..n], x) + WindowCount(s[n..], x)
  {
    if n > 0 {
      CountSplit(s[1..], n - 1, x);
      assert s[1..][..n - 1] == s[..n][1..] && s[1..][n - 1..] == s[n..];
    } else {
      assert s[..0] == [] && s[0..] == s;
    }
  }

  lemma {:induction false} CountPast(s: seq<int>, x: int)
    requires forall i :: 0 <= i < |s| ==> s[i] >= x + WINDOW
    ensures WindowCount(s, x) == 0
  {
    if s != [] {
      CountPast(s[1..], x);
    }
  }

  /** Spacing bounds every window. */
  lemma {:induction false} SpacedCount(s: seq<int>, n: nat, x: int)
    requires Ascending(s) && Spaced(s, n)
    ensures WindowCount(s, x) <= n
    decreases |s|
  {
    if s != [] && n < |s| {
      if s[0] < x {
        SpacedCount(s[1..], n, x);
      } else {
        CountSplit(s, n, x);
        assert s[n] - s[0] >= WINDOW;
        CountPast(s[n..], x);
      }
    }
  }

  /** Few recent hits, so a new one lands a window after the one `n` places back. */
  lemma SpacedAppend(s: seq<int>, n: nat, t: int)
    requires Ascending(s) && Spaced(s, n) && |Recent(s, t - WINDOW)| < n
    ensures Spaced(s + [t], n)
  {
    RecentTail(s, t - WINDOW);
    hide Recent;
  }

  /** The history of every key is spaced by the limit, or one more after losses. */
  ghost predicate LogsSpaced(rpm: int, s: Sys, exact: bool)
    requires rpm > 0
  {
    forall k :: k in s.log ==> Spaced(s.log[k], if exact then rpm else rpm + 1)
  }

  lemma NextSpaced(rpm: int, s: Sys, op: Op, exact: bool)
    requires rpm > 0 && Sound(s, exact) && Timely(s.clock, op) && (exact ==> !Loses(rpm, s, op))
    requires LogsSpaced(rpm, s, exact)
    ensures LogsSpaced(rpm, Next(rpm, s, op), exact)
  {
    hide AllowState, Recent, Loses, Sweeps, Stale;
    if op.Call? && Admits(rpm, s.l, op.key, op.now) {
      var held, past := HitsOf(s.l.hits, op.key), HitsOf(s.log, op.key);
      assert Agrees(held, past, s.clock, exact);
      AgreesLater(held, past, s.clock, op.now, exact);
      SpacedAppend(past, if exact then rpm else rpm + 1, op.now);
    }
  }

  lemma {:induction false} Invariants(rpm: int, ops: seq<Op>, exact: bool)
    requires rpm > 0 && Forward(rpm, ops) && (exact ==> Lossless(rpm, ops))
    ensures Sound(After(rpm, ops), exact) && LogsSpaced(rpm, After(rpm, ops), exact)
  {
    hide Loses, Timely, Next;
    if ops != [] {
      var front, op := ops[..|ops| - 1], ops[|ops| - 1];
      Invariants(rpm, front, exact);
      NextSound(rpm, After(rpm, front), op, exact);
      NextSpaced(rpm, After(rpm, front), op, exact);
    }
  }

  /** In any run no 60-second window holds more than rpm + 1 hits admitted for a key
      since its last reset, and no more than rpm if no call was lossy. */
  lemma RateBound(rpm: int, ops: seq<Op>, key: string, x: int)
    requires rpm > 0 && Forward(rpm, ops)
    ensures WindowCount(HitsOf(After(rpm, ops).log, key), x) <= rpm + 1
    ensures Lossless(rpm, ops) ==> WindowCount(HitsOf(After(rpm, ops).log, key), x) <= rpm
  {
    Invariants(rpm, ops, false);
    if key in After(rpm, ops).log {
      SpacedCount(After(rpm, ops).log[key], rpm + 1, x);
      if Lossless(rpm, ops) {
        Invariants(rpm, ops, true);
        SpacedCount(After(rpm, ops).log[key], rpm, x);
      }
    }
  }

  /** A sweep with the call's own reading finds the caller's list empty or fresh. */
  lemma ExactKeeps(rpm: int, s: Sys, op: Op)
    requires ExactOp(op)
    ensures !Loses(rpm, s, op)
  {
    if op.Call? {
      RecentMembers(HitsOf(s.l.hits, op.key), op.now - WINDOW);
      var w := Recent(HitsOf(s.l.hits, op.key), op.now - WINDOW);
      assert w != [] ==> w[0] in w && w[0] > op.later - WINDOW;
    }
    hide Recent, Sweeps, Admits;
  }

  lemma {:induction false} ExactTail(rpm: int, ops: seq<Op>, tail: seq<Op>)
    requires Lossless(rpm, ops) && Exact(tail)
    ensures Lossless(rpm, ops + tail)
    decreases |tail|
  {
    hide Loses, Next;
    if tail != [] {
      var n := |tail| - 1;
      ExactTail(rpm, ops, tail[..n]);
      assert ops + tail == (ops + tail[..n]) + [tail[n]];
      Snoc(rpm, ops + tail[..n], tail[n]);
      ExactKeeps(rpm, After(rpm, ops + tail[..n]), tail[n]);
    } else {
      assert ops + tail == ops;
    }
  }

  // ---- the simple limiter ----

  /** Keeps every admitted hit and never prunes. */
  function SimpleNext(rpm: int, log: Hits, op: Op): Hits {
    match op
    case Call(key, now, _) =>
      if SimpleAdmits(rpm, log, key, now) then log[key := HitsOf(log, key) + [now]] else log
    case Prune(_) => log
    case Reset(key) => log - {key}
  }

  /** Fewer than the limit lie less than a minute back. */
  predicate SimpleAdmits(rpm: int, log: Hits, key: string, now: int) {
    WindowCount(HitsOf(log, key), now - 59_999_999) < rpm
  }

  lemma {:induction false} RecentCounted(s: seq<int>, now: int)
    requires forall i :: 0 <= i < |s| ==> s[i] <= now
    ensures |Recent(s, now - WINDOW)| == WindowCount(s, now - 59_999_999)
  {
    if s != [] {
      RecentCounted(s[1..], now);
    }
  }

  function SimpleAfter(rpm: int, ops: seq<Op>): Hits {
    if ops == [] then map[] else SimpleNext(rpm, SimpleAfter(rpm, ops[..|ops| - 1]), ops[|ops| - 1])
  }

  /** Without a lossy call, so in particular with equal readings, the limiter answers
      every call as the simple one does, whatever keys, sweeps, prunes and resets came
      before. */
  lemma {:induction false} RefinesSimple(rpm: int, ops: seq<Op>, key: string, now: int)
    requires rpm > 0 && Forward(rpm, ops) && Lossless(rpm, ops) && After(rpm, ops).clock <= now
    ensures After(rpm, ops).log == SimpleAfter(rpm, ops)
    ensures Admits(rpm, After(rpm, ops).l, key, now) == SimpleAdmits(rpm, SimpleAfter(rpm, ops), key, now)
  {
    hide Loses;
    var s := After(rpm, ops);
    if ops != [] {
      var front, op := ops[..|ops| - 1], ops[|ops| - 1];
      match op
      case Call(k, t, _) => RefinesSimple(rpm, front, k, t);
      case _ => RefinesSimple(rpm, front, key, After(rpm, front).clock);
    }
    Invariants(rpm, ops, true);
    var held, past := HitsOf(s.l.hits, key), HitsOf(s.log, key);
    assert Agrees(held, past, s.clock, true);
    AgreesLater(held, past, s.clock, now, true);
    forall i | 0 <= i < |past| ensures past[i] <= now {
      assert past[i] in past;
    }
    RecentCounted(past, now);
    hide AllowState, Recent, WindowCount;
  }

  // ---- when the extra hit gets in ----

  lemma Snoc(rpm: int, ops: seq<Op>, op: Op)
    ensures After(rpm, ops + [op]) == Next(rpm, After(rpm, ops), op)
    ensures Forward(rpm, ops + [op]) <==> Forward(rpm, ops) && Timely(After(rpm, ops).clock, op)
    ensures Lossless(rpm, ops + [op]) <==> Lossless(rpm, ops) && !Loses(rpm, After(rpm, ops), op)
  {
    assert (ops + [op])[..|ops|] == ops;
    hide Next, Loses, Timely;
  }

  /** `n` calls of one key at one time. */
  function Burst(key: string, t: int, n: nat): (ops: seq<Op>)
    ensures |ops| == n && Exact(ops)
  {
    if n == 0 then [] else Burst(key, t, n - 1) + [Call(key, t, t)]
  }

  function Repeat(t: int, n: nat): (s: seq<int>)
    ensures |s| == n && forall i :: 0 <= i < n ==> s[i] == t
  {
    seq(n, _ => t)
  }

  /** Amid a burst at `t`: the list holds the burst only, the history what was there
      before as well, and no timed sweep is due. */
  ghost predicate Bursting(s: Sys, key: string, t: int, past: seq<int>, n: nat) {
    && HitsOf(s.l.hits, key) == Repeat(t, n) && HitsOf(s.log, key) == past + Repeat(t, n)
    && s.clock == t && 0 <= s.l.lastPrune <= t < s.l.lastPrune + WINDOW
  }

  lemma BurstStep(rpm: int, s: Sys, key: string, t: int, past: seq<int>, n: nat)
    requires n < rpm && Bursting(s, key, t, past, n)
    ensures Bursting(Next(rpm, s, Call(key, t, t)), key, t, past, n + 1)
  {
    hide PruneHits;
    var held := Repeat(t, n);
    RecentAll(held, t - WINDOW);
    ListAfterCall(rpm, s.l, key, t, t, key);
    assert held != [] ==> held[0] in held;
    assert held + [t] == Repeat(t, n + 1);
    assert past + held + [t] == past + Repeat(t, n + 1);
    hide Recent;
  }

  lemma {:induction false} BurstRuns(rpm: int, ops: seq<Op>, key: string, t: int, past: seq<int>, n: nat)
    requires n <= rpm && Forward(rpm, ops) && Bursting(After(rpm, ops), key, t, past, 0)
    ensures Forward(rpm, ops + Burst(key, t, n)) && Bursting(After(rpm, ops + Burst(key, t, n)), key, t, past, n)
  {
    hide Bursting, After, Forward, Next;
    if n > 0 {
      var front := ops + Burst(key, t, n - 1);
      BurstRuns(rpm, ops, key, t, past, n - 1);
      assert ops + Burst(key, t, n) == front + [Call(key, t, t)];
      Snoc(rpm, front, Call(key, t, t));
      BurstClock(After(rpm, front), key, t, past, n - 1);
      BurstStep(rpm, After(rpm, front), key, t, past, n - 1);
    } else {
      assert ops + [] == ops;
    }
  }

  lemma BurstClock(s: Sys, key: string, t: int, past: seq<int>, n: nat)
    requires Bursting(s, key, t, past, n)
    ensures s.clock == t
  {}

  /** A lossy call leaves the caller room for a whole burst. */
  lemma AfterLoss(rpm: int, s: Sys, op: Op)
    requires Loses(rpm, s, op) && Timely(s.clock, op) && 0 <= s.clock
    ensures Bursting(Next(rpm, s, op), op.key, op.later, HitsOf(s.log, op.key) + [op.now], 0)
  {
    ListAfterCall(rpm, s.l, op.key, op.now, op.later, op.key);
    var log := HitsOf(s.log, op.key) + [op.now];
    assert log + Repeat(op.later, 0) == log;
    hide Recent, Stale;
  }

  lemma {:induction false} CountInside(s: seq<int>, x: int)
    requires forall i :: 0 <= i < |s| ==> x <= s[i] < x + WINDOW
    ensures WindowCount(s, x) == |s|
  {
    if s != [] {
      CountInside(s[1..], x);
    }
  }

  lemma {:induction false} ClockForward(rpm: int, ops: seq<Op>)
    requires Forward(rpm, ops)
    ensures 0 <= After(rpm, ops).clock
  {
    if ops != [] {
      ClockForward(rpm, ops[..|ops| - 1]);
    }
    hide AllowState;
  }

  lemma CountBurst(past: seq<int>, now: int, t: int, n: nat)
    requires now <= t < now + WINDOW
    ensures WindowCount(past + [now] + Repeat(t, n), now) >= n + 1
  {
    var burst := [now] + Repeat(t, n);
    assert past + [now] + Repeat(t, n) == past + burst;
    CountSplit(past + burst, |past|, now);
    assert (past + burst)[|past|..] == burst;
    CountInside(burst, now);
  }

  /** After a lossy call, calls at the sweep's reading put rpm + 1 hits in the window
      that starts with the lost one. */
  lemma LossExceeds(rpm: int, ops: seq<Op>, op: Op)
    requires rpm > 0 && Forward(rpm, ops + [op]) && Loses(rpm, After(rpm, ops), op)
    ensures var run := ops + [op] + Burst(op.key, op.later, rpm);
      Forward(rpm, run) && WindowCount(HitsOf(After(rpm, run).log, op.key), op.now) == rpm + 1
  {
    var past := HitsOf(After(rpm, ops).log, op.key);
    var run := ops + [op] + Burst(op.key, op.later, rpm);
    Snoc(rpm, ops, op);
    ClockForward(rpm, ops);
    AfterLoss(rpm, After(rpm, ops), op);
    assert Timely(After(rpm, ops).clock, op) && op.later < op.now + WINDOW;
    hide Loses, Next, After, Forward;
    BurstRuns(rpm, ops + [op], op.key, op.later, past + [op.now], rpm);
    CountBurst(past, op.now, op.later, rpm);
    RateBound(rpm, run, op.key, op.now);
    hide WindowCount, Repeat;
  }

  /** Some window holds more hits than the limit. */
  ghost predicate Exceeds(rpm: int, ops: seq<Op>) {
    exists key, x :: WindowCount(HitsOf(After(rpm, ops).log, key), x) > rpm
  }

  lemma {:induction false} PrefixRuns(rpm: int, ops: seq<Op>, n: nat)
    requires n <= |ops| && Forward(rpm, ops)
    ensures Forward(rpm, ops[..n]) && (Lossless(rpm, ops) ==> Lossless(rpm, ops[..n]))
    decreases |ops|
  {
    hide After, Loses;
    if n < |ops| {
      PrefixRuns(rpm, ops[..|ops| - 1], n);
      assert ops[..|ops| - 1][..n] == ops[..n];
    } else {
      assert ops[..n] == ops;
    }
  }

  lemma {:induction false} FindLoss(rpm: int, ops: seq<Op>) returns (n: nat)
    requires !Lossless(rpm, ops)
    ensures n < |ops| && Loses(rpm, After(rpm, ops[..n]), ops[n])
    decreases |ops|
  {
    hide After, Loses;
    n := |ops| - 1;
    if !Lossless(rpm, ops[..n]) {
      var front := ops[..n];
      n := FindLoss(rpm, front);
      assert front[..n] == ops[..n];
    }
  }

  /** The limit of rpm is kept, now and whatever calls with equal readings follow at
      any point, if and only if no call of the run is lossy. */
  lemma LimitKeptIffLossless(rpm: int, ops: seq<Op>)
    requires rpm > 0 && Forward(rpm, ops)
    ensures Lossless(rpm, ops) <==>
      forall n: nat, tail ::
        n <= |ops| && Exact(tail) && Forward(rpm, ops[..n] + tail) ==> !Exceeds(rpm, ops[..n] + tail)
  {
    hide After, Forward, Loses, Lossless, Exact;
    if Lossless(rpm, ops) {
      forall n: nat, tail | n <= |ops| && Exact(tail) && Forward(rpm, ops[..n] + tail)
        ensures !Exceeds(rpm, ops[..n] + tail)
      {
        PrefixRuns(rpm, ops, n);
        ExactTail(rpm, ops[..n], tail);
        forall key, x ensures WindowCount(HitsOf(After(rpm, ops[..n] + tail).log, key), x) <= rpm {
          RateBound(rpm, ops[..n] + tail, key, x);
        }
      }
    } else {
      var n := FindLoss(rpm, ops);
      var op := ops[n];
      assert ops[..n] + [op] == ops[..n + 1];
      PrefixRuns(rpm, ops, n + 1);
      LossNeedsTwo(rpm, After(rpm, ops[..n]), op);
      LossExceeds(rpm, ops[..n], op);
      assert Exceeds(rpm, ops[..n + 1] + Burst(op.key, op.later, rpm));
    }
  }

  // ---- which limits can be exceeded at all ----

  /** A lossy call has a hit in its window and is admitted all the same. */
  lemma LossNeedsTwo(rpm: int, s: Sys, op: Op)
    requires Loses(rpm, s, op)
    ensures op.Call? && rpm >= 2
  {}

  lemma {:induction false} OneIsLossless(ops: seq<Op>)
    ensures Lossless(1, ops)
  {
    hide Loses;
    if ops != [] {
      OneIsLossless(ops[..|ops| - 1]);
      if Loses(1, After(1, ops[..|ops| - 1]), ops[|ops| - 1]) {
        LossNeedsTwo(1, After(1, ops[..|ops| - 1]), ops[|ops| - 1]);
      }
    }
  }

  /** Two calls, then one whose sweep reads its clock half a second late. */
  const BEFORE := [Call("j", 0, 0), Call("k", 1_000_000, 1_000_000)]
  const LATE := Call("k", 60_500_000, 61_000_000)

  /** A first call by a key, when no sweep is due. */
  lemma FirstHit(rpm: int, s: Sys, key: string, now: int)
    requires rpm > 0 && |s.l.hits| < MAX_KEYS && key !in s.l.hits && key !in s.log
    requires 0 <= PruneMark(s.l, now) && now - PruneMark(s.l, now) < WINDOW
    ensures Next(rpm, s, Call(key, now, now))
      == Sys(Limiter(s.l.hits[key := [now]], PruneMark(s.l, now)), s.log[key := [now]], now)
  {
    assert |s.l.hits[key := []]| == |s.l.hits| + 1;
    assert [] + [now] == [now];
    assert s.l.hits[key := []][key := [now]] == s.l.hits[key := [now]];
  }

  lemma BeforeTheSweep(rpm: int)
    requires rpm > 0
    ensures Forward(rpm, BEFORE)
    ensures var both := map["j" := [0], "k" := [1_000_000]];
      After(rpm, BEFORE) == Sys(Limiter(both, 0), both, 1_000_000)
  {
    var j, k := Call("j", 0, 0), Call("k", 1_000_000, 1_000_000);
    assert [] + [j] == [j] && [j] + [k] == BEFORE;
    Snoc(rpm, [], j);
    FirstHit(rpm, FRESH, "j", 0);
    Snoc(rpm, [j], k);
    var s := Sys(Limiter(map["j" := [0]], 0), map["j" := [0]], 0);
    assert |s.l.hits| == 1;
    FirstHit(rpm, s, "k", 1_000_000);
    hide Next;
  }

  lemma TheSweep(rpm: int)
    requires rpm >= 2
    ensures Loses(rpm, After(rpm, BEFORE), LATE)
  {
    BeforeTheSweep(rpm);
    assert Recent([1_000_000], 500_000) == [1_000_000];
    hide After, Next;
  }

  /** From a limit of two on, rpm + 1 is reached. */
  lemma BoundIsReached(rpm: int)
    requires rpm >= 2
    ensures var run := BEFORE + [LATE] + Burst("k", 61_000_000, rpm);
      Forward(rpm, run) && WindowCount(HitsOf(After(rpm, run).log, "k"), 60_500_000) == rpm + 1
  {
    BeforeTheSweep(rpm);
    TheSweep(rpm);
    Snoc(rpm, BEFORE, LATE);
    LossExceeds(rpm, BEFORE, LATE);
    hide After, Forward, Loses;
  }

  /** Every run keeps to the limit if and only if the limit is one a minute. */
  lemma LimitHoldsIffOne(rpm: int)
    requires rpm > 0
    ensures (forall ops :: Forward(rpm, ops) ==> !Exceeds(rpm, ops)) <==> rpm == 1
  {
    hide After, Forward, Lossless;
    if rpm == 1 {
      forall ops | Forward(1, ops) ensures !Exceeds(1, ops) {
        OneIsLossless(ops);
        forall key, x ensures WindowCount(HitsOf(After(1, ops).log, key), x) <= 1 {
          RateBound(1, ops, key, x);
        }
      }
    } else {
      BoundIsReached(rpm);
      assert Exceeds(rpm, BEFORE + [LATE] + Burst("k", 61_000_000, rpm));
    }
  }

  // ---- memory ----

  /** Each list is non-empty, ascending, within the limit, ends in an admitted hit
      no older than a window before the last sweep. */
  ghost predicate TidyKey(rpm: int, s: Sys, k: string)
    requires k in s.l.hits
  {
    var list := s.l.hits[k];
    && list != [] && Ascending(list) && |list| <= rpm
    && s.l.lastPrune - WINDOW < list[|list| - 1] <= s.clock
    && list[|list| - 1] in HitsOf(s.log, k)
  }

  ghost predicate Tidy(rpm: int, s: Sys) {
    && (forall k :: k in s.l.hits ==> TidyKey(rpm, s, k))
    && (s.l.lastPrune < 0 ==> s.l.hits == map[])
    && s.l.lastPrune <= s.clock && 0 <= s.clock
  }

  lemma WindowTail(list: seq<int>, cut: int)
    requires Ascending(list)
    ensures var w := Recent(list, cut);
      Ascending(w) && |w| <= |list| && (w != [] ==> w[|w| - 1] == list[|list| - 1] && w[|w| - 1] > cut)
  {
    RecentTail(list, cut);
    RecentMembers(list, cut);
    var w := Recent(list, cut);
    if w != [] {
      assert w[|w| - 1] in w;
    }
  }

  lemma CallTidyKey(rpm: int, s: Sys, key: string, now: int, later: int, k: string)
    requires rpm > 0 && Tidy(rpm, s) && s.clock <= now <= later
    requires k in AllowState(rpm, s.l, key, now, later).hits
    ensures TidyKey(rpm, Next(rpm, s, Call(key, now, later)), k)
  {
    hide Recent, AllowState, Stale, Sweeps, Ascending;
    KeptIsFresh(rpm, s, key, now, later, k);
    if k == key {
      CallTidyOwn(rpm, s, key, now, later);
    } else {
      assert TidyKey(rpm, s, k);
    }
  }

  lemma CallTidyOwn(rpm: int, s: Sys, key: string, now: int, later: int)
    requires rpm > 0 && Tidy(rpm, s) && s.clock <= now <= later
    requires key in AllowState(rpm, s.l, key, now, later).hits
    ensures TidyKey(rpm, Next(rpm, s, Call(key, now, later)), key)
  {
    hide Recent, AllowState, Stale, Sweeps;
    var held := HitsOf(s.l.hits, key);
    var window := Recent(held, now - WINDOW);
    assert key in s.l.hits ==> TidyKey(rpm, s, key);
    WindowTail(held, now - WINDOW);
    OwnListAfterCall(rpm, s.l, key, now, later);
    KeptIsFresh(rpm, s, key, now, later, key);
    if Admits(rpm, s.l, key, now) {
      assert Ascending(window + [now]);
    }
  }

  lemma OwnListAfterCall(rpm: int, l: Limiter, key: string, now: int, later: int)
    requires key in AllowState(rpm, l, key, now, later).hits
    ensures var window := Recent(HitsOf(l.hits, key), now - WINDOW);
      AllowState(rpm, l, key, now, later).hits[key] == if Admits(rpm, l, key, now) then window + [now] else window
  {}

  /** A sweep keeps another key's list only with a hit in its window. */
  lemma KeptIsFresh(rpm: int, s: Sys, key: string, now: int, later: int, k: string)
    requires rpm > 0 && Tidy(rpm, s) && s.clock <= now <= later
    requires k in AllowState(rpm, s.l, key, now, later).hits
    ensures k != key ==>
      k in s.l.hits && AllowState(rpm, s.l, key, now, later).hits[k] == s.l.hits[k] && s.l.hits[k] != []
      && AllowState(rpm, s.l, key, now, later).lastPrune - WINDOW < s.l.hits[k][|s.l.hits[k]| - 1]
    ensures AllowState(rpm, s.l, key, now, later).lastPrune <= now
  {}

  lemma NextTidy(rpm: int, s: Sys, op: Op)
    requires rpm > 0 && Tidy(rpm, s) && Timely(s.clock, op)
    ensures Tidy(rpm, Next(rpm, s, op))
    ensures op.Call? ==> op.now - Next(rpm, s, op).l.lastPrune < WINDOW
  {
    var s' := Next(rpm, s, op);
    forall k | k in s'.l.hits ensures TidyKey(rpm, s', k) {
      match op
      case Call(key, now, later) =>
        CallTidyKey(rpm, s, key, now, later, k);
      case Prune(_) =>
        assert TidyKey(rpm, s, k);
      case Reset(_) =>
        assert TidyKey(rpm, s, k);
    }
    hide Recent, TidyKey;
  }

  lemma {:induction false} AlwaysTidy(rpm: int, ops: seq<Op>)
    requires rpm > 0 && Forward(rpm, ops)
    ensures Tidy(rpm, After(rpm, ops))
  {
    if ops != [] {
      AlwaysTidy(rpm, ops[..|ops| - 1]);
      NextTidy(rpm, After(rpm, ops[..|ops| - 1]), ops[|ops| - 1]);
    }
  }

  /** After every call each retained list is non-empty, ascending and at most rpm
      long, and its key was admitted within the last 120 seconds. */
  lemma BoundedMemory(rpm: int, ops: seq<Op>, k: string)
    requires rpm > 0 && Forward(rpm, ops) && ops != [] && ops[|ops| - 1].Call?
    requires k in After(rpm, ops).l.hits
    ensures var list := After(rpm, ops).l.hits[k];
      list != [] && Ascending(list) && |list| <= rpm
      && list[|list| - 1] in HitsOf(After(rpm, ops).log, k)
      && list[|list| - 1] > ops[|ops| - 1].now - 120_000_000
  {
    hide AllowState, Next, Recent, Ascending;
    var front := ops[..|ops| - 1];
    AlwaysTidy(rpm, front);
    NextTidy(rpm, After(rpm, front), ops[|ops| - 1]);
    assert After(rpm, ops) == Next(rpm, After(rpm, front), ops[|ops| - 1]);
    hide After, Forward;
    assert TidyKey(rpm, After(rpm, ops), k);
  }

  /** The keys admitted within the two minutes before `now`. */
  function YoungKeys(log: Hits, now: int): set<string> {
    set k | k in log && exists i :: 0 <= i < |log[k]| && log[k][i] > now - 120_000_000
  }

  /** So the table never has more keys than were admitted in the last two minutes. */
  lemma KeysAreYoung(rpm: int, ops: seq<Op>)
    requires rpm > 0 && Forward(rpm, ops) && ops != [] && ops[|ops| - 1].Call?
    ensures var s := After(rpm, ops); var young := YoungKeys(s.log, ops[|ops| - 1].now);
      s.l.hits.Keys <= young && |s.l.hits| <= |young|
  {
    hide After, Forward, Ascending;
    var s, now := After(rpm, ops), ops[|ops| - 1].now;
    forall k | k in s.l.hits ensures k in YoungKeys(s.log, now) {
      BoundedMemory(rpm, ops, k);
    }
    SubsetSize(s.l.hits.Keys, YoungKeys(s.log, now));
    assert |s.l.hits| == |s.l.hits.Keys|;
  }
}
