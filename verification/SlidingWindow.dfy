/** The sliding-window limiter: its in-memory form, with lists shared by
    reference, and the same operations on values. Times are microseconds of the
    monotonic clock, which never shows less than zero. */
module SlidingWindow {

  const WINDOW := 60_000_000
  const MAX_KEYS := 10_000

  type Hits = map<string, seq<int>>

  datatype Limiter = Limiter(hits: Hits, lastPrune: int)

  const START := Limiter(map[], -1_000_000)

  /** The times after `cut`, in order. */
  function Recent(s: seq<int>, cut: int): seq<int> {
    if s == [] then []
    else (if s[0] > cut then [s[0]] else []) + Recent(s[1..], cut)
  }

  function HitsOf(h: Hits, key: string): seq<int> {
    if key in h then h[key] else []
  }

  /** A non-empty list with nothing left in the window. */
  predicate Stale(s: seq<int>, now: int) {
    s != [] && forall t :: t in s ==> t <= now - WINDOW
  }

  function PruneHits(h: Hits, now: int): Hits {
    map k | k in h && !Stale(h[k], now) :: h[k]
  }

  lemma StaleMeans(s: seq<int>, now: int)
    ensures Stale(s, now) <==> s != [] && !exists t :: t in s && t > now - 60_000_000
  {}

  /** A sweep keeps the lists that are empty or hold a time less than a minute old. */
  lemma PrunedKeys(h: Hits, now: int)
    ensures PruneHits(h, now).Keys <= h.Keys && forall k :: k in PruneHits(h, now) ==> PruneHits(h, now)[k] == h[k]
    ensures forall k :: k in h ==>
              (k in PruneHits(h, now) <==> h[k] == [] || exists t :: t in h[k] && t > now - 60_000_000)
  {
    forall k | k in h
      ensures k in PruneHits(h, now) <==> h[k] == [] || exists t :: t in h[k] && t > now - 60_000_000
    {
      StaleMeans(h[k], now);
    }
  }

  function Pruned(l: Limiter, now: int): Limiter {
    Limiter(PruneHits(l.hits, now), l.lastPrune)
  }

  /** The table once the caller's own list is filtered. */
  function Filtered(l: Limiter, key: string, now: int): Hits {
    l.hits[key := Recent(HitsOf(l.hits, key), now - WINDOW)]
  }

  function PruneMark(l: Limiter, now: int): int {
    if l.lastPrune < 0 then now else l.lastPrune
  }

  predicate Sweeps(l: Limiter, key: string, now: int) {
    |Filtered(l, key, now)| > MAX_KEYS || now - PruneMark(l, now) >= WINDOW
  }

  predicate Admits(rpm: int, l: Limiter, key: string, now: int) {
    |Recent(HitsOf(l.hits, key), now - WINDOW)| < rpm
  }

  /** One enabled call with reading `now`; a sweep takes its own reading `later`.
      If the sweep dropped the caller's list, the new hit is lost with it. */
  function AllowState(rpm: int, l: Limiter, key: string, now: int, later: int): Limiter {
    var window := Recent(HitsOf(l.hits, key), now - WINDOW);
    var sweeps := Sweeps(l, key, now);
    var hits := if sweeps then PruneHits(Filtered(l, key, now), later) else Filtered(l, key, now);
    Limiter(if Admits(rpm, l, key, now) && key in hits then hits[key := window + [now]] else hits,
            if sweeps then now else PruneMark(l, now))
  }

  /** The state after a call, from the table after its sweep. */
  lemma AllowStateOf(rpm: int, l: Limiter, key: string, now: int, later: int, swept: Hits)
    requires swept == if Sweeps(l, key, now) then PruneHits(Filtered(l, key, now), later) else Filtered(l, key, now)
    ensures AllowState(rpm, l, key, now, later)
      == Limiter(if Admits(rpm, l, key, now) && key in swept
                 then swept[key := Recent(HitsOf(l.hits, key), now - WINDOW) + [now]] else swept,
                 if Sweeps(l, key, now) then now else PruneMark(l, now))
  {}

  // ---- the object ----

  class Window {
    var times: seq<int>

    constructor (times: seq<int>)
      ensures this.times == times
    {
      this.times := times;
    }
  }

  class RateLimiter {
    const rpm: int
    var hits: map<string, Window>
    var lastPrune: int

    constructor (rpm: int)
      ensures this.rpm == rpm && State() == START
    {
      this.rpm := rpm;
      hits := map[];
      lastPrune := -1_000_000;
    }

    ghost function Table(): Hits
      reads this, hits.Values
    {
      map k | k in hits :: hits[k].times
    }

    ghost function State(): Limiter
      reads this, hits.Values
    {
      Limiter(Table(), lastPrune)
    }

    /** The deletion loop of the sweep. */
    method DeleteAll(stale: set<string>)
      requires stale <= hits.Keys
      modifies this`hits
      ensures hits == old(hits) - stale
    {
      ghost var was := hits;
      ghost var gone := {};
      var rest := stale;
      while rest != {}
        invariant rest + gone == stale
        invariant hits == was - gone
        decreases |rest|
      {
        var k :| k in rest;
        hits := hits - {k};
        RemoveOne(was, gone, k);
        MoveOne(rest, gone, k);
        gone := gone + {k};
        rest := rest - {k};
      }
    }

    method PruneStale(now: int) returns (removed: nat)
      modifies this`hits
      ensures State() == Pruned(old(State()), now)
      ensures hits.Keys <= old(hits).Keys && forall k :: k in hits ==> hits[k] == old(hits)[k]
      ensures removed == |old(hits)| - |hits|
    {
      hide Stale;
      var stale := set k | k in hits && Stale(hits[k].times, now);
      RemovedCount(hits, stale);
      DeleteAll(stale);
      removed := |stale|;
    }

    /** Replaces the caller's list by a new one holding its recent times. */
    method Refresh(key: string, now: int) returns (window: Window)
      modifies this
      ensures fresh(window) && hits == old(hits)[key := window]
      ensures window.times == Recent(HitsOf(old(Table()), key), now - 60_000_000)
      ensures lastPrune == PruneMark(old(State()), now)
      ensures Table() == Filtered(old(State()), key, now)
    {
      var kept := if key in hits then Recent(hits[key].times, now - WINDOW) else [];
      window := new Window(kept);
      hits := hits[key := window];
      if lastPrune < 0 {
        lastPrune := now;
      }
    }

    /** `append` on the caller's list, which the table may no longer hold. */
    method Push(window: Window, key: string, now: int)
      requires key in hits ==> hits[key] == window
      requires forall k :: k in hits && k != key ==> hits[k] != window
      modifies window
      ensures window.times == old(window.times) + [now]
      ensures Table() == if key in hits then old(Table())[key := window.times] else old(Table())
    {
      window.times := window.times + [now];
    }

    /** The two sweep triggers, tested after the list is refreshed. */
    method SweepIfDue(key: string, now: int, later: int)
      modifies this
      ensures var due := |old(Table())| > 10_000 || now - old(lastPrune) >= 60_000_000;
        Table() == (if due then PruneHits(old(Table()), later) else old(Table()))
        && lastPrune == if due then now else old(lastPrune)
      ensures hits.Keys <= old(hits).Keys && forall k :: k in hits ==> hits[k] == old(hits)[k]
    {
      SameSize(hits, Table());
      if |hits| > MAX_KEYS || now - lastPrune >= WINDOW {
        var _ := PruneStale(later);
        lastPrune := now;
      }
    }

    /** Every call ends in the state `AllowState` names. */
    method Allow(key: string, now: int, later: int) returns (ok: bool)
      modifies this
      ensures rpm <= 0 ==> ok && hits == old(hits) && lastPrune == old(lastPrune)
      ensures rpm > 0 ==> ok == Admits(rpm, old(State()), key, now)
      ensures rpm > 0 ==> State() == AllowState(rpm, old(State()), key, now, later)
      ensures forall k :: k in hits ==> (k in old(hits) && hits[k] == old(hits)[k]) || fresh(hits[k])
    {
      if rpm <= 0 {
        return true;
      }
      hide Recent, Stale, PruneHits, Filtered, AllowState;
      ghost var was := State();
      var window := Refresh(key, now);
      SweepIfDue(key, now, later);
      ghost var swept := Table();
      assert swept == if Sweeps(was, key, now) then PruneHits(Filtered(was, key, now), later)
                      else Filtered(was, key, now);
      AllowStateOf(rpm, was, key, now, later, swept);
      if |window.times| >= rpm {
        return false;
      }
      Push(window, key, now);
      assert key in hits <==> key in swept;
      return true;
    }

    method Reset(key: string)
      modifies this`hits
      ensures Table() == old(Table()) - {key}
    {
      hits := hits - {key};
    }
  }

  lemma RemoveOne<A>(m: map<string, A>, gone: set<string>, k: string)
    ensures (m - gone) - {k} == m - (gone + {k})
  {}

  lemma MoveOne(rest: set<string>, gone: set<string>, k: string)
    requires k in rest
    ensures (rest - {k}) + (gone + {k}) == rest + gone
  {}

  lemma RemovedCount<A>(m: map<string, A>, gone: set<string>)
    requires gone <= m.Keys
    ensures |gone| == |m| - |m - gone|
  {}

  lemma SameSize<A, B>(a: map<string, A>, b: map<string, B>)
    requires a.Keys == b.Keys
    ensures |a| == |b|
  {}
}
