/** The pending-transfer quota when uploads overlap: the count is checked first and
    the row created only after the file has been received. */
module Quota {
  import opened Prelude

  type Pid = nat

  datatype Transfer = Transfer(sender: string, expires: int, deleted: bool)

  /** `uploads` are the ones past the check and not yet created, with their senders. */
  datatype World = World(rows: map<string, Transfer>, uploads: map<Pid, string>, clock: int)

  datatype Event =
    | Check(p: Pid, sender: string)
    | Create(p: Pid, id: string, expires: int)
    | GiveUp(p: Pid)
    | Delete(id: string)
    | Tick(now: int)

  function Pending(w: World, sender: string): set<string> {
    set id | id in w.rows && w.rows[id].sender == sender && !w.rows[id].deleted && w.rows[id].expires > w.clock
  }

  function InGap(w: World, sender: string): set<Pid> {
    set p | p in w.uploads && w.uploads[p] == sender
  }

  ghost predicate Step(max: int, w: World, w': World, e: Event) {
    match e
    case Check(p, sender) =>
      && p !in w.uploads
      && w' == if |Pending(w, sender)| >= max then w else w.(uploads := w.uploads[p := sender])
    case Create(p, id, expires) =>
      && p in w.uploads && id !in w.rows
      && w' == w.(rows := w.rows[id := Transfer(w.uploads[p], expires, false)], uploads := w.uploads - {p})
    case GiveUp(p) =>
      w' == w.(uploads := w.uploads - {p})
    case Delete(id) =>
      id in w.rows && w' == w.(rows := w.rows[id := w.rows[id].(deleted := true)])
    case Tick(now) =>
      w.clock <= now && w' == w.(clock := now)
  }

  ghost predicate Run(max: int, ws: seq<World>, es: seq<Event>) {
    && |ws| == |es| + 1 && ws[0].rows == map[] && ws[0].uploads == map[]
    && forall i :: 0 <= i < |es| ==> Step(max, ws[i], ws[i + 1], es[i])
  }

  lemma CreateAddsOne(max: int, w: World, w': World, p: Pid, id: string, expires: int, sender: string)
    requires Step(max, w, w', Create(p, id, expires))
    ensures Pending(w', sender) <= Pending(w, sender) + if w.uploads[p] == sender then {id} else {}
    ensures InGap(w', sender) == InGap(w, sender) - if w.uploads[p] == sender then {p} else {}
  {}

  /** A creation moves its upload from the gap to the pending at most. */
  lemma CreateKeepsSum(max: int, w: World, w': World, p: Pid, id: string, expires: int, sender: string)
    requires Step(max, w, w', Create(p, id, expires))
    ensures |Pending(w', sender)| + |InGap(w', sender)| <= |Pending(w, sender)| + |InGap(w, sender)|
  {
    CreateAddsOne(max, w, w', p, id, expires, sender);
    SubsetSize(Pending(w', sender), Pending(w, sender) + if w.uploads[p] == sender then {id} else {});
    assert w.uploads[p] == sender ==> p in InGap(w, sender);
    hide InGap, Pending, Step;
  }

  /** Pending plus gap only grows at a check, and a check needs room. */
  lemma StepBound(max: int, k: nat, w: World, w': World, e: Event, sender: string)
    requires Step(max, w, w', e) && |InGap(w', sender)| <= k
    requires |Pending(w, sender)| + |InGap(w, sender)| <= max + k - 1
    ensures |Pending(w', sender)| + |InGap(w', sender)| <= max + k - 1
  {
    match e
    case Check(p, s) =>
      assert Pending(w', sender) == Pending(w, sender);
      if s != sender {
        assert InGap(w', sender) == InGap(w, sender);
      }
    case Create(p, id, expires) =>
      CreateKeepsSum(max, w, w', p, id, expires, sender);
    case _ =>
      SubsetSize(Pending(w', sender), Pending(w, sender));
      SubsetSize(InGap(w', sender), InGap(w, sender));
  }

  lemma {:induction false} GapBound(max: int, k: nat, ws: seq<World>, es: seq<Event>, i: nat, sender: string)
    requires max >= 0 && k >= 1 && Run(max, ws, es) && i < |ws|
    requires forall j :: 0 <= j < |ws| ==> |InGap(ws[j], sender)| <= k
    ensures |Pending(ws[i], sender)| + |InGap(ws[i], sender)| <= max + k - 1
  {
    if i > 0 {
      GapBound(max, k, ws, es, i - 1, sender);
      StepBound(max, k, ws[i - 1], ws[i], es[i - 1], sender);
    } else {
      assert Pending(ws[0], sender) == {} && InGap(ws[0], sender) == {};
    }
  }

  /** With at most `k` uploads of a sender between check and creation at any time, it
      never has more than max + k - 1 pending transfers; sequential uploads keep to max. */
  lemma QuotaBound(max: int, k: nat, ws: seq<World>, es: seq<Event>, i: nat, sender: string)
    requires max >= 0 && k >= 1 && Run(max, ws, es) && i < |ws|
    requires forall j :: 0 <= j < |ws| ==> |InGap(ws[j], sender)| <= k
    ensures |Pending(ws[i], sender)| <= max + k - 1
    ensures k == 1 ==> |Pending(ws[i], sender)| <= max
  {
    GapBound(max, k, ws, es, i, sender);
  }

  /** Without room for any, no upload ever passes the check. */
  lemma {:induction false} NoRoom(max: int, ws: seq<World>, es: seq<Event>, i: nat)
    requires max <= 0 && Run(max, ws, es) && i < |ws|
    ensures ws[i].rows == map[] && ws[i].uploads == map[]
  {
    if i > 0 {
      NoRoom(max, ws, es, i - 1);
      assert Step(max, ws[i - 1], ws[i], es[i - 1]);
    }
  }

  // ---- what becomes of an upload ----

  /** Every upload past the check found room for its sender when it checked. */
  lemma {:induction false} UploadChecked(max: int, ws: seq<World>, es: seq<Event>, i: nat, p: Pid) returns (n: nat)
    requires Run(max, ws, es) && i < |ws| && p in ws[i].uploads
    ensures n < i && es[n] == Check(p, ws[i].uploads[p]) && |Pending(ws[n], ws[i].uploads[p])| < max
  {
    hide Pending;
    if i == 0 {
      assert false;
    }
    assert Step(max, ws[i - 1], ws[i], es[i - 1]);
    if p in ws[i - 1].uploads {
      n := UploadChecked(max, ws, es, i - 1, p);
    } else {
      n := i - 1;
    }
  }

  /** A created transfer keeps sender and expiry, and is deleted once and for all. */
  lemma {:induction false} CreatedStays(max: int, ws: seq<World>, es: seq<Event>, i: nat, k: nat, p: Pid, id: string,
                                        expires: int)
    requires Run(max, ws, es) && i < k < |ws| && es[i] == Create(p, id, expires)
    ensures p in ws[i].uploads && id in ws[k].rows
    ensures ws[k].rows[id].sender == ws[i].uploads[p] && ws[k].rows[id].expires == expires
    ensures ws[k].rows[id].deleted <==> exists j :: i < j < k && es[j] == Delete(id)
    decreases k
  {
    assert Step(max, ws[i], ws[i + 1], es[i]);
    if i < k - 1 {
      CreatedStays(max, ws, es, i, k - 1, p, id, expires);
      assert Step(max, ws[k - 1], ws[k], es[k - 1]);
      if ws[k - 1].rows[id].deleted {
        var j :| i < j < k - 1 && es[j] == Delete(id);
      }
    }
    hide Pending;
  }

  /** So it is pending for that sender exactly until its expiry or its deletion. */
  lemma PendingUntil(max: int, ws: seq<World>, es: seq<Event>, i: nat, k: nat, p: Pid, id: string, expires: int,
                     sender: string)
    requires Run(max, ws, es) && i < k < |ws| && es[i] == Create(p, id, expires)
    ensures p in ws[i].uploads
    ensures id in Pending(ws[k], sender) <==>
      sender == ws[i].uploads[p] && ws[k].clock < expires && !exists j :: i < j < k && es[j] == Delete(id)
  {
    CreatedStays(max, ws, es, i, k, p, id, expires);
  }

  // ---- the bound is reached ----

  /** Some run keeps at most `k` uploads of the sender in the gap and ends in `w`. */
  ghost predicate Reachable(max: int, k: nat, sender: string, w: World) {
    exists ws, es :: Narrow(max, k, sender, ws, es) && ws[|es|] == w
  }

  ghost predicate Narrow(max: int, k: nat, sender: string, ws: seq<World>, es: seq<Event>) {
    Run(max, ws, es) && forall j :: 0 <= j < |ws| ==> |InGap(ws[j], sender)| <= k
  }

  lemma ReachStep(max: int, k: nat, sender: string, w: World, w': World, e: Event)
    requires Reachable(max, k, sender, w) && Step(max, w, w', e) && |InGap(w', sender)| <= k
    ensures Reachable(max, k, sender, w')
  {
    var ws, es :| Narrow(max, k, sender, ws, es) && ws[|es|] == w;
    hide Step, InGap;
    var ws', es' := ws + [w'], es + [e];
    forall i | 0 <= i < |es'| ensures Step(max, ws'[i], ws'[i + 1], es'[i]) {
      assert i < |es| ==> Step(max, ws[i], ws[i + 1], es[i]);
    }
    assert Narrow(max, k, sender, ws', es') && ws'[|es'|] == w';
  }

  /** Ids told apart by their length. */
  function Id(n: nat): (id: string)
    ensures |id| == n
  {
    seq(n, _ => 'a')
  }

  function Rows(sender: string, n: nat): (rows: map<string, Transfer>)
    ensures |rows| == n && forall id :: id in rows ==> |id| < n && rows[id] == Transfer(sender, 1, false)
  {
    if n == 0 then map[] else Rows(sender, n - 1)[Id(n - 1) := Transfer(sender, 1, false)]
  }

  function Range(low: nat, high: nat): (ps: set<Pid>)
    requires low <= high
    ensures |ps| == high - low && forall p :: p in ps <==> low <= p < high
    decreases high
  {
    if low == high then {} else Range(low, high - 1) + {high - 1}
  }

  function Uploads(sender: string, low: nat, high: nat): map<Pid, string>
    requires low <= high
  {
    map p | p in Range(low, high) :: sender
  }

  /** `n` transfers created and the uploads from `low` to `high` under way. */
  function Stand(sender: string, n: nat, low: nat, high: nat): World
    requires low <= high
  {
    World(Rows(sender, n), Uploads(sender, low, high), 0)
  }

  lemma StandCounts(sender: string, n: nat, low: nat, high: nat)
    requires low <= high
    ensures |Pending(Stand(sender, n, low, high), sender)| == n
    ensures |InGap(Stand(sender, n, low, high), sender)| == high - low
  {
    var w := Stand(sender, n, low, high);
    assert Pending(w, sender) == w.rows.Keys;
    assert InGap(w, sender) == Range(low, high);
  }

  /** One more upload passes the check. */
  lemma CheckOne(max: int, k: nat, sender: string, n: nat, low: nat, high: nat)
    requires low <= high < low + k && n < max && Reachable(max, k, sender, Stand(sender, n, low, high))
    ensures Reachable(max, k, sender, Stand(sender, n, low, high + 1))
  {
    hide Reachable, Rows, Range;
    var w, w' := Stand(sender, n, low, high), Stand(sender, n, low, high + 1);
    StandCounts(sender, n, low, high);
    StandCounts(sender, n, low, high + 1);
    assert w'.uploads == w.uploads[high := sender];
    ReachStep(max, k, sender, w, w', Check(high, sender));
  }

  /** The oldest upload under way creates its row. */
  lemma CreateOne(max: int, k: nat, sender: string, n: nat, low: nat, high: nat)
    requires low < high <= low + k && Reachable(max, k, sender, Stand(sender, n, low, high))
    ensures Reachable(max, k, sender, Stand(sender, n + 1, low + 1, high))
  {
    hide Reachable, Pending, InGap, Range;
    var w, w' := Stand(sender, n, low, high), Stand(sender, n + 1, low + 1, high);
    StandCounts(sender, n + 1, low + 1, high);
    assert w'.uploads == w.uploads - {low};
    ReachStep(max, k, sender, w, w', Create(low, Id(n), 1));
  }

  lemma StartReachable(max: int, k: nat, sender: string)
    ensures Reachable(max, k, sender, Stand(sender, 0, 0, 0))
  {
    var w := Stand(sender, 0, 0, 0);
    assert w == World(map[], map[], 0);
    StandCounts(sender, 0, 0, 0);
    var ws: seq<World>, es: seq<Event> := [w], [];
    assert Narrow(max, k, sender, ws, es) && ws[|es|] == w;
  }

  /** Uploads one after the other fill the quota. */
  lemma {:induction false} FillUp(max: int, k: nat, sender: string, n: nat)
    requires k >= 1 && n <= max
    ensures Reachable(max, k, sender, Stand(sender, n, n, n))
  {
    hide Reachable, Stand;
    if n > 0 {
      FillUp(max, k, sender, n - 1);
      CheckOne(max, k, sender, n - 1, n - 1, n - 1);
      CreateOne(max, k, sender, n - 1, n - 1, n);
    } else {
      StartReachable(max, k, sender);
    }
  }

  lemma {:induction false} CheckMany(max: int, k: nat, sender: string, n: nat, m: nat)
    requires Reachable(max, k, sender, Stand(sender, n, n, n)) && m <= k && n < max
    ensures Reachable(max, k, sender, Stand(sender, n, n, n + m))
  {
    hide Reachable, Stand;
    if m > 0 {
      CheckMany(max, k, sender, n, m - 1);
      CheckOne(max, k, sender, n, n, n + m - 1);
    }
  }

  lemma {:induction false} CreateMany(max: int, k: nat, sender: string, n: nat, m: nat)
    requires m <= k && Reachable(max, k, sender, Stand(sender, n, n, n + k))
    ensures Reachable(max, k, sender, Stand(sender, n + m, n + m, n + k))
  {
    hide Reachable, Stand;
    if m > 0 {
      CreateMany(max, k, sender, n, m - 1);
      CreateOne(max, k, sender, n + m - 1, n + m - 1, n + k);
    }
  }

  /** With room for one more, `k` uploads check before any of them creates its row. */
  lemma BoundIsReached(max: int, k: nat, sender: string)
    requires max >= 1 && k >= 1
    ensures exists w :: Reachable(max, k, sender, w) && |Pending(w, sender)| == max + k - 1
  {
    hide Reachable, Stand, Pending;
    FillUp(max, k, sender, max - 1);
    CheckMany(max, k, sender, max - 1, k);
    CreateMany(max, k, sender, max - 1, k);
    StandCounts(sender, max - 1 + k, max - 1 + k, max - 1 + k);
  }

  /** The most pending transfers a sender can reach with at most `k` in the gap is
      max + k - 1, or none if the quota leaves no room. */
  lemma QuotaExact(max: int, k: nat, sender: string, bound: int)
    requires k >= 1
    ensures (forall w :: Reachable(max, k, sender, w) ==> |Pending(w, sender)| <= bound)
      <==> bound >= if max <= 0 then 0 else max + k - 1
  {
    hide Pending, Step, InGap;
    forall w | Reachable(max, k, sender, w)
      ensures |Pending(w, sender)| <= if max <= 0 then 0 else max + k - 1
    {
      var ws, es :| Narrow(max, k, sender, ws, es) && ws[|es|] == w;
      if max <= 0 {
        NoRoom(max, ws, es, |es|);
        NonePending(w, sender);
      } else {
        QuotaBound(max, k, ws, es, |es|, sender);
      }
    }
    if max >= 1 {
      BoundIsReached(max, k, sender);
    } else {
      Nothing(max, k, sender);
    }
  }

  lemma NonePending(w: World, sender: string)
    requires w.rows == map[]
    ensures Pending(w, sender) == {}
  {}

  lemma Nothing(max: int, k: nat, sender: string)
    ensures exists w :: Reachable(max, k, sender, w) && |Pending(w, sender)| == 0
  {
    hide Reachable, Stand, Pending;
    StartReachable(max, k, sender);
    StandCounts(sender, 0, 0, 0);
  }

  /** Runs with at most `k` uploads in the gap keep to the quota if and only if uploads
      are sequential or the quota leaves no room. */
  lemma QuotaKeptIff(max: int, k: nat, sender: string)
    requires k >= 1
    ensures (forall w :: Reachable(max, k, sender, w) ==> |Pending(w, sender)| <= Max(max, 0))
      <==> k == 1 || max <= 0
  {
    QuotaExact(max, k, sender, Max(max, 0));
    hide Pending, Reachable;
  }

  // ---- what the system allows ----

  ghost predicate CanHappen(max: int, w: World, e: Event) {
    exists w' :: Step(max, w, w', e)
  }

  /** Anyone may check, finish or give up at any time, and clocks and deletions go on. */
  lemma EventsHappen(max: int, w: World, p: Pid, sender: string, id: string, expires: int, now: int)
    ensures p !in w.uploads ==> CanHappen(max, w, Check(p, sender))
    ensures p in w.uploads && id !in w.rows ==> CanHappen(max, w, Create(p, id, expires))
    ensures CanHappen(max, w, GiveUp(p))
    ensures id in w.rows ==> CanHappen(max, w, Delete(id))
    ensures w.clock <= now ==> CanHappen(max, w, Tick(now))
  {
    hide Pending;
    if p !in w.uploads {
      assert Step(max, w, if |Pending(w, sender)| >= max then w else w.(uploads := w.uploads[p := sender]),
                  Check(p, sender));
    } else if id !in w.rows {
      assert Step(max, w, w.(rows := w.rows[id := Transfer(w.uploads[p], expires, false)],
                             uploads := w.uploads - {p}), Create(p, id, expires));
    }
    assert Step(max, w, w.(uploads := w.uploads - {p}), GiveUp(p));
    if id in w.rows {
      assert Step(max, w, w.(rows := w.rows[id := w.rows[id].(deleted := true)]), Delete(id));
    }
    if w.clock <= now {
      assert Step(max, w, w.(clock := now), Tick(now));
    }
  }
}
