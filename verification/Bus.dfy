/** Senders, consumers and the signal files as one transition system. Each
    transaction of the repository is one atomic step, and so is each operation
    on a signal file; processes interleave freely between steps. */
module Bus {
  import opened Prelude
  import opened IsoText
  import opened MailStore

  type Pid = nat

  /** A sender is idle, or has committed a message and not yet notified. One that
      dies there stays in the gap. */
  datatype SenderPc = Idle | InGap(target: string, id: string)

  datatype ConsumerPc =
    | Ready          // outside any call
    | ClearPending   // a consuming read returned rows; the signal is not yet cleared
    | Entering       // subscribe read nothing; about to make the first exists() test
    | Polling        // in the loop of wait
    | RemovePending  // exists() was true; the file is not yet removed
    | Fired          // wait returned True; the second read is still to come

  datatype Consumer = Consumer(agent: string, pc: ConsumerPc)

  /** A message as a consuming read returned it. */
  datatype Delivery = Delivery(id: string, row: Row)

  /** `committed`, `delivered` and `dropped` (purged while unread) record the past;
      no step reads them except to keep ids fresh. */
  datatype State = State(table: Table, agents: set<string>, clock: Instant, signals: set<string>,
                         senders: map<Pid, SenderPc>, consumers: map<Pid, Consumer>,
                         committed: Table, delivered: seq<Delivery>, dropped: set<string>)

  datatype Event =
    | Register(agent: string)
    | Commit(s: Pid, id: string, row: Row)
    | Notify(s: Pid)
    | Abort
    | SubscribeRead(c: Pid, limit: int, now: Instant, batch: seq<string>)
    | InboxRead(c: Pid, limit: int, now: Instant, batch: seq<string>)
    | FacadeRead(c: Pid, limit: int, now: Instant, batch: seq<string>)
    | Clear(c: Pid)
    | Exists(c: Pid)
    | Timeout(c: Pid)
    | Remove(c: Pid)
    | SecondRead(c: Pid, limit: int, now: Instant, batch: seq<string>)
    | Purge(now: Instant, days: int, readOnly: bool)
    | Noise(files: set<string>)

  function Deliveries(t: Table, batch: seq<string>): (ds: seq<Delivery>)
    requires forall i :: 0 <= i < |batch| ==> batch[i] in t
    ensures |ds| == |batch|
    ensures forall i :: 0 <= i < |batch| ==> ds[i] == Delivery(batch[i], t[batch[i]])
  {
    seq(|batch|, i requires 0 <= i < |batch| => Delivery(batch[i], t[batch[i]]))
  }

  ghost predicate At(s: State, c: Pid, pc: ConsumerPc) {
    c in s.consumers && s.consumers[c].pc == pc
  }

  function Goto(s: State, c: Pid, pc: ConsumerPc): State
    requires c in s.consumers
  {
    s.(consumers := s.consumers[c := s.consumers[c].(pc := pc)])
  }

  /** A consuming read by `c`, after which it stands at `pc`. */
  ghost predicate Read(s: State, s': State, c: Pid, limit: int, now: Instant, batch: seq<string>, pc: ConsumerPc) {
    && c in s.consumers
    && s.clock <= now
    && ReadTx(s.table, s'.table, s.consumers[c].agent, limit, now, batch)
    && (forall i :: 0 <= i < |batch| ==> batch[i] in s'.table)
    && s' == Goto(s, c, pc).(table := s'.table, clock := now,
                             delivered := s.delivered + Deliveries(s'.table, batch))
  }

  ghost predicate Step(s: State, s': State, e: Event) {
    match e
    case Register(a) =>
      s' == s.(agents := s.agents + {a})
    case Commit(p, id, row) =>
      && p in s.senders && s.senders[p] == Idle
      && id !in s.committed
      && row.sender != row.recipient && row.sender in s.agents && row.recipient in s.agents
      && row.readAt == None && s.clock <= row.createdAt
      && s' == s.(table := s.table[id := row], clock := row.createdAt,
                  committed := s.committed[id := row],
                  senders := s.senders[p := InGap(row.recipient, id)])
    case Notify(p) =>
      && p in s.senders && s.senders[p].InGap?
      && s' == s.(signals := s.signals + {s.senders[p].target}, senders := s.senders[p := Idle])
    case Abort =>
      s' == s
    case SubscribeRead(c, limit, now, batch) =>
      At(s, c, Ready) && Read(s, s', c, limit, now, batch, if batch == [] then Entering else ClearPending)
    case InboxRead(c, limit, now, batch) =>
      At(s, c, Ready) && Read(s, s', c, limit, now, batch, if batch == [] then Ready else ClearPending)
    case FacadeRead(c, limit, now, batch) =>
      At(s, c, Ready) && Read(s, s', c, limit, now, batch, Ready)
    case Clear(c) =>
      At(s, c, ClearPending) && s' == Goto(s, c, Ready).(signals := s.signals - {s.consumers[c].agent})
    case Exists(c) =>
      && (At(s, c, Entering) || At(s, c, Polling))
      && s' == Goto(s, c, if s.consumers[c].agent in s.signals then RemovePending else Polling)
    case Timeout(c) =>
      At(s, c, Polling) && s' == Goto(s, c, Ready)
    case Remove(c) =>
      At(s, c, RemovePending) && s' == Goto(s, c, Fired).(signals := s.signals - {s.consumers[c].agent})
    case SecondRead(c, limit, now, batch) =>
      At(s, c, Fired) && Read(s, s', c, limit, now, batch, Ready)
    case Purge(now, days, readOnly) =>
      && s.clock <= now && days >= 1
      && s'.table == Purged(s.table, now, days, readOnly)
      && s' == s.(table := s'.table, clock := now,
                  dropped := s.dropped + set id | id in s.table && id !in s'.table && s.table[id].readAt.None?)
    case Noise(files) =>
      s' == s.(signals := files)
  }

  ghost predicate Init(s: State) {
    && s.table == map[] && s.committed == map[] && s.delivered == [] && s.dropped == {}
    && (forall p :: p in s.senders ==> s.senders[p] == Idle)
    && (forall c :: c in s.consumers ==> s.consumers[c].pc == Ready)
  }

  ghost predicate Run(ss: seq<State>, es: seq<Event>) {
    && |ss| == |es| + 1 && Init(ss[0])
    && forall i :: 0 <= i < |es| ==> Step(ss[i], ss[i + 1], es[i])
  }

  // ---- kinds of events ----

  /** Events that neither read nor change the messages. */
  predicate IsIdle(e: Event) {
    e.Register? || e.Notify? || e.Abort? || e.Clear? || e.Exists? || e.Timeout? || e.Remove? || e.Noise?
  }

  lemma IdleKeepsMail(s: State, s': State, e: Event)
    requires Step(s, s', e) && IsIdle(e)
    ensures s'.table == s.table && s'.delivered == s.delivered && s'.clock == s.clock
    ensures s'.committed == s.committed && s'.dropped == s.dropped
  {}

  predicate IsRead(e: Event) {
    e.SubscribeRead? || e.InboxRead? || e.FacadeRead? || e.SecondRead?
  }

  /** Each of the reading events is a consuming read. */
  lemma ReadEvent(s: State, s': State, e: Event)
    requires Step(s, s', e) && IsRead(e)
    ensures e.c in s'.consumers && Read(s, s', e.c, e.limit, e.now, e.batch, s'.consumers[e.c].pc)
    ensures s'.consumers[e.c].pc == Entering || s'.consumers[e.c].pc == Polling ==> e.batch == []
  {
    hide ReadTx;
  }

  // ---- who may change what ----

  /** Rows come only by a commit, unread; go only by a purge, when old enough; and change
      only by a read of their recipient, which sets the read mark and nothing else. */
  lemma RowsChangeOnlyBy(s: State, s': State, e: Event, id: string)
    requires Step(s, s', e)
    ensures id in s'.table && id !in s.table ==>
      e.Commit? && e.id == id && s'.table[id] == e.row && e.row.readAt == None && e.row.createdAt == s'.clock
    ensures id in s.table && id !in s'.table ==>
      e.Purge? && e.days >= 1 && s.table[id].createdAt / 86_400_000_000 < e.now / 86_400_000_000 - e.days
      && (e.readOnly ==> s.table[id].readAt.Some?)
    ensures e.Commit? ==> e.id in s'.table && s'.table[e.id] == e.row
    ensures e.Purge? && id in s'.table ==>
      !(s'.table[id].createdAt / 86_400_000_000 < e.now / 86_400_000_000 - e.days
        && (e.readOnly ==> s'.table[id].readAt.Some?))
    ensures id in s.table && id in s'.table && s'.table[id] != s.table[id] && id in s.committed ==>
      && IsRead(e) && id in e.batch && e.c in s.consumers && s.table[id].recipient == s.consumers[e.c].agent
      && s.table[id].readAt == None && s'.table[id] == s.table[id].(readAt := Some(e.now))
  {
    hide Step, Read, PurgeVictim;
    if IsRead(e) {
      ReadEvent(s, s', e);
      ReadEffect(s, s', e.c, e.limit, e.now, e.batch, s'.consumers[e.c].pc);
      ReadersOwn(s, s', e.c, e.limit, e.now, e.batch, s'.consumers[e.c].pc);
    } else if IsIdle(e) {
      IdleKeepsMail(s, s', e);
    } else if e.Purge? {
      PurgeTakes(s, s', e, id);
    } else {
      CommitAdds(s, s', e, id);
    }
  }

  lemma ReadersOwn(s: State, s': State, c: Pid, limit: int, now: Instant, batch: seq<string>, pc: ConsumerPc)
    requires Read(s, s', c, limit, now, batch, pc)
    ensures c in s.consumers
    ensures forall id :: id in batch ==> id in s.table && s.table[id].recipient == s.consumers[c].agent
  {
    assert forall i :: 0 <= i < |batch| ==> batch[i] in Unread(s.table, s.consumers[c].agent);
    hide MarkRead, Deliveries;
  }

  lemma PurgeTakes(s: State, s': State, e: Event, id: string)
    requires e.Purge? && Step(s, s', e)
    ensures s'.table.Keys <= s.table.Keys && (id in s'.table ==> s'.table[id] == s.table[id])
    ensures id in s.table && id !in s'.table ==>
      e.days >= 1 && s.table[id].createdAt / 86_400_000_000 < e.now / 86_400_000_000 - e.days
      && (e.readOnly ==> s.table[id].readAt.Some?)
    ensures id in s'.table ==>
      !(s'.table[id].createdAt / 86_400_000_000 < e.now / 86_400_000_000 - e.days
        && (e.readOnly ==> s'.table[id].readAt.Some?))
  {
    hide PurgeVictim;
    if id in s.table {
      PurgeByDate(s.table[id], e.now, e.days, e.readOnly);
    }
  }

  lemma CommitAdds(s: State, s': State, e: Event, id: string)
    requires e.Commit? && Step(s, s', e)
    ensures e.row.readAt == None && e.row.createdAt == s'.clock
    ensures s'.table == s.table[e.id := e.row] && e.id !in s.committed
  {}

  /** A signal appears only by the notice of a sender to its target, and disappears only by
      a clear or remove of the agent's own consumer. */
  lemma SignalsChangeOnlyBy(s: State, s': State, e: Event, agent: string)
    requires Step(s, s', e) && !e.Noise?
    ensures agent in s'.signals && agent !in s.signals ==>
      e.Notify? && e.s in s.senders && s.senders[e.s].InGap? && s.senders[e.s].target == agent
    ensures agent in s.signals && agent !in s'.signals ==>
      (e.Clear? || e.Remove?) && e.c in s.consumers && s.consumers[e.c].agent == agent
    ensures e.Notify? ==> e.s in s.senders && s.senders[e.s].InGap? && s.senders[e.s].target in s'.signals
    ensures e.Clear? || e.Remove? ==> e.c in s.consumers && s.consumers[e.c].agent !in s'.signals
  {
    hide ReadTx, Purged;
  }

  /** Where a consumer goes, and what it has seen there. */
  lemma ConsumersMove(s: State, s': State, e: Event, c: Pid)
    requires Step(s, s', e) && c in s.consumers && c in s'.consumers && s'.consumers[c].pc != s.consumers[c].pc
    ensures match s'.consumers[c].pc
      case Entering => e.SubscribeRead? && e.c == c && e.batch == [] && s.consumers[c].pc == Ready
      case ClearPending => (e.SubscribeRead? || e.InboxRead?) && e.c == c && e.batch != [] && s.consumers[c].pc == Ready
      case Polling => e == Exists(c) && s.consumers[c].pc == Entering && s.consumers[c].agent !in s.signals
      case RemovePending => e == Exists(c) && Waiting(s, c) && s.consumers[c].agent in s.signals
      case Fired => e == Remove(c) && s.consumers[c].pc == RemovePending
      case Ready =>
        || (e == Clear(c) && s.consumers[c].pc == ClearPending)
        || (e == Timeout(c) && s.consumers[c].pc == Polling)
        || (e.SecondRead? && e.c == c && s.consumers[c].pc == Fired)
  {
    hide ReadTx, Purged;
  }

  /** A consumer fires only on a signal it has seen. */
  lemma {:induction false} FiredOnSignal(ss: seq<State>, es: seq<Event>, k: nat, c: Pid) returns (i: nat)
    requires Run(ss, es) && k < |ss| && c in ss[0].consumers && (At(ss[k], c, RemovePending) || At(ss[k], c, Fired))
    ensures i < k && es[i] == Exists(c) && c in ss[i].consumers && ss[i].consumers[c].agent in ss[i].signals
  {
    hide Step;
    if k == 0 {
      assert false;
    }
    assert Step(ss[k - 1], ss[k], es[k - 1]);
    SameConsumers(ss[k - 1], ss[k], es[k - 1]);
    if ss[k].consumers[c].pc == ss[k - 1].consumers[c].pc {
      i := FiredOnSignal(ss, es, k - 1, c);
    } else {
      ConsumersMove(ss[k - 1], ss[k], es[k - 1], c);
      if At(ss[k], c, Fired) {
        i := FiredOnSignal(ss, es, k - 1, c);
      } else {
        i := k - 1;
      }
    }
  }

  /** A consumer times out only after a look that found no signal. */
  lemma {:induction false} PolledInVain(ss: seq<State>, es: seq<Event>, k: nat, c: Pid) returns (i: nat)
    requires Run(ss, es) && k < |ss| && c in ss[0].consumers && At(ss[k], c, Polling)
    ensures i < k && es[i] == Exists(c) && c in ss[i].consumers && ss[i].consumers[c].agent !in ss[i].signals
  {
    hide Step;
    if k == 0 {
      assert false;
    }
    assert Step(ss[k - 1], ss[k], es[k - 1]);
    SameConsumers(ss[k - 1], ss[k], es[k - 1]);
    if ss[k].consumers[c].pc == ss[k - 1].consumers[c].pc {
      i := PolledInVain(ss, es, k - 1, c);
    } else {
      ConsumersMove(ss[k - 1], ss[k], es[k - 1], c);
      i := k - 1;
    }
  }

  /** Every committed message goes from one registered agent to another, and a sender in
      the gap is about to signal the recipient of its own message. */
  ghost predicate Addressed(s: State) {
    && (forall id :: id in s.committed ==>
          && s.committed[id].sender != s.committed[id].recipient
          && s.committed[id].sender in s.agents && s.committed[id].recipient in s.agents)
    && (forall p :: p in s.senders && s.senders[p].InGap? ==>
          s.senders[p].id in s.committed && s.committed[s.senders[p].id].recipient == s.senders[p].target)
  }

  lemma StepKeepsAddressed(s: State, s': State, e: Event)
    requires Addressed(s) && Step(s, s', e)
    ensures Addressed(s')
  {
    hide ReadTx, Purged;
  }

  lemma {:induction false} AlwaysAddressed(ss: seq<State>, es: seq<Event>, i: nat)
    requires Run(ss, es) && i < |ss|
    ensures Addressed(ss[i])
  {
    hide Step;
    if i > 0 {
      AlwaysAddressed(ss, es, i - 1);
      StepKeepsAddressed(ss[i - 1], ss[i], es[i - 1]);
    }
  }

  // ---- exactly once ----

  ghost predicate IsUnread(s: State, id: string) {
    id in s.table && s.table[id].readAt.None?
  }

  ghost predicate IsDelivered(s: State, id: string) {
    exists i :: 0 <= i < |s.delivered| && s.delivered[i].id == id
  }

  /** Every committed message is unread, delivered or dropped, and only one of these. */
  ghost predicate Accounted(s: State) {
    && (forall id :: id in s.committed ==> IsUnread(s, id) || IsDelivered(s, id) || id in s.dropped)
    && (forall id :: IsUnread(s, id) ==> !IsDelivered(s, id))
    && (forall id :: id in s.dropped ==> id in s.committed && id !in s.table && !IsDelivered(s, id))
    && (forall id :: id in s.table && s.table[id].readAt.Some? ==> IsDelivered(s, id))
  }

  /** Contents never change but for the read mark, in the table and as delivered. */
  ghost predicate Faithful(s: State) {
    && (forall id :: id in s.table ==> id in s.committed && Same(s.table[id], s.committed[id]))
    && (forall i :: 0 <= i < |s.delivered| ==>
          s.delivered[i].id in s.committed && Same(s.delivered[i].row, s.committed[s.delivered[i].id])
          && s.delivered[i].row.readAt.Some?)
  }

  /** None is delivered twice. */
  ghost predicate Distinct(s: State) {
    forall i, j :: 0 <= i < j < |s.delivered| ==> s.delivered[i].id != s.delivered[j].id
  }

  ghost predicate ExactlyOnce(s: State) {
    Accounted(s) && Faithful(s) && Distinct(s)
  }

  ghost predicate Same(r: Row, origin: Row) {
    r.(readAt := None) == origin.(readAt := None)
  }

  /** A read takes its batch out of the unread and appends it to the delivered. */
  lemma ReadEffect(s: State, s': State, c: Pid, limit: int, now: Instant, batch: seq<string>, pc: ConsumerPc)
    requires Read(s, s', c, limit, now, batch, pc)
    ensures s'.table.Keys == s.table.Keys && NoDuplicates(batch)
    ensures forall i :: 0 <= i < |batch| ==> batch[i] in s'.table
    ensures forall id :: id in batch ==> IsUnread(s, id) && s'.table[id] == s.table[id].(readAt := Some(now))
    ensures forall id :: id in s.table && id !in batch ==> s'.table[id] == s.table[id]
    ensures s'.delivered == s.delivered + Deliveries(s'.table, batch)
    ensures s'.committed == s.committed && s'.dropped == s.dropped
  {}

  lemma DeliveredAfter(s: State, s': State, batch: seq<string>)
    requires forall i :: 0 <= i < |batch| ==> batch[i] in s'.table
    requires s'.delivered == s.delivered + Deliveries(s'.table, batch)
    ensures forall id :: IsDelivered(s', id) <==> IsDelivered(s, id) || id in batch
  {
    var n := |s.delivered|;
    forall id ensures IsDelivered(s', id) <==> IsDelivered(s, id) || id in batch {
      if IsDelivered(s, id) {
        var i :| 0 <= i < n && s.delivered[i].id == id;
        assert s'.delivered[i].id == id;
      }
      if id in batch {
        var i :| 0 <= i < |batch| && batch[i] == id;
        assert s'.delivered[n + i].id == id;
      }
      if IsDelivered(s', id) {
        var i :| 0 <= i < |s'.delivered| && s'.delivered[i].id == id;
        assert i < n ==> s.delivered[i].id == id;
      }
    }
  }

  lemma DeliveredDistinct(s: State, s': State, batch: seq<string>)
    requires forall i :: 0 <= i < |batch| ==> batch[i] in s'.table && !IsDelivered(s, batch[i])
    requires s'.delivered == s.delivered + Deliveries(s'.table, batch) && NoDuplicates(batch)
    requires forall i, j :: 0 <= i < j < |s.delivered| ==> s.delivered[i].id != s.delivered[j].id
    ensures forall i, j :: 0 <= i < j < |s'.delivered| ==> s'.delivered[i].id != s'.delivered[j].id
  {}

  lemma ReadKeepsAccounted(s: State, s': State, c: Pid, limit: int, now: Instant, batch: seq<string>, pc: ConsumerPc)
    requires Accounted(s) && Faithful(s) && Read(s, s', c, limit, now, batch, pc)
    ensures Accounted(s')
  {
    hide Read, IsDelivered, Same;
    ReadEffect(s, s', c, limit, now, batch, pc);
    DeliveredAfter(s, s', batch);
  }

  lemma ReadKeepsFaithful(s: State, s': State, c: Pid, limit: int, now: Instant, batch: seq<string>, pc: ConsumerPc)
    requires Faithful(s) && Read(s, s', c, limit, now, batch, pc)
    ensures Faithful(s')
  {}

  lemma ReadKeepsExactlyOnce(s: State, s': State, c: Pid, limit: int, now: Instant, batch: seq<string>, pc: ConsumerPc)
    requires ExactlyOnce(s) && Read(s, s', c, limit, now, batch, pc)
    ensures ExactlyOnce(s')
  {
    hide Read, Faithful;
    ReadKeepsAccounted(s, s', c, limit, now, batch, pc);
    ReadKeepsFaithful(s, s', c, limit, now, batch, pc);
    ReadEffect(s, s', c, limit, now, batch, pc);
    forall i | 0 <= i < |batch| ensures batch[i] in s'.table && !IsDelivered(s, batch[i]) {
      assert batch[i] in batch;
    }
    DeliveredDistinct(s, s', batch);
  }

  lemma CommitKeepsAccounted(s: State, s': State, p: Pid, id: string, row: Row)
    requires ExactlyOnce(s) && Step(s, s', Commit(p, id, row))
    ensures Accounted(s') && Distinct(s')
  {}

  lemma CommitKeepsFaithful(s: State, s': State, p: Pid, id: string, row: Row)
    requires Faithful(s) && Step(s, s', Commit(p, id, row))
    ensures Faithful(s')
  {}

  lemma CommitKeepsExactlyOnce(s: State, s': State, p: Pid, id: string, row: Row)
    requires ExactlyOnce(s) && Step(s, s', Commit(p, id, row))
    ensures ExactlyOnce(s')
  {
    hide Step, Accounted, Faithful, Distinct;
    CommitKeepsAccounted(s, s', p, id, row);
    CommitKeepsFaithful(s, s', p, id, row);
  }

  lemma SameLog(s: State, s': State)
    requires s'.delivered == s.delivered
    ensures forall x :: IsDelivered(s', x) <==> IsDelivered(s, x)
  {}

  lemma PurgeKeepsExactlyOnce(s: State, s': State, e: Event)
    requires ExactlyOnce(s) && e.Purge? && Step(s, s', e)
    ensures ExactlyOnce(s')
  {
    SameLog(s, s');
  }

  lemma SameMail(s: State, s': State)
    requires ExactlyOnce(s) && s'.table == s.table && s'.delivered == s.delivered
    requires s'.committed == s.committed && s'.dropped == s.dropped
    ensures ExactlyOnce(s')
  {}

  lemma StepKeepsExactlyOnce(s: State, s': State, e: Event)
    requires ExactlyOnce(s) && Step(s, s', e)
    ensures ExactlyOnce(s')
  {
    hide Step, Read, ExactlyOnce;
    if IsRead(e) {
      ReadEvent(s, s', e);
      ReadKeepsExactlyOnce(s, s', e.c, e.limit, e.now, e.batch, s'.consumers[e.c].pc);
    } else if IsIdle(e) {
      IdleKeepsMail(s, s', e);
      SameMail(s, s');
    } else if e.Purge? {
      PurgeKeepsExactlyOnce(s, s', e);
    } else {
      CommitKeepsExactlyOnce(s, s', e.s, e.id, e.row);
    }
  }

  /** Whatever happens to the signal files, and however reads, purges and aborts
      interleave, every message is delivered at most once and lost only to a purge. */
  lemma {:induction false} ExactlyOnceAlways(ss: seq<State>, es: seq<Event>, i: nat)
    requires Run(ss, es) && i < |ss|
    ensures ExactlyOnce(ss[i])
  {
    if i > 0 {
      ExactlyOnceAlways(ss, es, i - 1);
      StepKeepsExactlyOnce(ss[i - 1], ss[i], es[i - 1]);
    }
  }

  // ---- first in, first out ----

  ghost predicate Ordered(s: State) {
    && (forall id :: id in s.table ==> s.table[id].createdAt <= s.clock)
    && (forall i, id :: 0 <= i < |s.delivered| && IsUnread(s, id)
          && s.table[id].recipient == s.delivered[i].row.recipient
          ==> s.delivered[i].row.createdAt <= s.table[id].createdAt)
    && (forall i, j :: 0 <= i < j < |s.delivered|
          && s.delivered[i].row.recipient == s.delivered[j].row.recipient
          ==> s.delivered[i].row.createdAt <= s.delivered[j].row.createdAt)
    && (forall i :: 0 <= i < |s.delivered| ==> s.delivered[i].row.createdAt <= s.clock)
  }

  /** The entries a read appends: unread mail of one recipient, in order, and none of the
      rest of it is older. */
  ghost predicate Appends(s: State, s': State, agent: string, ds: seq<Delivery>) {
    && s'.delivered == s.delivered + ds
    && (forall i :: 0 <= i < |ds| ==>
          && IsUnread(s, ds[i].id) && s.table[ds[i].id].recipient == agent == ds[i].row.recipient
          && ds[i].row.createdAt == s.table[ds[i].id].createdAt)
    && (forall i, j :: 0 <= i < j < |ds| ==> ds[i].row.createdAt <= ds[j].row.createdAt)
    && (forall i, id :: 0 <= i < |ds| && IsUnread(s', id) && s'.table[id].recipient == agent ==>
          ds[i].row.createdAt <= s'.table[id].createdAt)
    && (forall id :: IsUnread(s', id) ==> IsUnread(s, id) && s'.table[id] == s.table[id])
    && (forall id :: id in s'.table ==> id in s.table && s'.table[id].createdAt == s.table[id].createdAt)
    && s.clock <= s'.clock
  }

  lemma ReadAppends(s: State, s': State, c: Pid, limit: int, now: Instant, batch: seq<string>, pc: ConsumerPc)
    requires Read(s, s', c, limit, now, batch, pc)
    ensures Appends(s, s', s.consumers[c].agent, s'.delivered[|s.delivered|..])
  {
    ReadEffect(s, s', c, limit, now, batch, pc);
    BatchInOrder(s, s', c, limit, now, batch, pc);
    var ds := Deliveries(s'.table, batch);
    assert s'.delivered[|s.delivered|..] == ds && s'.clock == now >= s.clock;
    assert forall i :: 0 <= i < |batch| ==> batch[i] in batch;
    hide Read, Deliveries, MarkRead;
  }

  lemma BatchInOrder(s: State, s': State, c: Pid, limit: int, now: Instant, batch: seq<string>, pc: ConsumerPc)
    requires Read(s, s', c, limit, now, batch, pc)
    ensures var agent := s.consumers[c].agent;
      && (forall i :: 0 <= i < |batch| ==> IsUnread(s, batch[i]) && s.table[batch[i]].recipient == agent)
      && (forall i, j :: 0 <= i < j < |batch| ==> s.table[batch[i]].createdAt <= s.table[batch[j]].createdAt)
      && (forall i, id :: 0 <= i < |batch| && IsUnread(s, id) && s.table[id].recipient == agent && id !in batch ==>
            s.table[batch[i]].createdAt <= s.table[id].createdAt)
  {
    var key := Unread(s.table, s.consumers[c].agent);
    assert FirstByKey(key, Clamp(limit, 1, 100), batch);
    hide Read, ReadTx;
  }

  lemma ReadKeepsOrdered(s: State, s': State, c: Pid, limit: int, now: Instant, batch: seq<string>, pc: ConsumerPc)
    requires Ordered(s) && Read(s, s', c, limit, now, batch, pc)
    ensures Ordered(s')
  {
    ReadAppends(s, s', c, limit, now, batch, pc);
    AppendKeepsOrdered(s, s', s.consumers[c].agent, s'.delivered[|s.delivered|..]);
    hide Read, Appends, Ordered;
  }

  lemma AppendKeepsOrdered(s: State, s': State, agent: string, ds: seq<Delivery>)
    requires Ordered(s) && Appends(s, s', agent, ds)
    ensures Ordered(s')
  {}

  lemma PurgeKeepsOrdered(s: State, s': State, e: Event)
    requires Ordered(s) && e.Purge? && Step(s, s', e)
    ensures Ordered(s')
  {
    hide PurgeVictim;
    assert forall id :: IsUnread(s', id) ==> IsUnread(s, id) && s'.table[id] == s.table[id];
    hide Purged;
  }

  lemma CommitKeepsOrdered(s: State, s': State, e: Event)
    requires Ordered(s) && e.Commit? && Step(s, s', e)
    ensures Ordered(s')
  {
    assert forall x :: IsUnread(s', x) ==> x == e.id || (IsUnread(s, x) && s'.table[x] == s.table[x]);
  }

  lemma SameMailOrdered(s: State, s': State)
    requires Ordered(s) && s'.table == s.table && s'.delivered == s.delivered && s'.clock == s.clock
    ensures Ordered(s')
  {}

  lemma StepKeepsOrdered(s: State, s': State, e: Event)
    requires Ordered(s) && Step(s, s', e)
    ensures Ordered(s')
  {
    hide Step, Ordered, Read;
    if IsRead(e) {
      ReadEvent(s, s', e);
      ReadKeepsOrdered(s, s', e.c, e.limit, e.now, e.batch, s'.consumers[e.c].pc);
    } else if IsIdle(e) {
      IdleKeepsMail(s, s', e);
      SameMailOrdered(s, s');
    } else if e.Purge? {
      PurgeKeepsOrdered(s, s', e);
    } else {
      CommitKeepsOrdered(s, s', e);
    }
  }

  /** The consuming batches of one recipient, laid end to end over all its readers
      and all limits, never go back in creation time. */
  lemma {:induction false} FifoAlways(ss: seq<State>, es: seq<Event>, i: nat)
    requires Run(ss, es) && i < |ss|
    ensures Ordered(ss[i])
  {
    if i > 0 {
      FifoAlways(ss, es, i - 1);
      StepKeepsOrdered(ss[i - 1], ss[i], es[i - 1]);
    }
  }

  // ---- no lost wake-up ----

  /** Every other consumer of `c`'s agent is one of `h`. */
  ghost predicate Alone(s: State, c: Pid, h: set<Pid>) {
    c in s.consumers
    && forall d :: d in s.consumers && s.consumers[d].agent == s.consumers[c].agent ==> d == c || d in h
  }

  /** The consumers of `h` take no signal away: they may read through the façade,
      which leaves signals alone, but never clear or remove one. */
  ghost predicate Gentle(e: Event, h: set<Pid>) {
    e.Clear? || e.Remove? ==> e.c !in h
  }

  ghost predicate Harmless(es: seq<Event>, h: set<Pid>) {
    forall i :: 0 <= i < |es| ==> Gentle(es[i], h)
  }

  ghost predicate Waiting(s: State, c: Pid) {
    At(s, c, Entering) || At(s, c, Polling)
  }

  /** Some sender has committed this message and not yet notified. */
  ghost predicate Announcing(s: State, agent: string, id: string) {
    exists p :: p in s.senders && s.senders[p] == InGap(agent, id)
  }

  /** While the consumer waits, each unread message has its signal, or its sender
      is about to raise it. */
  ghost predicate Covered(s: State, c: Pid) {
    c in s.consumers && (Waiting(s, c) ==>
      forall id :: id in Unread(s.table, s.consumers[c].agent) ==>
        s.consumers[c].agent in s.signals || Announcing(s, s.consumers[c].agent, id))
  }

  /** Nobody changes which consumer serves which agent. */
  lemma SameConsumers(s: State, s': State, e: Event)
    requires Step(s, s', e)
    ensures s'.consumers.Keys == s.consumers.Keys
    ensures forall c :: c in s.consumers ==> s'.consumers[c].agent == s.consumers[c].agent
  {
    hide Step, Read;
    if IsRead(e) {
      ReadEvent(s, s', e);
      ReaderStays(s, s', e.c, e.limit, e.now, e.batch, s'.consumers[e.c].pc);
    } else {
      RestStays(s, s', e);
    }
  }

  lemma ReaderStays(s: State, s': State, c: Pid, limit: int, now: Instant, batch: seq<string>, pc: ConsumerPc)
    requires Read(s, s', c, limit, now, batch, pc)
    ensures c in s.consumers && s'.consumers == s.consumers[c := Consumer(s.consumers[c].agent, pc)]
    ensures s'.consumers.Keys == s.consumers.Keys
  {
    hide ReadTx;
  }

  lemma RestStays(s: State, s': State, e: Event)
    requires Step(s, s', e) && !IsRead(e)
    ensures s'.consumers.Keys == s.consumers.Keys
    ensures forall c :: c in s.consumers ==> s'.consumers[c].agent == s.consumers[c].agent
  {
    hide Read, Purged;
  }

  lemma ReadKeepsCovered(s: State, s': State, c: Pid, d: Pid, limit: int, now: Instant,
                         batch: seq<string>, pc: ConsumerPc)
    requires c in s.consumers && Covered(s, c) && Read(s, s', d, limit, now, batch, pc)
    requires pc == Entering || pc == Polling ==> batch == []
    ensures Covered(s', c)
  {
    var a := s.consumers[c].agent;
    assert forall id :: id in Unread(s'.table, a) ==> id in Unread(s.table, a);
    if d == c && batch == [] {
      assert forall id :: id !in Unread(s.table, a);
    } else if d != c {
      assert s'.senders == s.senders && s'.consumers[c] == s.consumers[c];
    }
  }

  lemma StepKeepsCovered(s: State, s': State, e: Event, c: Pid, h: set<Pid>)
    requires Alone(s, c, h) && c !in h && Covered(s, c) && Step(s, s', e) && !e.Noise? && Gentle(e, h)
    ensures Alone(s', c, h) && Covered(s', c)
    ensures s'.consumers[c].agent == s.consumers[c].agent
  {
    SameConsumers(s, s', e);
    hide Read, Step, Covered;
    if IsRead(e) {
      ReadEvent(s, s', e);
      ReadKeepsCovered(s, s', c, e.c, e.limit, e.now, e.batch, s'.consumers[e.c].pc);
    } else if e.Commit? {
      CommitKeepsCovered(s, s', e.s, e.id, e.row, c);
    } else if e.Notify? {
      NotifyKeepsCovered(s, s', e.s, c);
    } else if e.Purge? {
      PurgeKeepsCovered(s, s', e.now, e.days, e.readOnly, c);
    } else {
      RestKeepsCovered(s, s', e, c, h);
    }
  }

  lemma PurgeKeepsCovered(s: State, s': State, now: Instant, days: int, readOnly: bool, c: Pid)
    requires Covered(s, c) && Step(s, s', Purge(now, days, readOnly))
    ensures Covered(s', c)
  {
    hide PurgeVictim;
    var a := s.consumers[c].agent;
    assert forall id :: id in Unread(s'.table, a) ==> id in Unread(s.table, a);
    assert s'.senders == s.senders;
  }

  lemma RestKeepsCovered(s: State, s': State, e: Event, c: Pid, h: set<Pid>)
    requires Alone(s, c, h) && Covered(s, c) && Step(s, s', e) && Gentle(e, h)
    requires e.Register? || e.Abort? || e.Clear? || e.Exists? || e.Timeout? || e.Remove?
    ensures Covered(s', c)
  {
    assert s'.senders == s.senders && s'.table == s.table;
  }

  lemma CommitKeepsCovered(s: State, s': State, p: Pid, id: string, row: Row, c: Pid)
    requires Covered(s, c) && Step(s, s', Commit(p, id, row))
    ensures Covered(s', c)
  {
    var a := s.consumers[c].agent;
    if Waiting(s', c) {
      forall x | x in Unread(s'.table, a)
        ensures a in s'.signals || Announcing(s', a, x)
      {
        if x == id {
          assert s'.senders[p] == InGap(a, id);
        } else {
          assert x in Unread(s.table, a);
          if Announcing(s, a, x) {
            var q :| q in s.senders && s.senders[q] == InGap(a, x);
            assert s'.senders[q] == InGap(a, x);
          }
        }
      }
    }
  }

  lemma NotifyKeepsCovered(s: State, s': State, p: Pid, c: Pid)
    requires Covered(s, c) && Step(s, s', Notify(p))
    ensures Covered(s', c)
  {
    var a := s.consumers[c].agent;
    if Waiting(s', c) && a !in s'.signals {
      forall x | x in Unread(s'.table, a) ensures Announcing(s', a, x) {
        assert x in Unread(s.table, a);
        var q :| q in s.senders && s.senders[q] == InGap(a, x);
        assert s'.senders[q] == InGap(a, x);
      }
    }
  }

  ghost predicate Quiet(es: seq<Event>) {
    forall i :: 0 <= i < |es| ==> !es[i].Noise?
  }

  /** While no other consumer of its agent takes signals away, a consumer never waits on
      unread mail that nobody will signal. */
  lemma {:induction false} NoLostWakeUp(ss: seq<State>, es: seq<Event>, i: nat, c: Pid, h: set<Pid>)
    requires Run(ss, es) && Quiet(es) && Harmless(es, h) && i < |ss| && Alone(ss[0], c, h) && c !in h
    ensures Alone(ss[i], c, h) && Covered(ss[i], c)
    ensures ss[i].consumers[c].agent == ss[0].consumers[c].agent
  {
    hide Gentle, Step, Covered;
    if i > 0 {
      NoLostWakeUp(ss, es, i - 1, c, h);
      StepKeepsCovered(ss[i - 1], ss[i], es[i - 1], c, h);
    } else {
      InitCovered(ss[0], c);
    }
  }

  lemma InitCovered(s: State, c: Pid)
    requires Init(s) && c in s.consumers
    ensures Covered(s, c)
  {}

  ghost predicate Firing(s: State, c: Pid) {
    At(s, c, RemovePending) || At(s, c, Fired)
  }

  ghost predicate Pending(s: State, a: string, id: string) {
    id in Unread(s.table, a)
  }

  /** Between firing and the second read nobody else takes the mail. */
  lemma {:induction false} MailStays(ss: seq<State>, es: seq<Event>, i: nat, k: nat, c: Pid, a: string, id: string)
    requires Run(ss, es) && Quiet(es) && i <= k < |ss| && Alone(ss[0], c, {})
    requires a == ss[0].consumers[c].agent
    requires forall j :: i <= j <= k ==> Firing(ss[j], c)
    requires Pending(ss[i], a, id) && id !in ss[k].dropped
    ensures Pending(ss[k], a, id)
    decreases k
  {
    hide Quiet, Step, Covered, Accounted, Distinct, Faithful, Pending, Firing, Alone;
    if i < k {
      var s, s', e := ss[k - 1], ss[k], es[k - 1];
      DroppedGrows(s, s', e);
      MailStays(ss, es, i, k - 1, c, a, id);
      NoLostWakeUp(ss, es, k - 1, c, {});
      ExactlyOnceAlways(ss, es, k - 1);
      OneStepMailStays(s, s', e, c, id);
    }
  }

  lemma DroppedGrows(s: State, s': State, e: Event)
    requires Step(s, s', e)
    ensures s.dropped <= s'.dropped
  {}

  lemma OneStepMailStays(s: State, s': State, e: Event, c: Pid, id: string)
    requires Alone(s, c, {}) && Faithful(s) && Step(s, s', e) && id !in s'.dropped
    requires Pending(s, s.consumers[c].agent, id) && Firing(s, c) && Firing(s', c)
    ensures Pending(s', s.consumers[c].agent, id)
  {
    hide Step, Read, Faithful;
    if IsRead(e) {
      ReaderElsewhere(s, s', e, c);
      var pc := s'.consumers[e.c].pc;
      OthersReadElsewhere(s, s', c, e.c, e.limit, e.now, e.batch, pc, id);
    } else {
      UnreadElsewhere(s, s', e, s.consumers[c].agent, id);
    }
  }

  lemma ReaderElsewhere(s: State, s': State, e: Event, c: Pid)
    requires Step(s, s', e) && IsRead(e)
    requires Firing(s, c) && Firing(s', c)
    ensures e.c != c && e.c in s'.consumers
    ensures Read(s, s', e.c, e.limit, e.now, e.batch, s'.consumers[e.c].pc)
  {}

  lemma OthersReadElsewhere(s: State, s': State, c: Pid, d: Pid, limit: int, now: Instant,
                            batch: seq<string>, pc: ConsumerPc, id: string)
    requires Alone(s, c, {}) && Read(s, s', d, limit, now, batch, pc) && d != c
    requires id in Unread(s.table, s.consumers[c].agent)
    ensures id in Unread(s'.table, s.consumers[c].agent)
  {}

  lemma UnreadElsewhere(s: State, s': State, e: Event, a: string, id: string)
    requires Faithful(s) && Step(s, s', e) && id !in s'.dropped && id in Unread(s.table, a)
    requires !IsRead(e)
    ensures id in Unread(s'.table, a)
  {
    hide PurgeVictim, Step, Faithful;
    if IsIdle(e) {
      IdleKeepsMail(s, s', e);
    } else if e.Commit? {
      UnreadAfterCommit(s, s', e, id);
    } else {
      UnreadAfterPurge(s, s', e, id);
    }
  }

  lemma UnreadAfterCommit(s: State, s': State, e: Event, id: string)
    requires Faithful(s) && e.Commit? && Step(s, s', e) && id in s.table
    ensures id in s'.table && s'.table[id] == s.table[id]
  {}

  lemma UnreadAfterPurge(s: State, s': State, e: Event, id: string)
    requires e.Purge? && Step(s, s', e) && id in s.table && s.table[id].readAt.None? && id !in s'.dropped
    ensures id in s'.table && s'.table[id] == s.table[id]
  {
    hide PurgeVictim;
  }

  /** A test for the signal with mail pending and no sender in the gap fires. */
  lemma WakeUpFires(ss: seq<State>, es: seq<Event>, i: nat, c: Pid, h: set<Pid>, id: string)
    requires Run(ss, es) && Quiet(es) && Harmless(es, h) && i < |es| && Alone(ss[0], c, h) && c !in h
    requires es[i] == Exists(c) && id in Unread(ss[i].table, ss[0].consumers[c].agent)
    requires !exists p, x :: p in ss[i].senders && ss[i].senders[p] == InGap(ss[0].consumers[c].agent, x)
    ensures At(ss[i + 1], c, RemovePending)
  {
    var a := ss[0].consumers[c].agent;
    NoLostWakeUp(ss, es, i, c, h);
    assert Step(ss[i], ss[i + 1], es[i]);
    assert Waiting(ss[i], c) && (a in ss[i].signals || Announcing(ss[i], a, id));
    assert a in ss[i].signals;
  }

  /** The wake-up of an only consumer from end to end: the test fires, and the read that
      follows returns mail, the oldest first, unless a purge took all of it meanwhile. */
  lemma WakeUpDelivers(ss: seq<State>, es: seq<Event>, i: nat, k: nat, c: Pid, id: string)
    requires Run(ss, es) && Quiet(es) && i < k < |es| && Alone(ss[0], c, {})
    requires es[i] == Exists(c) && es[k].SecondRead? && es[k].c == c
    requires forall j :: i < j < k ==> !(es[j].SecondRead? && es[j].c == c)
    requires id in Unread(ss[i].table, ss[0].consumers[c].agent)
    requires !exists p, x :: p in ss[i].senders && ss[i].senders[p] == InGap(ss[0].consumers[c].agent, x)
    ensures At(ss[i + 1], c, RemovePending)
    ensures id !in ss[k].dropped ==>
      es[k].batch != [] && FirstByKey(Unread(ss[k].table, ss[0].consumers[c].agent),
                                      Clamp(es[k].limit, 1, 100), es[k].batch)
  {
    var a := ss[0].consumers[c].agent;
    WakeUpFires(ss, es, i, c, {}, id);
    NoLostWakeUp(ss, es, i, c, {});
    assert Step(ss[i], ss[i + 1], es[i]);
    if id !in ss[k].dropped {
      StillFiring(ss, es, i + 1, k, c);
      assert ss[i + 1].table == ss[i].table;
      MailStays(ss, es, i + 1, k, c, a, id);
      NoLostWakeUp(ss, es, k, c, {});
      assert Step(ss[k], ss[k + 1], es[k]);
      assert id in Unread(ss[k].table, a);
    }
  }

  lemma {:induction false} StillFiring(ss: seq<State>, es: seq<Event>, i: nat, k: nat, c: Pid)
    requires Run(ss, es) && i <= k < |ss| && At(ss[i], c, RemovePending)
    requires forall j :: i <= j < k ==> !(es[j].SecondRead? && es[j].c == c)
    ensures forall j :: i <= j <= k ==> Firing(ss[j], c)
    decreases k
  {
    if i < k {
      StillFiring(ss, es, i, k - 1, c);
      assert Step(ss[k - 1], ss[k], es[k - 1]);
    }
  }

  // ---- why no other consumer may take signals away ----

  ghost predicate LostWakeUp(s: State, c: Pid) {
    Waiting(s, c) && Unread(s.table, s.consumers[c].agent) != map[]
    && s.consumers[c].agent !in s.signals
    && forall id :: !Announcing(s, s.consumers[c].agent, id)
  }

  lemma CoveredIsNotLost(s: State, c: Pid)
    requires Covered(s, c)
    ensures !LostWakeUp(s, c)
  {
    if LostWakeUp(s, c) {
      var id :| id in Unread(s.table, s.consumers[c].agent);
    }
  }

  /** A fresh state in which `c` and `d` serve the same agent and `p` may send. */
  datatype Erasure = Erasure(base: State, c: Pid, d: Pid, p: Pid)

  ghost predicate CanErase(x: Erasure) {
    && Init(x.base) && x.c in x.base.consumers && x.d in x.base.consumers && x.c != x.d
    && x.base.consumers[x.c].agent == x.base.consumers[x.d].agent && x.p in x.base.senders
  }

  function AgentOf(x: Erasure): string
    requires x.c in x.base.consumers
  {
    x.base.consumers[x.c].agent
  }

  function LateMail(x: Erasure): Row
    requires x.c in x.base.consumers
  {
    Row(AgentOf(x) + "x", AgentOf(x), "", None, x.base.clock, None, None, "execute")
  }

  function LateMailRead(x: Erasure): Row
    requires x.c in x.base.consumers
  {
    LateMail(x).(readAt := Some(x.base.clock))
  }

  /** The base with both agents registered and the parts the scene changes. */
  function DuringErasure(x: Erasure, table: Table, signals: set<string>, sender: SenderPc, cpc: ConsumerPc,
                         dpc: ConsumerPc, committed: Table, delivered: seq<Delivery>): State
    requires x.c in x.base.consumers
  {
    x.base.(table := table, signals := signals, committed := committed, delivered := delivered,
            agents := x.base.agents + {AgentOf(x)} + {AgentOf(x) + "x"},
            senders := x.base.senders[x.p := sender],
            consumers := x.base.consumers[x.c := Consumer(AgentOf(x), cpc)][x.d := Consumer(AgentOf(x), dpc)])
  }

  lemma Registers(x: Erasure)
    requires CanErase(x)
    ensures var a := AgentOf(x); var mid := x.base.(agents := x.base.agents + {a});
      Step(x.base, mid, Register(a))
      && Step(mid, DuringErasure(x, map[], x.base.signals, Idle, Ready, Ready, map[], []), Register(a + "x"))
  {
    var s := DuringErasure(x, map[], x.base.signals, Idle, Ready, Ready, map[], []);
    assert s.consumers == x.base.consumers && s.senders == x.base.senders;
  }

  lemma Subscribes(x: Erasure)
    requires CanErase(x)
    ensures Step(DuringErasure(x, map[], x.base.signals, Idle, Ready, Ready, map[], []),
                 DuringErasure(x, map[], x.base.signals, Idle, Entering, Ready, map[], []),
                 SubscribeRead(x.c, 10, x.base.clock, []))
  {
    hide FirstByKey, MarkRead, Unread, Deliveries;
    var s, s' := DuringErasure(x, map[], x.base.signals, Idle, Ready, Ready, map[], []),
      DuringErasure(x, map[], x.base.signals, Idle, Entering, Ready, map[], []);
    ReadNone(AgentOf(x), x.base.clock);
    assert Deliveries(map[], []) == [];
    assert s.consumers[x.c := Consumer(AgentOf(x), Entering)] == s'.consumers;
    assert Read(s, s', x.c, 10, x.base.clock, [], Entering);
  }

  /** The sender commits one more message and notifies. */
  lemma Sends(x: Erasure, t: Table, signals: set<string>, dpc: ConsumerPc, committed: Table, log: seq<Delivery>,
              id: string)
    requires CanErase(x) && id !in committed
    ensures var a, m := AgentOf(x), LateMail(x);
      var s := DuringErasure(x, t, signals, Idle, Entering, dpc, committed, log);
      var mid := DuringErasure(x, t[id := m], signals, InGap(a, id), Entering, dpc, committed[id := m], log);
      var s' := DuringErasure(x, t[id := m], signals + {a}, Idle, Entering, dpc, committed[id := m], log);
      Step(s, mid, Commit(x.p, id, m)) && Step(mid, s', Notify(x.p))
  {
    var a := AgentOf(x);
    assert |a + "x"| != |a|;
    assert x.base.senders[x.p := Idle][x.p := InGap(a, id)] == x.base.senders[x.p := InGap(a, id)];
    assert x.base.senders[x.p := InGap(a, id)][x.p := Idle] == x.base.senders[x.p := Idle];
  }

  lemma Reads(x: Erasure, signals: set<string>)
    requires CanErase(x)
    ensures var t, t' := map["m" := LateMail(x)], map["m" := LateMailRead(x)];
      Step(DuringErasure(x, t, signals, Idle, Entering, Ready, t, []),
           DuringErasure(x, t', signals, Idle, Entering, ClearPending, t, [Delivery("m", LateMailRead(x))]),
           InboxRead(x.d, 10, x.base.clock, ["m"]))
  {
    hide FirstByKey, MarkRead, Unread;
    var t, t' := map["m" := LateMail(x)], map["m" := LateMailRead(x)];
    var s, s' := DuringErasure(x, t, signals, Idle, Entering, Ready, t, []),
      DuringErasure(x, t', signals, Idle, Entering, ClearPending, t, [Delivery("m", LateMailRead(x))]);
    ReadOne(t, AgentOf(x), "m", x.base.clock);
    assert Deliveries(t', ["m"]) == [Delivery("m", LateMailRead(x))];
    assert s.consumers[x.d := Consumer(AgentOf(x), ClearPending)] == s'.consumers;
    assert Read(s, s', x.d, 10, x.base.clock, ["m"], ClearPending);
  }

  lemma Clears(x: Erasure, t: Table, signals: set<string>, committed: Table, log: seq<Delivery>)
    requires CanErase(x) && "n" in t && t["n"] == LateMail(x)
    ensures var s := DuringErasure(x, t, signals, Idle, Entering, ClearPending, committed, log);
      var s' := DuringErasure(x, t, signals - {AgentOf(x)}, Idle, Entering, Ready, committed, log);
      Step(s, s', Clear(x.d)) && LostWakeUp(s', x.c)
  {
    var s' := DuringErasure(x, t, signals - {AgentOf(x)}, Idle, Entering, Ready, committed, log);
    assert "n" in Unread(s'.table, AgentOf(x));
    assert forall p :: p in s'.senders ==> s'.senders[p] == Idle;
  }

  /** The states of the run in which `d` reads "m" and its clear erases the signal of "n". */
  function ErasureState(x: Erasure, i: nat): State
    requires x.c in x.base.consumers
  {
    var a, m := AgentOf(x), LateMail(x);
    var sig, log := x.base.signals, [Delivery("m", LateMailRead(x))];
    var one, two: Table := map[]["m" := m], map[]["m" := m]["n" := m];
    var left, both: Table := map["m" := LateMailRead(x)], map["m" := LateMailRead(x)]["n" := m];
    match i
    case 0 => x.base
    case 1 => x.base.(agents := x.base.agents + {a})
    case 2 => DuringErasure(x, map[], sig, Idle, Ready, Ready, map[], [])
    case 3 => DuringErasure(x, map[], sig, Idle, Entering, Ready, map[], [])
    case 4 => DuringErasure(x, one, sig, InGap(a, "m"), Entering, Ready, one, [])
    case 5 => DuringErasure(x, one, sig + {a}, Idle, Entering, Ready, one, [])
    case 6 => DuringErasure(x, left, sig + {a}, Idle, Entering, ClearPending, one, log)
    case 7 => DuringErasure(x, both, sig + {a}, InGap(a, "n"), Entering, ClearPending, two, log)
    case 8 => DuringErasure(x, both, sig + {a} + {a}, Idle, Entering, ClearPending, two, log)
    case _ => DuringErasure(x, both, sig + {a} + {a} - {a}, Idle, Entering, Ready, two, log)
  }

  function ErasureEvent(x: Erasure, i: nat): Event
    requires x.c in x.base.consumers
  {
    match i
    case 0 => Register(AgentOf(x))
    case 1 => Register(AgentOf(x) + "x")
    case 2 => SubscribeRead(x.c, 10, x.base.clock, [])
    case 3 => Commit(x.p, "m", LateMail(x))
    case 4 => Notify(x.p)
    case 5 => InboxRead(x.d, 10, x.base.clock, ["m"])
    case 6 => Commit(x.p, "n", LateMail(x))
    case 7 => Notify(x.p)
    case _ => Clear(x.d)
  }

  lemma ErasureStep(x: Erasure, i: nat)
    requires CanErase(x) && i < 9
    ensures Step(ErasureState(x, i), ErasureState(x, i + 1), ErasureEvent(x, i))
    ensures LostWakeUp(ErasureState(x, 9), x.c)
  {
    var a, sig := AgentOf(x), x.base.signals;
    var left: Table, log := map["m" := LateMailRead(x)], [Delivery("m", LateMailRead(x))];
    assert map[]["m" := LateMail(x)] == map["m" := LateMail(x)];
    Clears(x, left["n" := LateMail(x)], sig + {a} + {a}, map[]["m" := LateMail(x)]["n" := LateMail(x)], log);
    if i < 2 {
      Registers(x);
    } else if i == 2 {
      Subscribes(x);
    } else if i < 5 {
      Sends(x, map[], sig, Ready, map[], [], "m");
    } else if i == 5 {
      Reads(x, sig + {a});
    } else if i < 8 {
      Sends(x, left, sig + {a}, ClearPending, map[]["m" := LateMail(x)], log, "n");
    }
    hide DuringErasure, Step, LostWakeUp, LateMail, LateMailRead, CanErase;
  }

  /** Two consumers of one agent and an idle sender: from any fresh state the clear that
      follows one's read can erase the signal of a later message, and the other waits on
      unread mail. */
  lemma SiblingErasesSignal(x: Erasure) returns (ss: seq<State>, es: seq<Event>)
    requires CanErase(x)
    ensures Run(ss, es) && ss[0] == x.base && Quiet(es) && LostWakeUp(ss[|es|], x.c)
    ensures forall i :: 0 <= i < |es| && (es[i].Clear? || es[i].Remove?) ==> es[i].c == x.d
  {
    ss := seq(10, i requires 0 <= i < 10 => ErasureState(x, i));
    es := seq(9, i requires 0 <= i < 9 => ErasureEvent(x, i));
    ErasureStep(x, 8);
    assert Quiet(es) && Init(ss[0]);
    hide Step, LostWakeUp, Init, ErasureState, CanErase;
    forall i | 0 <= i < |es| ensures Step(ss[i], ss[i + 1], es[i]) {
      ErasureStep(x, i);
    }
  }

  ghost predicate CanLose(s: State, c: Pid, h: set<Pid>) {
    exists ss, es, i: nat ::
      Run(ss, es) && Quiet(es) && Harmless(es, h) && i < |ss| && ss[0] == s && LostWakeUp(ss[i], c)
  }

  lemma {:induction false} NoSenderNoMail(ss: seq<State>, es: seq<Event>, i: nat)
    requires Run(ss, es) && ss[0].senders == map[] && i < |ss|
    ensures ss[i].senders == map[] && ss[i].table == map[]
  {
    hide Step;
    if i > 0 {
      NoSenderNoMail(ss, es, i - 1);
      NoMailStep(ss[i - 1], ss[i], es[i - 1]);
    }
  }

  lemma NoMailStep(s: State, s': State, e: Event)
    requires Step(s, s', e) && s.senders == map[] && s.table == map[]
    ensures s'.senders == map[] && s'.table == map[]
  {
    hide Read, Step;
    if IsRead(e) {
      ReadEvent(s, s', e);
      ReadKeepsNone(s, s', e.c, e.limit, e.now, e.batch, s'.consumers[e.c].pc);
    } else {
      RestKeepsNone(s, s', e);
    }
  }

  lemma ReadKeepsNone(s: State, s': State, c: Pid, limit: int, now: Instant, batch: seq<string>, pc: ConsumerPc)
    requires Read(s, s', c, limit, now, batch, pc) && s.senders == map[] && s.table == map[]
    ensures s'.senders == map[] && s'.table == map[]
  {
    hide FirstByKey, Unread, Deliveries;
  }

  lemma RestKeepsNone(s: State, s': State, e: Event)
    requires Step(s, s', e) && !IsRead(e) && s.senders == map[] && s.table == map[]
    ensures s'.senders == map[] && s'.table == map[]
  {
    hide PurgeVictim, Read;
  }

  /** A consumer can lose a wake-up, in some run in which the consumers of `h` take no
      signals away, if and only if there is a sender and its agent has a further consumer
      outside `h`. */
  lemma CanLoseIff(s: State, c: Pid, h: set<Pid>)
    requires Init(s) && c in s.consumers && c !in h
    ensures CanLose(s, c, h) <==> s.senders != map[] && !Alone(s, c, h)
  {
    hide Run, LostWakeUp, Covered, Step, Init;
    if CanLose(s, c, h) {
      var ss, es, i: nat :|
        Run(ss, es) && Quiet(es) && Harmless(es, h) && i < |ss| && ss[0] == s && LostWakeUp(ss[i], c);
      if Alone(s, c, h) {
        NoLostWakeUp(ss, es, i, c, h);
        CoveredIsNotLost(ss[i], c);
        assert false;
      } else if s.senders == map[] {
        NoSenderNoMail(ss, es, i);
        LostHasMail(ss[i], c);
        assert false;
      }
    } else if s.senders != map[] && !Alone(s, c, h) {
      var d :| d in s.consumers && s.consumers[d].agent == s.consumers[c].agent && d != c && d !in h;
      var p :| p in s.senders;
      var ss, es := SiblingErasesSignal(Erasure(s, c, d, p));
      assert Harmless(es, h) && |es| < |ss| by {
        RunLength(ss, es);
      }
      assert false;
    }
  }

  lemma LostHasMail(s: State, c: Pid)
    requires LostWakeUp(s, c)
    ensures s.table != map[]
  {}

  lemma RunLength(ss: seq<State>, es: seq<Event>)
    requires Run(ss, es)
    ensures |ss| == |es| + 1
  {}

  lemma ReadNone(a: string, now: Instant)
    ensures ReadTx(map[], map[], a, 10, now, [])
  {}

  /** The read of a mailbox with a single row. */
  lemma ReadOne(t: Table, a: string, id: string, now: Instant)
    requires t.Keys == {id} && t[id].recipient == a && t[id].readAt.None?
    ensures ReadTx(t, map[id := t[id].(readAt := Some(now))], a, 10, now, [id])
  {}

  // ---- what the system allows ----

  /** In any state: registration, aborts, any change of the signal files by others, a purge
      of any age and kind, and an idle sender's commit of any fresh message between two
      registered agents. */
  lemma OutsideEvents(s: State, a: string, now: Instant, days: int, readOnly: bool, files: set<string>)
    ensures CanHappen(s, Register(a)) && CanHappen(s, Abort) && CanHappen(s, Noise(files))
    ensures s.clock <= now && days >= 1 ==> CanHappen(s, Purge(now, days, readOnly))
  {
    assert Step(s, s.(agents := s.agents + {a}), Register(a)) && Step(s, s, Abort);
    assert Step(s, s.(signals := files), Noise(files));
    if s.clock <= now && days >= 1 {
      var t := Purged(s.table, now, days, readOnly);
      var s' := s.(table := t, clock := now,
                   dropped := s.dropped + set id | id in s.table && id !in t && s.table[id].readAt.None?);
      hide Purged;
      assert Step(s, s', Purge(now, days, readOnly));
    }
  }

  ghost predicate CanHappen(s: State, e: Event) {
    exists s' :: Step(s, s', e)
  }

  lemma SenderEvents(s: State, p: Pid, id: string, row: Row)
    requires p in s.senders
    ensures s.senders[p].InGap? ==> CanHappen(s, Notify(p))
    ensures s.senders[p] == Idle && id !in s.committed && row.sender != row.recipient && row.sender in s.agents
      && row.recipient in s.agents && row.readAt == None && s.clock <= row.createdAt
      ==> CanHappen(s, Commit(p, id, row))
  {
    if s.senders[p].InGap? {
      assert Step(s, s.(signals := s.signals + {s.senders[p].target}, senders := s.senders[p := Idle]), Notify(p));
    } else if id !in s.committed && row.sender != row.recipient && row.sender in s.agents
              && row.recipient in s.agents && row.readAt == None && s.clock <= row.createdAt {
      assert Step(s, s.(table := s.table[id := row], clock := row.createdAt, committed := s.committed[id := row],
                        senders := s.senders[p := InGap(row.recipient, id)]), Commit(p, id, row));
    }
  }

  /** A consumer outside any call can read in each of the three ways under any limit, and
      so can one whose wait has fired. */
  lemma ReadEvents(s: State, c: Pid, limit: int, now: Instant) returns (batch: seq<string>)
    requires c in s.consumers && s.clock <= now
    ensures At(s, c, Ready) ==>
      CanHappen(s, SubscribeRead(c, limit, now, batch)) && CanHappen(s, InboxRead(c, limit, now, batch))
      && CanHappen(s, FacadeRead(c, limit, now, batch))
    ensures At(s, c, Fired) ==> CanHappen(s, SecondRead(c, limit, now, batch))
  {
    var key := Unread(s.table, s.consumers[c].agent);
    batch := SelectionExists(key, Clamp(limit, 1, 100));
    var s1 := ReadHappens(s, c, limit, now, batch, if batch == [] then Entering else ClearPending);
    var s2 := ReadHappens(s, c, limit, now, batch, if batch == [] then Ready else ClearPending);
    var s3 := ReadHappens(s, c, limit, now, batch, Ready);
    hide Read, FirstByKey;
    if At(s, c, Ready) {
      assert Step(s, s1, SubscribeRead(c, limit, now, batch)) && Step(s, s2, InboxRead(c, limit, now, batch));
      assert Step(s, s3, FacadeRead(c, limit, now, batch));
    }
    if At(s, c, Fired) {
      assert Step(s, s3, SecondRead(c, limit, now, batch));
    }
  }

  lemma ReadHappens(s: State, c: Pid, limit: int, now: Instant, batch: seq<string>, pc: ConsumerPc) returns (s': State)
    requires c in s.consumers && s.clock <= now
    requires FirstByKey(Unread(s.table, s.consumers[c].agent), Clamp(limit, 1, 100), batch)
    ensures Read(s, s', c, limit, now, batch, pc)
  {
    var t := MarkRead(s.table, batch, now);
    assert forall i :: 0 <= i < |batch| ==> batch[i] in Unread(s.table, s.consumers[c].agent);
    s' := Goto(s, c, pc).(table := t, clock := now, delivered := s.delivered + Deliveries(t, batch));
  }

  /** At every other point of a call there is a next step. */
  lemma ConsumerEvents(s: State, c: Pid)
    requires c in s.consumers
    ensures At(s, c, ClearPending) ==> CanHappen(s, Clear(c))
    ensures Waiting(s, c) ==> CanHappen(s, Exists(c))
    ensures At(s, c, Polling) ==> CanHappen(s, Timeout(c))
    ensures At(s, c, RemovePending) ==> CanHappen(s, Remove(c))
  {
    var a := s.consumers[c].agent;
    if At(s, c, ClearPending) {
      assert Step(s, Goto(s, c, Ready).(signals := s.signals - {a}), Clear(c));
    }
    if Waiting(s, c) {
      assert Step(s, Goto(s, c, if a in s.signals then RemovePending else Polling), Exists(c));
    }
    if At(s, c, Polling) {
      assert Step(s, Goto(s, c, Ready), Timeout(c));
    }
    if At(s, c, RemovePending) {
      assert Step(s, Goto(s, c, Fired).(signals := s.signals - {a}), Remove(c));
    }
  }
}
