/** The long poll of one process from end to end: a read, a wait, a second read.
    What other processes do meanwhile is an input. */
module Subscribe {
  import opened Prelude
  import opened IsoText
  import opened MailStore
  import opened Signals

  /** The cap on one wait, in microseconds. */
  const MAX_TIMEOUT := 55_000_000

  datatype Failure = NoSignalDir | UnreadableRow

  datatype Answer = Answer(messages: seq<Message>, timedOut: bool)

  /** The database as others leave it by the time the wait ends. */
  datatype Elsewhere = Elsewhere(agents: map<string, Agent>, messages: Table)

  ghost predicate Consistent(e: Elsewhere) {
    forall id :: id in e.messages ==>
      e.messages[id].sender in e.agents && e.messages[id].recipient in e.agents
      && |e.messages[id].body| <= MAX_BODY_BYTES
  }

  class Subscriber {
    const store: Store
    const signals: Option<SignalDir>

    constructor (store: Store, signals: Option<SignalDir>)
      ensures this.store == store && this.signals == signals
    {
      this.store, this.signals := store, signals;
    }

    /** With mail pending the call returns the oldest of it at once, and takes the
        signal away if it can. Otherwise it waits: on no signal it times out with nothing; on
        a signal it returns what the mailbox then holds, which may be nothing. */
    method Subscribe(agent: string, timeout: int, limit: int, now: Instant, start: int, ticks: seq<Tick>,
                     atWake: Elsewhere, later: Instant, removable: bool)
      returns (ghost batch: seq<string>, r: Result<Answer, Failure>)
      requires store.Valid() && Consistent(atWake)
      requires ticks != [] && start + 55_000_000 <= ticks[|ticks| - 1].now
      modifies store, if signals.Some? then {signals.value} else {}
      ensures store.Valid()
      ensures r.Ok? ==> CarryAll(r.value.messages, batch, store.messages)
      ensures r == Err(UnreadableRow) <==> OneUnreadable(batch, store.messages)
      ensures r == Err(NoSignalDir) <==> Unread(old(store.messages), agent) == map[] && signals.None?
      ensures var n := if limit < 1 then 1 else if limit > 100 then 100 else limit;
        Unread(old(store.messages), agent) != map[] ==>
        && ReadTx(old(store.messages), store.messages, agent, limit, now, batch)
        && FirstByKey(Unread(old(store.messages), agent), n, batch)
        && |batch| == Min(n, |Unread(old(store.messages), agent)|) > 0
        && (signals.Some? && r.Ok? ==>
              signals.value.files == if removable then old(signals.value.files) - {agent} else old(signals.value.files))
        && (signals.Some? && r.Err? ==> signals.value.files == old(signals.value.files))
        && (r.Ok? ==> !r.value.timedOut)
      ensures Unread(old(store.messages), agent) == map[] && signals.None? ==> store.messages == old(store.messages)
      ensures Unread(old(store.messages), agent) == map[] && signals.Some? ==>
        var n := if limit < 1 then 1 else if limit > 100 then 100 else limit;
        var wait := if timeout < 0 then 0 else if timeout > 55_000_000 then 55_000_000 else timeout;
        var fired := agent in old(signals.value.files) || exists i :: FiresAt(ticks, start, wait, agent, i);
        if fired then
          && ReadTx(atWake.messages, store.messages, agent, limit, later, batch)
          && FirstByKey(Unread(atWake.messages, agent), n, batch)
          && |batch| == Min(n, |Unread(atWake.messages, agent)|)
          && (agent !in signals.value.files <==> removable)
          && (r.Ok? ==> !r.value.timedOut)
        else
          r == Ok(Answer([], true)) && store.messages == atWake.messages
    {
      hide FirstByKey, ReadTx, Unread, CarryAll, OneUnreadable, AllReadable, Carries;
      var first;
      batch, first := store.ReadUnread(agent, limit, now);
      EmptyIffNoneUnread(old(store.messages), store.messages, agent, limit, now, batch);
      TakesUnread(old(store.messages), store.messages, agent, limit, now, batch);
      UnreadableAmong(batch, store.messages);
      if first.Err? {
        return batch, Err(UnreadableRow);
      }
      CarriedSize(first.value, batch, store.messages);
      if first.value != [] {
        if signals.Some? {
          signals.value.Clear(agent, removable);
        }
        return batch, Ok(Answer(first.value, false));
      }
      NothingCarried(store.messages);
      if signals.None? {
        return batch, Err(NoSignalDir);
      }
      var fired, _ := signals.value.Wait(agent, start, Clamp(timeout, 0, MAX_TIMEOUT), ticks, removable);
      store.agents, store.messages := atWake.agents, atWake.messages;
      NothingCarried(store.messages);
      if !fired {
        return batch, Ok(Answer([], true));
      }
      var second;
      batch, second := store.ReadUnread(agent, limit, later);
      EmptyIffNoneUnread(atWake.messages, store.messages, agent, limit, later, batch);
      TakesUnread(atWake.messages, store.messages, agent, limit, later, batch);
      if second.Err? {
        return batch, Err(UnreadableRow);
      }
      return batch, Ok(Answer(second.value, false));
    }
  }

  lemma TakesUnread(t: Table, t': Table, agent: string, limit: int, now: Instant, batch: seq<string>)
    requires ReadTx(t, t', agent, limit, now, batch)
    ensures var n := if limit < 1 then 1 else if limit > 100 then 100 else limit;
      FirstByKey(Unread(t, agent), n, batch) && |batch| == Min(n, |Unread(t, agent)|)
  {
    BatchIsFull(Unread(t, agent), Clamp(limit, 1, 100), batch);
    hide FirstByKey, Unread, MarkRead;
  }

  lemma CarriedSize(ms: seq<Message>, ids: seq<string>, t: Table)
    requires CarryAll(ms, ids, t)
    ensures |ms| == |ids|
  {}

  lemma NothingCarried(t: Table)
    ensures CarryAll([], [], t) && !OneUnreadable([], t)
  {}

  lemma UnreadableAmong(ids: seq<string>, t: Table)
    ensures OneUnreadable(ids, t) ==> ids != []
  {}

  /** A consuming read comes back empty exactly when nothing is unread, and then
      changes nothing. */
  lemma EmptyIffNoneUnread(t: Table, t': Table, agent: string, limit: int, now: Instant, batch: seq<string>)
    requires ReadTx(t, t', agent, limit, now, batch)
    ensures batch == [] <==> Unread(t, agent) == map[]
    ensures batch == [] ==> t' == t
  {
    var key := Unread(t, agent);
    var first := if batch == [] then "" else batch[0];
    assert batch != [] ==> first in key;
    if batch == [] {
      assert forall id :: id !in key;
      assert key == map[];
    }
  }
}
