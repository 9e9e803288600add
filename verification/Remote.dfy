/** The HTTP client against the façade: the wire form of a message and the
    consuming read over a network that may drop either half of the exchange. */
module Remote {
  import opened Prelude
  import opened IsoText
  import opened MailStore

  type Wire = map<string, Json>

  // ---- the wire form ----

  function Text(s: Option<string>): Json {
    if s.Some? then JString(s.value) else JNull
  }

  /** `_serialise_message`. */
  function Serialise(m: Message): Wire {
    map["id" := JString(m.id), "sender" := JString(m.sender), "recipient" := JString(m.recipient),
        "body" := JString(m.body),
        "metadata" := if m.metadata.Some? then JObject(m.metadata.value) else JNull,
        "sent_at" := JString(Iso(m.createdAt)),
        "read_at" := if m.readAt.Some? then JString(Iso(m.readAt.value)) else JNull,
        "sender_session_id" := Text(m.sessionId), "intent" := JString(m.intent)]
  }

  /** `data.get(key)`, absent or null alike. */
  function Get(d: Wire, key: string): Json {
    if key in d then d[key] else JNull
  }

  /** `data.get(key, data.get(other, ""))`. */
  function GetEither(d: Wire, key: string, other: string): Json {
    if key in d then d[key] else if other in d then d[other] else JString("")
  }

  /** Python truth of a JSON value. */
  predicate Truthy(j: Json) {
    match j
    case JNull => false
    case JBool(b) => b
    case JNumber(n) => n != 0.0
    case JNotFinite => true
    case JString(s) => s != ""
    case JList(items) => items != []
    case JObject(fields) => fields != map[]
  }

  function ParseTime(j: Json): Option<Instant> {
    if j.JString? then ParseIso(j.s) else None
  }

  /** `_parse_message` with the validators of the Message model; None is any raise. */
  function ParseMessage(d: Wire): Option<Message> {
    var sent := if Truthy(Get(d, "sent_at")) then Get(d, "sent_at") else Get(d, "created_at");
    var created, read := ParseTime(sent), Get(d, "read_at");
    var sender, recipient := GetEither(d, "sender", "sender_id"), GetEither(d, "recipient", "recipient_id");
    var meta, session := Get(d, "metadata"), Get(d, "sender_session_id");
    var intent := if "intent" in d then d["intent"] else JString("triage");
    if "id" !in d || !d["id"].JString? || "body" !in d || !d["body"].JString? then None
    else if !sender.JString? || !recipient.JString? || created.None? then None
    else if !ValidAgentId(sender.s) || !ValidAgentId(recipient.s) || |d["body"].s| > MAX_BODY_BYTES then None
    else if !read.JNull? && ParseTime(read).None? then None
    else if !meta.JNull? && !meta.JObject? then None
    else if !session.JNull? && !session.JString? then None
    else
      Some(Message(d["id"].s, sender.s, recipient.s, d["body"].s,
                   if meta.JObject? then Some(meta.fields) else None, created.value,
                   if read.JNull? then None else ParseTime(read),
                   if session.JString? then Some(session.s) else None,
                   if intent.JString? then NormalIntent(intent.s) else "execute"))
  }

  /** What the Message model admits. */
  predicate ValidMessage(m: Message) {
    ValidAgentId(m.sender) && ValidAgentId(m.recipient) && |m.body| <= MAX_BODY_BYTES && KnownIntent(m.intent)
  }

  lemma IsoNotEmpty(t: Instant)
    ensures Iso(t) != ""
  {}

  /** The client gets back exactly the messages the model admits. */
  lemma WireRoundTrip(m: Message)
    ensures ParseMessage(Serialise(m)) == Some(m) <==> ValidMessage(m)
  {
    hide Iso, ParseIso, AgentIdCore, ValidAgentId;
    IsoRoundTrip(m.createdAt);
    IsoNotEmpty(m.createdAt);
    if m.readAt.Some? {
      IsoRoundTrip(m.readAt.value);
    }
    var d := Serialise(m);
    assert Get(d, "sent_at") == JString(Iso(m.createdAt));
    assert Get(d, "sender_session_id") == Text(m.sessionId);
  }

  /** The older names of the fields, which the client still takes. */
  function OldNames(m: Message): Wire {
    (Serialise(m) - {"sender", "recipient", "sent_at"})
      ["sender_id" := JString(m.sender)]["recipient_id" := JString(m.recipient)]
      ["created_at" := JString(Iso(m.createdAt))]
  }

  /** What parsing looks at. */
  ghost predicate Spells(d: Wire, m: Message) {
    && "id" in d && d["id"] == JString(m.id) && "body" in d && d["body"] == JString(m.body)
    && GetEither(d, "sender", "sender_id") == JString(m.sender)
    && GetEither(d, "recipient", "recipient_id") == JString(m.recipient)
    && (if Truthy(Get(d, "sent_at")) then Get(d, "sent_at") else Get(d, "created_at")) == JString(Iso(m.createdAt))
    && Get(d, "read_at") == (if m.readAt.Some? then JString(Iso(m.readAt.value)) else JNull)
    && Get(d, "metadata") == (if m.metadata.Some? then JObject(m.metadata.value) else JNull)
    && Get(d, "sender_session_id") == Text(m.sessionId)
    && "intent" in d && d["intent"] == JString(m.intent)
  }

  lemma SpelledParses(d: Wire, m: Message)
    requires ValidMessage(m) && Spells(d, m)
    ensures ParseMessage(d) == Some(m)
  {
    hide Iso, ParseIso, ValidAgentId, Get, GetEither, Truthy;
    IsoRoundTrip(m.createdAt);
    if m.readAt.Some? {
      IsoRoundTrip(m.readAt.value);
    }
  }

  lemma OldNamesSpell(m: Message)
    ensures Spells(OldNames(m), m)
  {
    hide Iso;
  }

  /** A message under its old field names parses alike. */
  lemma OldNamesParse(m: Message)
    requires ValidMessage(m)
    ensures ParseMessage(OldNames(m)) == Some(m)
  {
    OldNamesSpell(m);
    SpelledParses(OldNames(m), m);
    hide OldNames, Spells, ParseMessage;
  }

  /** Without an intent a message is triage. */
  lemma NoIntentParses(m: Message)
    requires ValidMessage(m)
    ensures ParseMessage(Serialise(m) - {"intent"}) == Some(m.(intent := "triage"))
  {
    WireRoundTrip(m);
    hide Iso, ParseIso, ValidAgentId;
    var d, e := Serialise(m), Serialise(m) - {"intent"};
    assert Get(e, "sent_at") == Get(d, "sent_at") && Get(e, "read_at") == Get(d, "read_at");
    assert Get(e, "metadata") == Get(d, "metadata") && Get(e, "sender_session_id") == Get(d, "sender_session_id");
    hide Serialise;
  }

  /** Whatever parses has the parts of the message and nothing the model rejects. */
  lemma ParsedMeans(d: Wire)
    ensures ParseMessage(d).Some? ==> var m := ParseMessage(d).value;
      && ValidMessage(m)
      && "id" in d && d["id"] == JString(m.id) && "body" in d && d["body"] == JString(m.body)
      && GetEither(d, "sender", "sender_id") == JString(m.sender)
      && GetEither(d, "recipient", "recipient_id") == JString(m.recipient)
      && Get(d, "metadata") == (if m.metadata.Some? then JObject(m.metadata.value) else JNull)
      && Get(d, "sender_session_id") == (if m.sessionId.Some? then JString(m.sessionId.value) else JNull)
      && (m.readAt == None <==> Get(d, "read_at") == JNull)
      && (m.readAt.Some? ==> Get(d, "read_at").JString? && ParseIso(Get(d, "read_at").s) == m.readAt)
  {
    hide ParseIso, ValidAgentId;
  }

  lemma ReadableIsValid(id: string, r: Row)
    requires Readable(r)
    ensures ValidMessage(ToMessage(id, r))
  {}

  // ---- what a response can carry ----

  /** Standard JSON, which the façade's responses keep to, has no NaN and no infinities. */
  predicate Finite(j: Json) {
    match j
    case JNotFinite => false
    case JList(items) => forall i :: 0 <= i < |items| ==> Finite(items[i])
    case JObject(fields) => forall k :: k in fields ==> Finite(fields[k])
    case _ => true
  }

  datatype Selector = Index(i: nat) | Field(key: string)

  /** What lies at the end of a path into a JSON value. */
  function Inside(j: Json, path: seq<Selector>): Option<Json>
    decreases path
  {
    if path == [] then Some(j)
    else if j.JList? && path[0].Index? && path[0].i < |j.items| then Inside(j.items[path[0].i], path[1..])
    else if j.JObject? && path[0].Field? && path[0].key in j.fields then Inside(j.fields[path[0].key], path[1..])
    else None
  }

  /** A value is finite exactly when no path leads to a NaN or an infinity. */
  lemma {:induction false} FiniteIff(j: Json)
    ensures Finite(j) <==> forall path :: Inside(j, path) != Some(JNotFinite)
    decreases j
  {
    if Finite(j) {
      forall path ensures Inside(j, path) != Some(JNotFinite) {
        FiniteInside(j, path);
      }
    } else {
      var path := PathToNotFinite(j);
    }
  }

  lemma {:induction false} FiniteInside(j: Json, path: seq<Selector>)
    requires Finite(j)
    ensures Inside(j, path) != Some(JNotFinite)
    decreases path
  {
    if path != [] && j.JList? && path[0].Index? && path[0].i < |j.items| {
      FiniteInside(j.items[path[0].i], path[1..]);
    } else if path != [] && j.JObject? && path[0].Field? && path[0].key in j.fields {
      FiniteInside(j.fields[path[0].key], path[1..]);
    }
  }

  lemma {:induction false} PathToNotFinite(j: Json) returns (path: seq<Selector>)
    requires !Finite(j)
    ensures Inside(j, path) == Some(JNotFinite)
    decreases j
  {
    match j
    case JList(items) =>
      var i :| 0 <= i < |items| && !Finite(items[i]);
      path := PathToNotFinite(items[i]);
      path := [Index(i)] + path;
    case JObject(fields) =>
      var k :| k in fields && !Finite(fields[k]);
      path := PathToNotFinite(fields[k]);
      path := [Field(k)] + path;
    case _ =>
      path := [];
  }

  predicate Carried(ms: seq<Message>) {
    forall i :: 0 <= i < |ms| && ms[i].metadata.Some? ==> Finite(JObject(ms[i].metadata.value))
  }

  // ---- the consuming read ----

  datatype Net = Delivered | RequestLost | ResponseLost

  /** Limits the façade's request model accepts; others are answered 400. */
  predicate Accepted(agent: string, limit: int) {
    agent != "" && 1 <= limit <= 100
  }

  /** Client-side parsing of a response. */
  function ParseAll(ds: seq<Wire>): Option<seq<Message>> {
    if ds == [] then Some([])
    else
      var front, last := ParseAll(ds[..|ds| - 1]), ParseMessage(ds[|ds| - 1]);
      if front.None? || last.None? then None else Some(front.value + [last.value])
  }

  function SerialiseAll(ms: seq<Message>): (ds: seq<Wire>)
    ensures |ds| == |ms| && forall i :: 0 <= i < |ms| ==> ds[i] == Serialise(ms[i])
  {
    seq(|ms|, i requires 0 <= i < |ms| => Serialise(ms[i]))
  }

  /** `Store.read_inbox`, consuming or not; None is a raise. */
  ghost predicate LocalRead(t: Table, t': Table, agent: string, limit: int, unreadOnly: bool, now: Instant,
                            batch: seq<string>, out: Option<seq<Message>>)
  {
    && Selects(t, t', agent, limit, unreadOnly, now, batch)
    && (forall i :: 0 <= i < |batch| ==> batch[i] in t')
    && out == if AllReadable(t', batch) then Some(ToMessages(t', batch)) else None
  }

  ghost predicate Selects(t: Table, t': Table, agent: string, limit: int, unreadOnly: bool, now: Instant,
                          batch: seq<string>)
  {
    if unreadOnly then ReadTx(t, t', agent, limit, now, batch)
    else t' == t && FirstByKey(Latest(t, agent), Clamp(limit, 1, 100), batch)
  }

  /** `HttpBusStore.read_inbox`: whatever goes wrong on the way reads as no messages. */
  ghost predicate RemoteRead(t: Table, t': Table, agent: string, limit: int, unreadOnly: bool, now: Instant,
                             net: Net, batch: seq<string>, out: Option<seq<Message>>)
  {
    if net.RequestLost? || !Accepted(agent, limit) then t' == t && batch == [] && out == Some([])
    else
      && Selects(t, t', agent, limit, unreadOnly, now, batch)
      && (forall i :: 0 <= i < |batch| ==> batch[i] in t')
      && out == if net.ResponseLost? || !AllReadable(t', batch) || !Carried(ToMessages(t', batch)) then Some([])
                else ParseAll(SerialiseAll(ToMessages(t', batch)))
  }

  lemma {:induction false} ParseAllRoundTrip(ms: seq<Message>)
    requires forall i :: 0 <= i < |ms| ==> ValidMessage(ms[i])
    ensures ParseAll(SerialiseAll(ms)) == Some(ms)
  {
    hide Serialise, ParseMessage, ValidMessage;
    if ms != [] {
      var n := |ms| - 1;
      ParseAllRoundTrip(ms[..n]);
      WireRoundTrip(ms[n]);
      assert SerialiseAll(ms)[..n] == SerialiseAll(ms[..n]);
      assert ms == ms[..n] + [ms[n]];
    }
  }

  lemma ResponseRoundTrip(t: Table, batch: seq<string>)
    requires AllReadable(t, batch)
    ensures ParseAll(SerialiseAll(ToMessages(t, batch))) == Some(ToMessages(t, batch))
  {
    hide Readable, ValidMessage, ToMessage, ParseAll, SerialiseAll;
    var ms := ToMessages(t, batch);
    forall i | 0 <= i < |ms| ensures ValidMessage(ms[i]) {
      ReadableIsValid(batch[i], t[batch[i]]);
    }
    ParseAllRoundTrip(ms);
  }

  /** With an accepted limit and nothing dropped, the remote read is the local one,
      consuming or not: same batch, same messages, same table after. Only a batch with a
      row the model rejects, on which the local read raises, or with a number standard
      JSON lacks, which the local read returns, tells them apart: the remote one is
      empty then. */
  lemma RemoteRefinesLocal(t: Table, t': Table, agent: string, limit: int, unreadOnly: bool, now: Instant,
                           batch: seq<string>, out: Option<seq<Message>>)
    requires agent != "" && 1 <= limit <= 100 && forall i :: 0 <= i < |batch| ==> batch[i] in t'
    ensures AllReadable(t', batch) && Carried(ToMessages(t', batch)) ==>
      (RemoteRead(t, t', agent, limit, unreadOnly, now, Delivered, batch, out)
       <==> LocalRead(t, t', agent, limit, unreadOnly, now, batch, out))
    ensures !(AllReadable(t', batch) && Carried(ToMessages(t', batch))) ==>
      !(RemoteRead(t, t', agent, limit, unreadOnly, now, Delivered, batch, out)
        && LocalRead(t, t', agent, limit, unreadOnly, now, batch, out))
      && (RemoteRead(t, t', agent, limit, unreadOnly, now, Delivered, batch, out) ==> out == Some([]))
  {
    hide Readable, ParseAll, SerialiseAll, Selects, ToMessage, Finite;
    if AllReadable(t', batch) {
      ResponseRoundTrip(t', batch);
    }
    assert batch == [] ==> AllReadable(t', batch) && Carried(ToMessages(t', batch));
    hide AllReadable, Carried;
  }

  /** Where the local store clamps an out-of-range limit the façade refuses it, so a
      consuming read agrees there exactly when the mailbox has nothing unread. */
  lemma OutOfRangeAgrees(t: Table, agent: string, limit: int, now: Instant, net: Net,
                         t1: Table, b1: seq<string>, o1: Option<seq<Message>>,
                         t2: Table, b2: seq<string>, o2: Option<seq<Message>>)
    requires !(1 <= limit <= 100)
    requires LocalRead(t, t1, agent, limit, true, now, b1, o1)
    requires RemoteRead(t, t2, agent, limit, true, now, net, b2, o2)
    ensures t2 == t
    ensures t1 == t2 <==> Unread(t, agent) == map[]
    ensures Unread(t, agent) == map[] ==> o1 == o2
  {
    var key := Unread(t, agent);
    var first := if b1 == [] then "" else b1[0];
    assert b1 != [] ==> first in key;
    if key == map[] {
      assert b1 == [];
      assert t1 == t && o1 == Some([]);
    } else {
      var id :| id in key;
      assert b1 != [];
      assert b1[0] in key && t1[b1[0]].readAt.Some? && t[b1[0]].readAt.None?;
    }
  }

  /** `peek_inbox`, local. */
  ghost predicate LocalPeek(t: Table, agent: string, since: Option<string>, limit: int, ids: seq<string>,
                            out: Option<seq<Message>>)
  {
    && FirstByKey(PeekKey(t, agent, since), Clamp(limit, 1, 200), ids)
    && (forall i :: 0 <= i < |ids| ==> ids[i] in t)
    && out == if AllReadable(t, ids) then Some(ToMessages(t, ids)) else None
  }

  function PeekKey(t: Table, agent: string, since: Option<string>): map<string, int> {
    if since.Some? then Since(t, agent, since.value) else Latest(t, agent)
  }

  /** `HttpBusStore.peek_inbox`; the façade takes limits from 1 to 200. */
  ghost predicate RemotePeek(t: Table, agent: string, since: Option<string>, limit: int, net: Net,
                             ids: seq<string>, out: Option<seq<Message>>)
  {
    if net.RequestLost? || agent == "" || !(1 <= limit <= 200) then ids == [] && out == Some([])
    else
      && FirstByKey(PeekKey(t, agent, since), Clamp(limit, 1, 200), ids)
      && (forall i :: 0 <= i < |ids| ==> ids[i] in t)
      && out == if net.ResponseLost? || !AllReadable(t, ids) || !Carried(ToMessages(t, ids)) then Some([])
                else ParseAll(SerialiseAll(ToMessages(t, ids)))
  }

  /** The same for peeking, from any starting text. */
  lemma RemotePeekRefinesLocal(t: Table, agent: string, since: Option<string>, limit: int, ids: seq<string>,
                               out: Option<seq<Message>>)
    requires agent != "" && 1 <= limit <= 200 && forall i :: 0 <= i < |ids| ==> ids[i] in t
    ensures AllReadable(t, ids) && Carried(ToMessages(t, ids)) ==>
      (RemotePeek(t, agent, since, limit, Delivered, ids, out) <==> LocalPeek(t, agent, since, limit, ids, out))
    ensures !(AllReadable(t, ids) && Carried(ToMessages(t, ids))) ==>
      !(RemotePeek(t, agent, since, limit, Delivered, ids, out) && LocalPeek(t, agent, since, limit, ids, out))
  {
    hide Readable, ParseAll, SerialiseAll, FirstByKey, ToMessage, Finite, PeekKey;
    if AllReadable(t, ids) {
      ResponseRoundTrip(t, ids);
    }
    assert ids == [] ==> AllReadable(t, ids) && Carried(ToMessages(t, ids));
    hide AllReadable, Carried;
  }

  // ---- at most once over a lossy network ----

  /** `used` holds every id the table ever had, `marked` the ids the client's reads have
      marked, `got` the ids it has seen. */
  datatype Session = Session(t: Table, used: set<string>, marked: set<string>, got: seq<string>)

  datatype Happening =
    | Elsewhere
    | ReadBy(agent: string, limit: int, now: Instant, net: Net, batch: seq<string>, out: Option<seq<Message>>)

  function Ids(out: Option<seq<Message>>): (ids: seq<string>)
    ensures out.Some? ==> |ids| == |out.value| && forall i :: 0 <= i < |ids| ==> ids[i] == out.value[i].id
  {
    if out.None? then [] else seq(|out.value|, i requires 0 <= i < |out.value| => out.value[i].id)
  }

  function SetOf(ids: seq<string>): set<string> {
    set i | 0 <= i < |ids| :: ids[i]
  }

  /** Everyone else: new rows under new ids, reads and purges; never an unread mark. */
  ghost predicate Others(s: Session, t': Table) {
    forall id :: id in t' ==>
      id !in s.used || (id in s.t && (s.t[id].readAt.Some? ==> t'[id].readAt.Some?))
  }

  ghost predicate SessionStep(s: Session, s': Session, e: Happening) {
    match e
    case Elsewhere =>
      Others(s, s'.t) && s' == s.(t := s'.t, used := s.used + s'.t.Keys)
    case ReadBy(agent, limit, now, net, batch, out) =>
      && RemoteRead(s.t, s'.t, agent, limit, true, now, net, batch, out)
      && s' == s.(t := s'.t, marked := s.marked + SetOf(batch), got := s.got + Ids(out))
  }

  /** Others may leave any table with new rows only under unused ids and no mark undone. */
  lemma OthersHappen(s: Session, t': Table) returns (s': Session)
    requires forall id :: id in t' && id in s.used ==> id in s.t
    requires forall id :: id in t' && id in s.used && s.t[id].readAt != None ==> t'[id].readAt != None
    ensures SessionStep(s, s', Elsewhere) && s'.t == t' && s'.got == s.got && s'.marked == s.marked
  {
    s' := s.(t := t', used := s.used + t'.Keys);
  }

  ghost predicate SessionRun(ss: seq<Session>, es: seq<Happening>) {
    && |ss| == |es| + 1 && ss[0].t.Keys <= ss[0].used && ss[0].marked == {} && ss[0].got == []
    && forall i :: 0 <= i < |es| ==> SessionStep(ss[i], ss[i + 1], es[i])
  }

  /** The answer to a read that marked something never reaches the client: the response is
      lost, or it cannot be built. */
  ghost predicate Drops(t': Table, e: Happening) {
    e.ReadBy? && !(e.net.Delivered? && AllReadable(t', e.batch) && Carried(ToMessages(t', e.batch)))
  }

  ghost predicate SessionInv(s: Session) {
    && s.t.Keys <= s.used && s.marked <= s.used && NoDuplicates(s.got)
    && (forall i :: 0 <= i < |s.got| ==> s.got[i] in s.marked)
    && forall id :: id in s.marked && id in s.t ==> s.t[id].readAt.Some?
  }

  /** A remote read returns its whole batch, or nothing if the answer is dropped. */
  lemma IdsOfBatch(t: Table, t': Table, e: Happening)
    requires e.ReadBy? && RemoteRead(t, t', e.agent, e.limit, true, e.now, e.net, e.batch, e.out)
    ensures Ids(e.out) == if Drops(t', e) then [] else e.batch
  {
    hide ParseAll, Selects, Finite;
    if e.net.Delivered? && Accepted(e.agent, e.limit) && AllReadable(t', e.batch) && Carried(ToMessages(t', e.batch)) {
      ResponseRoundTrip(t', e.batch);
      assert Ids(e.out) == e.batch;
    }
  }

  lemma BatchWasUnread(t: Table, t': Table, e: Happening)
    requires e.ReadBy? && RemoteRead(t, t', e.agent, e.limit, true, e.now, e.net, e.batch, e.out)
    ensures t'.Keys == t.Keys && NoDuplicates(e.batch)
    ensures forall i :: 0 <= i < |e.batch| ==>
              e.batch[i] in t && t[e.batch[i]].readAt.None? && t'[e.batch[i]].readAt.Some?
    ensures forall id :: id in t && t[id].readAt.Some? ==> t'[id].readAt.Some?
  {
    hide ParseAll, AllReadable, Carried;
    forall i | 0 <= i < |e.batch|
      ensures e.batch[i] in t && t[e.batch[i]].readAt.None? && t'[e.batch[i]].readAt.Some?
    {
      assert e.batch[i] in Unread(t, e.agent);
    }
  }

  lemma ReadKeepsSession(s: Session, s': Session, e: Happening)
    requires SessionInv(s) && e.ReadBy? && SessionStep(s, s', e)
    ensures SessionInv(s')
    ensures forall id :: id in e.batch ==> id !in s.marked
    ensures s'.got == s.got + if Drops(s'.t, e) then [] else e.batch
  {
    hide RemoteRead, Ids, Drops;
    IdsOfBatch(s.t, s'.t, e);
    BatchWasUnread(s.t, s'.t, e);
    AppendUnread(s, s', e.batch, Ids(e.out));
  }

  lemma AppendUnread(s: Session, s': Session, batch: seq<string>, ids: seq<string>)
    requires SessionInv(s) && s' == s.(t := s'.t, marked := s.marked + SetOf(batch), got := s.got + ids)
    requires s'.t.Keys == s.t.Keys && NoDuplicates(batch) && (ids == [] || ids == batch)
    requires forall i :: 0 <= i < |batch| ==>
               batch[i] in s.t && s.t[batch[i]].readAt.None? && s'.t[batch[i]].readAt.Some?
    requires forall id :: id in s.t && s.t[id].readAt.Some? ==> s'.t[id].readAt.Some?
    ensures SessionInv(s') && forall id :: id in batch ==> id !in s.marked
  {}

  /** However requests and responses are lost, the client sees each message at most once,
      and only messages its own reads have marked. */
  lemma {:induction false} AtMostOnce(ss: seq<Session>, es: seq<Happening>, i: nat)
    requires SessionRun(ss, es) && i < |ss|
    ensures SessionInv(ss[i])
  {
    if i > 0 {
      AtMostOnce(ss, es, i - 1);
      var s, s', e := ss[i - 1], ss[i], es[i - 1];
      assert SessionStep(s, s', e);
      if e.ReadBy? {
        ReadKeepsSession(s, s', e);
      }
    }
    hide RemoteRead, Ids;
  }

  ghost predicate DroppedAt(ss: seq<Session>, es: seq<Happening>, j: nat, id: string)
    requires |ss| == |es| + 1
  {
    j < |es| && es[j].ReadBy? && id in es[j].batch && Drops(ss[j + 1].t, es[j])
  }

  /** A message marked by the client's reads is lost to it if and only if the answer of the
      read that marked it was dropped. */
  lemma {:induction false} LostIffDropped(ss: seq<Session>, es: seq<Happening>, i: nat, id: string)
    requires SessionRun(ss, es) && i < |ss|
    ensures id in ss[i].marked && id !in ss[i].got <==> exists j: nat :: j < i && DroppedAt(ss, es, j, id)
  {
    hide RemoteRead, Ids, Drops;
    if i > 0 {
      var s, s', e := ss[i - 1], ss[i], es[i - 1];
      LostIffDropped(ss, es, i - 1, id);
      AtMostOnce(ss, es, i - 1);
      assert SessionStep(s, s', e);
      if e.ReadBy? {
        ReadKeepsSession(s, s', e);
        assert id in SetOf(e.batch) <==> id in e.batch;
        assert DroppedAt(ss, es, i - 1, id) <==> id in e.batch && Drops(s'.t, e);
      } else {
        assert !DroppedAt(ss, es, i - 1, id);
      }
      if id in s.got {
        assert id in s.marked;
      }
      assert (exists j: nat :: j < i && DroppedAt(ss, es, j, id))
        <==> DroppedAt(ss, es, i - 1, id) || exists j: nat :: j < i - 1 && DroppedAt(ss, es, j, id);
    }
    hide SessionInv, SessionStep;
  }
}
