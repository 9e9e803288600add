/** The SQLite repository: the messages table, its transactions and the class
    that runs them. Every clock reading is a parameter, and so is the fresh id
    of a new message. */
module MailStore {
  import opened Prelude
  import opened IsoText

  const MAX_BODY_BYTES := 65_536
  const MAX_METADATA_BYTES := 4_096
  const MAX_SESSION_ID_BYTES := 128

  /** JSON as Python reads and writes it, with NaN and the infinities as numbers. */
  datatype Json = JNull | JBool(b: bool) | JNumber(n: real) | JNotFinite | JString(s: string)
    | JList(items: seq<Json>) | JObject(fields: map<string, Json>)

  /** The metadata of a row: JSON text with the value it parses to. */
  datatype Metadata = Metadata(text: string, value: Json)

  /** What a sender may pass: nothing, a dict with its encoding, a string with the value it
      parses to if it is JSON, or something else. */
  datatype MetadataArg =
    | Absent
    | Dict(text: string, fields: map<string, Json>)
    | JsonText(text: string, parsed: Option<Json>)
    | OtherType

  datatype Row = Row(sender: string, recipient: string, body: string, metadata: Option<Metadata>,
                     createdAt: Instant, readAt: Option<Instant>, sessionId: Option<string>,
                     intent: string)

  /** The messages table by primary key. */
  type Table = map<string, Row>

  datatype Agent = Agent(firstSeen: Instant, lastSeen: Instant)

  /** What `_row_to_message` hands to callers. */
  datatype Message = Message(id: string, sender: string, recipient: string, body: string,
                             metadata: Option<map<string, Json>>, createdAt: Instant,
                             readAt: Option<Instant>, sessionId: Option<string>, intent: string)

  // ---- validators of the Message model ----

  predicate AgentIdChar(c: char) {
    'a' <= c <= 'z' || '0' <= c <= '9' || c == '_' || c == '-'
  }

  predicate AgentIdCore(s: string) {
    1 <= |s| <= 64 && s[0] != '_' && s[0] != '-' && forall i :: 0 <= i < |s| ==> AgentIdChar(s[i])
  }

  /** The id pattern under `re.match`, whose `$` also matches before a final newline. */
  predicate ValidAgentId(s: string) {
    AgentIdCore(s) || (s != "" && s[|s| - 1] == '\n' && AgentIdCore(s[..|s| - 1]))
  }

  ghost predicate MatchesPattern(core: string) {
    1 <= |core| <= 64 && forall i :: 0 <= i < |core| ==>
      var p := core[i] as int;
      48 <= p <= 57 || 97 <= p <= 122 || (i > 0 && (p == 45 || p == 95))
  }

  lemma CorePattern(core: string)
    ensures AgentIdCore(core) <==> MatchesPattern(core)
  {}

  /** The pattern by code points: a letter or digit, then up to 63 of these, dash or
      underscore, then perhaps a newline. */
  lemma AgentIdPattern(s: string)
    ensures ValidAgentId(s) <==> exists core: string :: (s == core || s == core + "\n") && MatchesPattern(core)
  {
    hide AgentIdCore, MatchesPattern;
    CorePattern(s);
    if s != "" {
      CorePattern(s[..|s| - 1]);
      assert s[|s| - 1] == '\n' ==> s == s[..|s| - 1] + "\n";
    }
    if core: string :| (s == core || s == core + "\n") && MatchesPattern(core) {
      assert s == core + "\n" ==> s[..|s| - 1] == core;
    }
  }

  predicate KnownIntent(s: string) {
    s == "triage" || s == "execute" || s == "review" || s == "question" || s == "fyi"
  }

  /** Unknown intents become the default one. */
  function NormalIntent(s: string): string {
    if KnownIntent(s) then s else "execute"
  }

  /** A row the Message model accepts. */
  predicate Readable(r: Row) {
    ValidAgentId(r.sender) && ValidAgentId(r.recipient) && |r.body| <= MAX_BODY_BYTES && MetadataReadable(r)
  }

  /** A message's metadata is an object or nothing. */
  predicate MetadataReadable(r: Row) {
    r.metadata.Some? ==> r.metadata.value.value.JObject? || r.metadata.value.value.JNull?
  }

  function ToMessage(id: string, r: Row): Message {
    Message(id, r.sender, r.recipient, r.body,
            if r.metadata.Some? && r.metadata.value.value.JObject? then Some(r.metadata.value.value.fields) else None,
            r.createdAt, r.readAt, r.sessionId, NormalIntent(r.intent))
  }

  /** The message is the row, column by column. */
  ghost predicate Carries(m: Message, id: string, r: Row) {
    && m.id == id && m.sender == r.sender && m.recipient == r.recipient && m.body == r.body
    && m.createdAt == r.createdAt && m.readAt == r.readAt && m.sessionId == r.sessionId
    && (m.metadata.Some? <==> r.metadata.Some? && r.metadata.value.value.JObject?)
    && (m.metadata.Some? ==> JObject(m.metadata.value) == r.metadata.value.value)
    && m.intent == if r.intent in ["triage", "execute", "review", "question", "fyi"] then r.intent else "execute"
  }

  /** The messages are the rows of `ids`, in order. */
  ghost predicate CarryAll(ms: seq<Message>, ids: seq<string>, t: Table) {
    |ms| == |ids| && forall i :: 0 <= i < |ids| ==> ids[i] in t && Carries(ms[i], ids[i], t[ids[i]])
  }

  /** Some row of `ids` has an id outside the pattern, a body over 65536 characters, or
      metadata that is neither object nor null. */
  ghost predicate OneUnreadable(ids: seq<string>, t: Table) {
    exists i :: 0 <= i < |ids| && ids[i] in t && !Admissible(t[ids[i]])
  }

  ghost predicate Admissible(r: Row) {
    && ValidAgentId(r.sender) && ValidAgentId(r.recipient) && |r.body| <= 65_536
    && (r.metadata == None || r.metadata.value.value == JNull || r.metadata.value.value.JObject?)
  }

  function ToMessages(t: Table, ids: seq<string>): (ms: seq<Message>)
    requires forall i :: 0 <= i < |ids| ==> ids[i] in t
    ensures |ms| == |ids|
    ensures forall i :: 0 <= i < |ids| ==> ms[i] == ToMessage(ids[i], t[ids[i]])
  {
    seq(|ids|, i requires 0 <= i < |ids| => ToMessage(ids[i], t[ids[i]]))
  }

  predicate AllReadable(t: Table, ids: seq<string>) {
    forall i :: 0 <= i < |ids| ==> ids[i] in t && Readable(t[ids[i]])
  }

  // ---- sizes in bytes ----

  function Utf8Char(c: char): (bs: seq<int>)
    ensures |bs| >= 1
  {
    var p := c as int;
    if p < 0x80 then [p]
    else if p < 0x800 then [0xC0 + p / 0x40, 0x80 + p % 0x40]
    else if p < 0x1_0000 then [0xE0 + p / 0x1000, 0x80 + p / 0x40 % 0x40, 0x80 + p % 0x40]
    else [0xF0 + p / 0x4_0000, 0x80 + p / 0x1000 % 0x40, 0x80 + p / 0x40 % 0x40, 0x80 + p % 0x40]
  }

  /** `s.encode("utf-8")`. */
  function Utf8(s: string): (bs: seq<int>)
    ensures |s| <= |bs|
  {
    if s == "" then [] else Utf8Char(s[0]) + Utf8(s[1..])
  }

  /** How many bytes the first byte announces, and the code point they make. */
  function Width(first: int): nat {
    if first < 0x80 then 1 else if first < 0xE0 then 2 else if first < 0xF0 then 3 else 4
  }

  function Point(bs: seq<int>): int
    requires bs != [] && Width(bs[0]) <= |bs|
  {
    match Width(bs[0])
    case 1 => bs[0]
    case 2 => (bs[0] - 0xC0) * 0x40 + bs[1] - 0x80
    case 3 => (bs[0] - 0xE0) * 0x1000 + (bs[1] - 0x80) * 0x40 + bs[2] - 0x80
    case _ => (bs[0] - 0xF0) * 0x4_0000 + (bs[1] - 0x80) * 0x1000 + (bs[2] - 0x80) * 0x40 + bs[3] - 0x80
  }

  function Points(bs: seq<int>): seq<int> {
    if bs == [] || |bs| < Width(bs[0]) then [] else [Point(bs)] + Points(bs[Width(bs[0])..])
  }

  lemma CharRoundTrip(c: char, rest: seq<int>)
    ensures var bs := Utf8Char(c) + rest;
      Width(bs[0]) == |Utf8Char(c)| && Point(bs) == c as int && bs[Width(bs[0])..] == rest
  {
    var p := c as int;
    assert p == p / 0x40 * 0x40 + p % 0x40;
    assert p / 0x40 == p / 0x1000 * 0x40 + p / 0x40 % 0x40;
    assert p / 0x1000 == p / 0x4_0000 * 0x40 + p / 0x1000 % 0x40;
  }

  /** The bytes are those of the text: its code points can be read back from them. */
  lemma {:induction false} Utf8RoundTrip(s: string)
    ensures Points(Utf8(s)) == seq(|s|, i requires 0 <= i < |s| => s[i] as int)
  {
    if s != "" {
      CharRoundTrip(s[0], Utf8(s[1..]));
      Utf8RoundTrip(s[1..]);
    }
  }

  // ---- ordered selection ----

  /** `ORDER BY key LIMIT limit` over the rows of `key`, ties in any order. */
  ghost predicate FirstByKey(key: map<string, int>, limit: int, batch: seq<string>) {
    && NoDuplicates(batch)
    && |batch| <= limit
    && (forall i :: 0 <= i < |batch| ==> batch[i] in key)
    && (forall i, j :: 0 <= i < j < |batch| ==> key[batch[i]] <= key[batch[j]])
    && (forall i, id :: 0 <= i < |batch| && id in key && id !in batch ==> key[batch[i]] <= key[id])
    && (|batch| < limit ==> forall id :: id in key ==> id in batch)
  }

  /** One of the rows with the smallest key. */
  method PickLeast(key: map<string, int>) returns (least: string)
    requires key != map[]
    ensures least in key && forall id :: id in key ==> key[least] <= key[id]
  {
    least :| least in key;
    var rest := key.Keys - {least};
    while rest != {}
      invariant rest <= key.Keys && least in key
      invariant forall id :: id in key && id !in rest ==> key[least] <= key[id]
    {
      var id :| id in rest;
      if key[id] < key[least] {
        least := id;
      }
      rest := rest - {id};
    }
  }

  method SelectFirst(key: map<string, int>, limit: int) returns (batch: seq<string>)
    requires 0 <= limit
    ensures FirstByKey(key, limit, batch)
  {
    batch := [];
    var rest := key;
    while rest != map[] && |batch| < limit
      invariant |batch| <= limit && NoDuplicates(batch)
      invariant forall i :: 0 <= i < |batch| ==> batch[i] in key
      invariant forall id :: id in key ==> (id in rest <==> id !in batch)
      invariant forall id :: id in rest ==> id in key && rest[id] == key[id]
      invariant forall i, j :: 0 <= i < j < |batch| ==> key[batch[i]] <= key[batch[j]]
      invariant forall i, id :: 0 <= i < |batch| && id in rest ==> key[batch[i]] <= key[id]
      decreases limit - |batch|
    {
      var next := PickLeast(rest);
      assert next !in batch;
      batch := batch + [next];
      rest := rest - {next};
    }
  }

  /** There always is a selection. */
  lemma {:induction false} SelectionExists(key: map<string, int>, limit: nat) returns (batch: seq<string>)
    ensures FirstByKey(key, limit, batch)
    decreases limit
  {
    if key == map[] || limit == 0 {
      batch := [];
    } else {
      var least := LeastExists(key);
      var rest := SelectionExists(key - {least}, limit - 1);
      batch := [least] + rest;
      PutFirst(key, limit, least, rest);
    }
  }

  lemma PutFirst(key: map<string, int>, limit: nat, least: string, rest: seq<string>)
    requires limit > 0 && least in key && forall id :: id in key ==> key[least] <= key[id]
    requires FirstByKey(key - {least}, limit - 1, rest)
    ensures FirstByKey(key, limit, [least] + rest)
  {
    var batch := [least] + rest;
    assert forall i :: 1 <= i < |batch| ==> batch[i] == rest[i - 1];
    assert forall id :: id in rest ==> id in key - {least};
  }

  lemma {:induction false} LeastExists(key: map<string, int>) returns (least: string)
    requires key != map[]
    ensures least in key && forall id :: id in key ==> key[least] <= key[id]
    decreases |key|
  {
    var id :| id in key;
    var others := key - {id};
    least := id;
    assert forall x :: x in key ==> x == id || (x in others && others[x] == key[x]);
    if others != map[] {
      assert |others| == |key| - 1;
      var other := LeastExists(others);
      least := if key[other] < key[id] then other else id;
    }
  }

  /** A selection has as many rows as the limit and the table allow. */
  lemma BatchIsFull(key: map<string, int>, limit: int, batch: seq<string>)
    requires 0 <= limit && FirstByKey(key, limit, batch)
    ensures |batch| == Min(limit, |key|)
  {
    var ids := set i | 0 <= i < |batch| :: batch[i];
    DistinctCount(batch);
    assert ids <= key.Keys;
    SubsetSize(ids, key.Keys);
    if |batch| < limit {
      assert ids == key.Keys;
    }
  }

  lemma {:induction false} DistinctCount(s: seq<string>)
    requires NoDuplicates(s)
    ensures |set i | 0 <= i < |s| :: s[i]| == |s|
  {
    var all := set i | 0 <= i < |s| :: s[i];
    if s != [] {
      var n := |s| - 1;
      DistinctCount(s[..n]);
      var front := set i | 0 <= i < n :: s[..n][i];
      assert all == front + {s[n]};
      assert s[n] !in front;
    } else {
      assert all == {};
    }
  }

  // ---- transactions as relations on the table ----

  function Clamp(n: int, low: int, high: int): int {
    Max(low, Min(n, high))
  }

  /** Creation time of each unread message for `agent`. */
  function Unread(t: Table, agent: string): map<string, int> {
    map id | id in t && t[id].recipient == agent && t[id].readAt.None? :: t[id].createdAt
  }

  /** All messages for `agent`, the latest with the smallest key. */
  function Latest(t: Table, agent: string): map<string, int> {
    map id | id in t && t[id].recipient == agent :: -(t[id].createdAt as int)
  }

  /** `created_at >= text` in SQL. */
  function Since(t: Table, agent: string, text: string): map<string, int> {
    map id | id in t && t[id].recipient == agent && !Below(Iso(t[id].createdAt), text) :: t[id].createdAt
  }

  /** A starting text in the `+00:00` form means its instant. In the `Z` form it means
      later than its instant, and leaves out the whole second if that has no fraction. */
  lemma SinceMeansTime(t: Table, agent: string, k: Instant)
    ensures Since(t, agent, Iso(k)) == map id | id in t && t[id].recipient == agent && t[id].createdAt >= k
                                         :: t[id].createdAt
    ensures Since(t, agent, IsoZ(k))
      == map id | id in t && t[id].recipient == agent
                  && (if MicroOf(k) == 0 then t[id].createdAt >= k + 1_000_000 else t[id].createdAt > k)
           :: t[id].createdAt
  {
    hide Below, Iso, IsoZ;
    forall id | id in t
      ensures Below(Iso(t[id].createdAt), Iso(k)) <==> t[id].createdAt < k
      ensures Below(Iso(t[id].createdAt), IsoZ(k))
        <==> if MicroOf(k) == 0 then t[id].createdAt < k + 1_000_000 else t[id].createdAt <= k
    {
      TextOrderIsTimeOrder(t[id].createdAt, k);
      IsoAgainstZ(t[id].createdAt, k);
    }
  }

  /** The rows as messages, or a raise if one is not readable. */
  ghost predicate Shows(t: Table, ids: seq<string>, r: Result<seq<Message>, ()>) {
    (r.Err? <==> OneUnreadable(ids, t)) && (r.Ok? ==> CarryAll(r.value, ids, t))
  }

  function MarkRead(t: Table, batch: seq<string>, now: Instant): Table {
    map id | id in t :: if id in batch then t[id].(readAt := Some(now)) else t[id]
  }

  /** The consuming read: select the oldest unread, mark exactly those. */
  ghost predicate ReadTx(t: Table, t': Table, agent: string, limit: int, now: Instant, batch: seq<string>) {
    FirstByKey(Unread(t, agent), Clamp(limit, 1, 100), batch) && t' == MarkRead(t, batch, now)
  }

  /** What a consuming read takes under any limit: that many of the oldest unread, a
      limit outside 1 to 100 counting as the nearer end. */
  lemma ReadTakes(t: Table, t': Table, agent: string, limit: int, now: Instant, batch: seq<string>)
    requires ReadTx(t, t', agent, limit, now, batch)
    ensures var n := if limit < 1 then 1 else if limit > 100 then 100 else limit;
      var unread := map id | id in t && t[id].recipient == agent && t[id].readAt.None? :: t[id].createdAt;
      FirstByKey(unread, n, batch) && |batch| == Min(n, |unread|)
    ensures t' == map id | id in t :: if id in batch then t[id].(readAt := Some(now)) else t[id]
  {
    BatchIsFull(Unread(t, agent), Clamp(limit, 1, 100), batch);
    hide FirstByKey;
  }

  lemma ReadOutcome(agents: map<string, Agent>, t: Table, t': Table, agent: string, limit: int, now: Instant,
                    batch: seq<string>)
    requires forall id :: id in t ==>
               t[id].sender in agents && t[id].recipient in agents && |t[id].body| <= MAX_BODY_BYTES
    requires ReadTx(t, t', agent, limit, now, batch)
    ensures forall id :: id in t' ==>
              t'[id].sender in agents && t'[id].recipient in agents && |t'[id].body| <= MAX_BODY_BYTES
    ensures forall i :: 0 <= i < |batch| ==> batch[i] in t'
    ensures AllReadable(t', batch) ==> CarryAll(ToMessages(t', batch), batch, t')
    ensures AllReadable(t', batch) <==> !OneUnreadable(batch, t')
    ensures !AllReadable(t', batch) ==> (exists a :: a in agents && !ValidAgentId(a))
                                        || exists id :: id in t && !MetadataReadable(t[id])
  {
    assert forall i :: 0 <= i < |batch| ==> batch[i] in Unread(t, agent);
    hide FirstByKey, ValidAgentId;
  }

  /** `datetime('now', '-N days')`. Before year 1 SQLite prints text below every
      `isoformat` text, or NULL; no row compares below either, so both are None. */
  function PurgeCutoff(now: Instant, days: int): Option<string> {
    var k := now - days * 86_400_000_000;
    if IsInstant(k) then Some(SqliteText(k)) else None
  }

  predicate PurgeVictim(r: Row, now: Instant, days: int, readOnly: bool) {
    var cutoff := PurgeCutoff(now, days);
    cutoff.Some? && Below(Iso(r.createdAt), cutoff.value) && (readOnly ==> r.readAt.Some?)
  }

  function Purged(t: Table, now: Instant, days: int, readOnly: bool): Table {
    map id | id in t && !PurgeVictim(t[id], now, days, readOnly) :: t[id]
  }

  /** What the dry run of the command line counts; the subtraction overflows
      outside the years 1 to 9999. */
  predicate DryRunCounts(r: Row, now: Instant, days: int, readOnly: bool)
    requires IsInstant(now - days * 86_400_000_000)
  {
    Below(Iso(r.createdAt), Iso(now - days * 86_400_000_000)) && (readOnly ==> r.readAt.Some?)
  }

  // ---- purge: what the text comparison means ----

  /** The purge deletes exactly the rows dated before the date N days ago. */
  lemma PurgeByDate(r: Row, now: Instant, days: int, readOnly: bool)
    requires days >= 1
    ensures PurgeVictim(r, now, days, readOnly)
      <==> DayOf(r.createdAt) < DayOf(now) - days && (readOnly ==> r.readAt.Some?)
  {
    hide Below, Iso, SqliteText;
    var k := now - days * 86_400_000_000;
    if IsInstant(k) {
      IsoAgainstSqliteText(r.createdAt, k);
      assert DayOf(k) == DayOf(now) - days;
    }
  }

  lemma PurgedByDate(t: Table, now: Instant, days: int, readOnly: bool)
    requires days >= 1
    ensures Purged(t, now, days, readOnly)
      == map id | id in t && !(DayOf(t[id].createdAt) < DayOf(now) - days && (readOnly ==> t[id].readAt.Some?)) :: t[id]
  {
    hide PurgeVictim;
    forall id | id in t
      ensures PurgeVictim(t[id], now, days, readOnly)
        <==> DayOf(t[id].createdAt) < DayOf(now) - days && (readOnly ==> t[id].readAt.Some?)
    {
      PurgeByDate(t[id], now, days, readOnly);
    }
  }

  /** Nothing aged N days or less goes; everything readable aged N+1 days or more does. */
  lemma PurgeSandwich(r: Row, now: Instant, days: int, readOnly: bool)
    requires days >= 1
    ensures now - r.createdAt <= days * 86_400_000_000 ==> !PurgeVictim(r, now, days, readOnly)
    ensures now - r.createdAt >= (days + 1) * 86_400_000_000 && (readOnly ==> r.readAt.Some?)
      ==> PurgeVictim(r, now, days, readOnly)
    ensures readOnly && r.readAt.None? ==> !PurgeVictim(r, now, days, readOnly)
  {
    PurgeByDate(r, now, days, readOnly);
  }

  /** The dry run counts every victim, and more exactly on the cutoff date. */
  lemma DryRunAgainstPurge(r: Row, now: Instant, days: int, readOnly: bool)
    requires days >= 1 && IsInstant(now - days * 86_400_000_000)
    ensures PurgeVictim(r, now, days, readOnly) ==> DryRunCounts(r, now, days, readOnly)
    ensures DryRunCounts(r, now, days, readOnly) && !PurgeVictim(r, now, days, readOnly)
      <==> DayOf(r.createdAt) == DayOf(now) - days && now - r.createdAt > days * 86_400_000_000
           && (readOnly ==> r.readAt.Some?)
  {
    hide Below, Iso, SqliteText;
    PurgeByDate(r, now, days, readOnly);
    TextOrderIsTimeOrder(r.createdAt, now - days * 86_400_000_000);
  }

  // ---- the repository ----

  datatype SendError = TargetSelf | MessageTooLarge | IntentInvalid | SessionIdInvalid | SessionIdTooLarge
    | NotADict | MetadataInvalid | MetadataTooLarge | TargetUnknown | SenderUnknown
    | ResultInvalid // raised after the commit

  datatype PurgeError = DaysTooSmall | DateOverflow

  datatype ListError = CutoffOverflow | InvalidRecord

  const SESSION_KEY := "session_id"

  /** The session id travelling in the metadata; null counts as none. In a string the key
      is looked for as a substring, and taking it out then raises. */
  function SessionOf(metadata: MetadataArg): Result<Option<string>, SendError> {
    match metadata
    case Dict(_, fields) =>
      if SESSION_KEY !in fields || fields[SESSION_KEY].JNull? then Ok(None)
      else if !fields[SESSION_KEY].JString? then Err(SessionIdInvalid)
      else if |Utf8(fields[SESSION_KEY].s)| > MAX_SESSION_ID_BYTES then Err(SessionIdTooLarge)
      else Ok(Some(fields[SESSION_KEY].s))
    case JsonText(text, _) =>
      if Contains(text, SESSION_KEY) then Err(NotADict) else Ok(None)
    case _ =>
      Ok(None)
  }

  /** What the row gets. */
  function Stored(metadata: MetadataArg): (r: Result<Option<Metadata>, SendError>)
    ensures r.Ok? && r.value.Some? ==> |Utf8(r.value.value.text)| <= MAX_METADATA_BYTES
    ensures r.Ok? && r.value.Some? && !metadata.JsonText? ==> r.value.value.value.JObject?
  {
    match metadata
    case Absent => Ok(None)
    case Dict(text, fields) =>
      if |Utf8(text)| > MAX_METADATA_BYTES then Err(MetadataTooLarge)
      else Ok(Some(Metadata(text, JObject(fields))))
    case JsonText(text, parsed) =>
      if parsed.None? then Err(MetadataInvalid)
      else if |Utf8(text)| > MAX_METADATA_BYTES then Err(MetadataTooLarge)
      else Ok(Some(Metadata(text, parsed.value)))
    case OtherType => Err(MetadataInvalid)
  }

  /** The checks made before the transaction, in order. */
  function SendCheck(sender: string, recipient: string, body: string, metadata: MetadataArg,
                     intent: string): (r: Option<SendError>)
    ensures r != Some(ResultInvalid) && r != Some(TargetUnknown) && r != Some(SenderUnknown)
  {
    if sender == recipient then Some(TargetSelf)
    else if |Utf8(body)| > MAX_BODY_BYTES then Some(MessageTooLarge)
    else if intent == "" then Some(IntentInvalid)
    else if SessionOf(metadata).Err? then Some(SessionOf(metadata).error)
    else if Stored(metadata).Err? then Some(Stored(metadata).error)
    else None
  }

  class Store {
    var agents: map<string, Agent>
    var messages: Table

    /** Foreign keys hold and no stored body is oversized. */
    ghost predicate Valid()
      reads this
    {
      forall id :: id in messages ==>
        messages[id].sender in agents && messages[id].recipient in agents
        && |messages[id].body| <= MAX_BODY_BYTES
    }

    constructor ()
      ensures Valid() && agents == map[] && messages == map[]
    {
      agents, messages := map[], map[];
    }

    method UpsertAgent(id: string, now: Instant)
      requires Valid()
      modifies this`agents
      ensures Valid()
      ensures id in agents && agents[id].lastSeen == now
      ensures agents[id].firstSeen == if id in old(agents) then old(agents)[id].firstSeen else now
      ensures agents - {id} == old(agents) - {id}
    {
      var first := if id in agents then agents[id].firstSeen else now;
      agents := agents[id := Agent(first, now)];
    }

    /** Agents seen in the last `days` days, latest first; one with an id the record
        model rejects makes the call raise. */
    method ListAgents(days: int, now: Instant) returns (r: Result<seq<string>, ListError>)
      ensures r == Err(CutoffOverflow) <==> !IsInstant(now - days * 86_400_000_000)
      ensures r == Err(InvalidRecord) <==>
        && IsInstant(now - days * 86_400_000_000)
        && exists id :: id in agents && now - agents[id].lastSeen <= days * 86_400_000_000 && !ValidAgentId(id)
      ensures r.Ok? ==> NoDuplicates(r.value)
      ensures r.Ok? ==> forall id :: id in r.value <==>
                          id in agents && now - agents[id].lastSeen <= days * 86_400_000_000
      ensures r.Ok? ==> forall i, j :: 0 <= i < j < |r.value| ==>
                          agents[r.value[i]].lastSeen >= agents[r.value[j]].lastSeen
    {
      hide Below, Iso, SqliteText, ValidAgentId;
      var cutoff := now - days * 86_400_000_000;
      if !IsInstant(cutoff) {
        return Err(CutoffOverflow);
      }
      var active := map id | id in agents && !Below(Iso(agents[id].lastSeen), Iso(cutoff))
                      :: -(agents[id].lastSeen as int);
      forall id | id in agents ensures id in active <==> now - agents[id].lastSeen <= days * 86_400_000_000 {
        TextOrderIsTimeOrder(agents[id].lastSeen, cutoff);
      }
      var ids := SelectFirst(active, |active|);
      if |ids| == |active| {
        DistinctFill(ids, active.Keys);
      }
      if exists i :: 0 <= i < |ids| && !ValidAgentId(ids[i]) {
        return Err(InvalidRecord);
      }
      r := Ok(ids);
    }

    /** The result is built after the commit, and its model rejects a recipient that is
        registered under an id outside the pattern: the call raises with the message sent. */
    method SendMessage(sender: string, recipient: string, body: string, metadata: MetadataArg,
                       intent: string, id: string, now: Instant)
      returns (ghost committed: bool, r: Result<string, SendError>)
      requires Valid() && id !in messages
      modifies this`messages
      ensures Valid()
      ensures committed <==>
        && sender != recipient && sender in agents && recipient in agents && intent != "" && |Utf8(body)| <= 65_536
        && !metadata.OtherType? && (!metadata.Absent? ==> |Utf8(metadata.text)| <= 4_096)
        && (metadata.Dict? && "session_id" in metadata.fields ==>
              var v := metadata.fields["session_id"]; v == JNull || (v.JString? && |Utf8(v.s)| <= 128))
        && (metadata.JsonText? ==> metadata.parsed.Some? && !exists a, b :: metadata.text == a + "session_id" + b)
      ensures !committed ==> messages == old(messages)
      ensures committed ==> id in messages && messages == old(messages)[id := messages[id]]
      ensures committed ==> var row := messages[id];
        && row.sender == sender && row.recipient == recipient && row.body == body && row.intent == intent
        && row.createdAt == now && row.readAt == None
        && row.metadata == (match metadata
                            case Dict(text, fields) => Some(Metadata(text, JObject(fields)))
                            case JsonText(text, parsed) => Some(Metadata(text, parsed.value))
                            case _ => None)
        && row.sessionId == if metadata.Dict? && "session_id" in metadata.fields
                                && metadata.fields["session_id"].JString?
                            then Some(metadata.fields["session_id"].s) else None
      ensures r.Ok? <==> committed && ValidAgentId(recipient)
      ensures r.Ok? ==> r.value == id
      ensures r == Err(ResultInvalid) <==> committed && !ValidAgentId(recipient)
      ensures r == Err(TargetSelf) <==> sender == recipient
      ensures r == Err(MessageTooLarge) <==> sender != recipient && |Utf8(body)| > 65_536
      ensures r == Err(IntentInvalid) <==> sender != recipient && |Utf8(body)| <= 65_536 && intent == ""
      ensures r == Err(SessionIdInvalid) ==>
        metadata.Dict? && "session_id" in metadata.fields && !metadata.fields["session_id"].JString?
      ensures r == Err(SessionIdTooLarge) ==>
        metadata.Dict? && "session_id" in metadata.fields && metadata.fields["session_id"].JString?
      ensures r == Err(NotADict) ==> metadata.JsonText? && exists a, b :: metadata.text == a + "session_id" + b
      ensures r == Err(MetadataInvalid) ==> metadata.OtherType? || (metadata.JsonText? && metadata.parsed == None)
      ensures r == Err(MetadataTooLarge) ==> (metadata.Dict? || metadata.JsonText?) && |Utf8(metadata.text)| > 4_096
      ensures r == Err(TargetUnknown) ==> recipient !in agents
      ensures r == Err(SenderUnknown) ==> recipient in agents && sender !in agents
    {
      hide Utf8, Contains, ValidAgentId;
      if metadata.JsonText? {
        ContainsIff(metadata.text, SESSION_KEY);
      }
      committed := false;
      var refused := SendCheck(sender, recipient, body, metadata, intent);
      if refused.Some? {
        return committed, Err(refused.value);
      }
      // BEGIN IMMEDIATE ... COMMIT
      if recipient !in agents {
        return committed, Err(TargetUnknown);
      }
      if sender !in agents {
        return committed, Err(SenderUnknown); // foreign key on sender_id
      }
      messages := messages[id := Row(sender, recipient, body, Stored(metadata).value, now, None,
                                     SessionOf(metadata).value, intent)];
      committed := true;
      r := if ValidAgentId(recipient) then Ok(id) else Err(ResultInvalid);
    }

    /** The consuming read. Rows become messages after the commit, so a row the
        model rejects raises with the batch already marked. */
    method ReadUnread(agent: string, limit: int, now: Instant)
      returns (ghost batch: seq<string>, r: Result<seq<Message>, ()>)
      requires Valid()
      modifies this`messages
      ensures Valid()
      ensures ReadTx(old(messages), messages, agent, limit, now, batch)
      ensures var n := if limit < 1 then 1 else if limit > 100 then 100 else limit;
        var unread := map id | id in old(messages) && old(messages)[id].recipient == agent
                               && old(messages)[id].readAt.None? :: old(messages)[id].createdAt;
        FirstByKey(unread, n, batch) && |batch| == Min(n, |unread|)
      ensures messages == map id | id in old(messages) ::
                if id in batch then old(messages)[id].(readAt := Some(now)) else old(messages)[id]
      ensures r.Err? <==> OneUnreadable(batch, messages)
      ensures r.Ok? ==> CarryAll(r.value, batch, messages)
      ensures r.Err? ==> (exists a :: a in agents && !ValidAgentId(a))
                         || exists id :: id in old(messages) && !MetadataReadable(old(messages)[id])
    {
      var ids := SelectFirst(Unread(messages, agent), Clamp(limit, 1, 100));
      batch := ids;
      messages := MarkRead(messages, ids, now);
      ReadTakes(old(messages), messages, agent, limit, now, ids);
      ReadOutcome(agents, old(messages), messages, agent, limit, now, ids);
      hide FirstByKey, MarkRead, Unread, Admissible, Readable, MetadataReadable, Carries, ValidAgentId, ToMessage;
      if AllReadable(messages, ids) {
        r := Ok(ToMessages(messages, ids));
      } else {
        r := Err(());
      }
    }

    /** `read_inbox` with `unread_only=False`: latest first, nothing marked. */
    method ReadAll(agent: string, limit: int) returns (ghost ids: seq<string>, r: Result<seq<Message>, ()>)
      ensures FirstByKey(map id | id in messages && messages[id].recipient == agent
                           :: -(messages[id].createdAt as int),
                         if limit < 1 then 1 else if limit > 100 then 100 else limit, ids)
      ensures Shows(messages, ids, r)
    {
      ids, r := Present(Latest(messages, agent), Clamp(limit, 1, 100));
    }

    /** `peek_inbox`: latest first, or in order from a time given as text. */
    method PeekInbox(agent: string, since: Option<string>, limit: int)
      returns (ghost ids: seq<string>, r: Result<seq<Message>, ()>)
      ensures var n := if limit < 1 then 1 else if limit > 200 then 200 else limit;
        if since.None? then
          FirstByKey(map id | id in messages && messages[id].recipient == agent :: -(messages[id].createdAt as int),
                     n, ids)
        else
          FirstByKey(map id | id in messages && messages[id].recipient == agent
                              && !Below(Iso(messages[id].createdAt), since.value) :: messages[id].createdAt, n, ids)
      ensures Shows(messages, ids, r)
    {
      if since.None? {
        ids, r := Present(Latest(messages, agent), Clamp(limit, 1, 200));
      } else {
        assert Since(messages, agent, since.value)
          == map id | id in messages && messages[id].recipient == agent
                      && !Below(Iso(messages[id].createdAt), since.value) :: messages[id].createdAt;
        ids, r := Present(Since(messages, agent, since.value), Clamp(limit, 1, 200));
      }
    }

    /** Selected rows as messages. */
    method Present(key: map<string, int>, limit: int) returns (ghost ids: seq<string>, r: Result<seq<Message>, ()>)
      requires 0 <= limit && key.Keys <= messages.Keys
      ensures FirstByKey(key, limit, ids) && Shows(messages, ids, r)
    {
      var chosen := SelectFirst(key, limit);
      ids := chosen;
      assert forall i :: 0 <= i < |chosen| ==> chosen[i] in key;
      if AllReadable(messages, chosen) {
        r := Ok(ToMessages(messages, chosen));
      } else {
        r := Err(());
      }
    }

    method PurgeOldMessages(days: int, readOnly: bool, now: Instant) returns (r: Result<nat, PurgeError>)
      requires Valid()
      modifies this`messages
      ensures Valid()
      ensures r.Err? <==> days < 1
      ensures r.Err? ==> messages == old(messages)
      ensures r.Ok? ==> messages.Keys <= old(messages).Keys
      ensures r.Ok? ==> forall id :: id in messages ==> messages[id] == old(messages)[id]
      ensures r.Ok? ==> forall id :: id in old(messages) ==>
        (id !in messages <==>
          old(messages)[id].createdAt / 86_400_000_000 < now / 86_400_000_000 - days
          && (readOnly ==> old(messages)[id].readAt.Some?))
      ensures r.Ok? ==> r.value == |old(messages)| - |messages|
    {
      if days < 1 {
        return Err(DaysTooSmall);
      }
      var was := messages;
      messages := Purged(messages, now, days, readOnly);
      PurgedByDate(was, now, days, readOnly);
      SubsetSize(messages.Keys, was.Keys);
      assert |messages| == |messages.Keys| && |was| == |was.Keys|;
      r := Ok(|was| - |messages|);
    }

    /** The `--dry-run` count; unlike the purge it takes any number of days. */
    method DryRunPurge(days: int, readOnly: bool, now: Instant) returns (r: Result<nat, PurgeError>)
      ensures r.Err? <==> !IsInstant(now - days * 86_400_000_000)
      ensures r.Ok? ==> r.value == |set id | id in messages && messages[id].createdAt < now - days * 86_400_000_000
                                             && (readOnly ==> messages[id].readAt.Some?)|
    {
      hide Below, Iso, SqliteText;
      if !IsInstant(now - days * 86_400_000_000) {
        return Err(DateOverflow);
      }
      var hits := set id | id in messages && DryRunCounts(messages[id], now, days, readOnly);
      forall id | id in messages
        ensures id in hits <==> messages[id].createdAt < now - days * 86_400_000_000
                                && (readOnly ==> messages[id].readAt.Some?)
      {
        TextOrderIsTimeOrder(messages[id].createdAt, now - days * 86_400_000_000);
      }
      assert hits == set id | id in messages && messages[id].createdAt < now - days * 86_400_000_000
                              && (readOnly ==> messages[id].readAt.Some?);
      r := Ok(|hits|);
    }
  }

  /** Distinct members of a set, as many as it has, are all of it. */
  lemma {:induction false} DistinctFill(ids: seq<string>, s: set<string>)
    requires NoDuplicates(ids) && |ids| == |s| && forall i :: 0 <= i < |ids| ==> ids[i] in s
    ensures forall x :: x in s ==> x in ids
    decreases |ids|
  {
    if ids != [] {
      var n := |ids| - 1;
      DistinctFill(ids[..n], s - {ids[n]});
      assert forall x :: x in s ==> x in ids by {
        forall x | x in s ensures x in ids {
          if x != ids[n] {
            assert x in ids[..n];
          }
        }
      }
    } else {
      assert s == {};
    }
  }
}
