/** Schema migration by processes that start together: probe, lock, probe again,
    alter, commit. */
module Migration {
  import opened Prelude

  type Pid = nat
  type Column = string

  datatype Val = Null | Text(s: string)

  type Record = map<Column, Val>

  datatype Table = Table(cols: set<Column>, rows: map<string, Record>)

  /** The migrated columns in order, with the value old rows get. */
  function ColumnOf(k: nat): Column
    requires k < 2
  {
    if k == 0 then "sender_session_id" else "intent"
  }

  function Fill(c: Column): Val {
    if c == "intent" then Text("triage") else Null
  }

  const ATTEMPTS := 3

  datatype Pc = Probing | Locking | Rechecking | Altering | Committing | Finished | Failed

  /** `k` is the column being added, `tries` the attempts already spent on it. */
  datatype Proc = Proc(k: nat, tries: nat, pc: Pc)

  datatype Tx = Tx(holder: Pid, table: Table)

  /** `clash` records an ALTER of a column already there, which SQLite refuses. */
  datatype State = State(table: Table, tx: Option<Tx>, procs: map<Pid, Proc>, clash: bool)

  datatype Event =
    | Probe(p: Pid)
    | Begin(p: Pid)
    | Busy(p: Pid)
    | Recheck(p: Pid)
    | Alter(p: Pid)
    | Commit(p: Pid)
    | Rollback(p: Pid)
    | Insert(id: string, row: Record)

  function AddColumn(t: Table, c: Column): Table {
    Table(t.cols + {c}, map id | id in t.rows :: t.rows[id][c := Fill(c)])
  }

  /** The next column, or the end. */
  function Onward(q: Proc): Proc {
    Proc(q.k + 1, 0, if q.k + 1 == 2 then Finished else Probing)
  }

  /** `tenacity`: start the column over, three attempts in all. */
  function Retry(q: Proc): Proc {
    Proc(q.k, q.tries + 1, if q.tries + 1 == ATTEMPTS then Failed else Probing)
  }

  ghost predicate At(s: State, p: Pid, pc: Pc) {
    p in s.procs && s.procs[p].pc == pc && s.procs[p].k < 2
  }

  ghost predicate Holds(s: State, p: Pid) {
    s.tx.Some? && s.tx.value.holder == p
  }

  function Goto(s: State, p: Pid, q: Proc): State {
    s.(procs := s.procs[p := q])
  }

  ghost predicate Step(s: State, s': State, e: Event) {
    match e
    case Probe(p) =>
      At(s, p, Probing)
      && s' == Goto(s, p, if ColumnOf(s.procs[p].k) in s.table.cols then Onward(s.procs[p])
                          else s.procs[p].(pc := Locking))
    case Begin(p) =>
      At(s, p, Locking) && s.tx.None?
      && s' == Goto(s, p, s.procs[p].(pc := Rechecking)).(tx := Some(Tx(p, s.table)))
    case Busy(p) =>
      At(s, p, Locking) && s.tx.Some? && s' == Goto(s, p, Retry(s.procs[p]))
    case Recheck(p) =>
      At(s, p, Rechecking) && Holds(s, p)
      && s' == Goto(s, p, s.procs[p].(pc := if ColumnOf(s.procs[p].k) in s.tx.value.table.cols
                                            then Committing else Altering))
    case Alter(p) =>
      At(s, p, Altering) && Holds(s, p)
      && var c := ColumnOf(s.procs[p].k);
      s' == Goto(s, p, s.procs[p].(pc := Committing))
            .(tx := Some(Tx(p, AddColumn(s.tx.value.table, c))), clash := s.clash || c in s.tx.value.table.cols)
    case Commit(p) =>
      At(s, p, Committing) && Holds(s, p)
      && s' == Goto(s, p, Onward(s.procs[p])).(table := s.tx.value.table, tx := None)
    case Rollback(p) =>
      (At(s, p, Rechecking) || At(s, p, Altering) || At(s, p, Committing)) && Holds(s, p)
      && s' == Goto(s, p, Retry(s.procs[p])).(tx := None)
    case Insert(id, row) =>
      s.tx.None? && id !in s.table.rows && row.Keys == s.table.cols
      && s' == s.(table := s.table.(rows := s.table.rows[id := row]))
  }

  ghost predicate WellFormed(t: Table) {
    forall id :: id in t.rows ==> t.rows[id].Keys == t.cols
  }

  ghost predicate Init(s: State) {
    && WellFormed(s.table) && s.tx.None? && !s.clash
    && forall p :: p in s.procs ==> s.procs[p] == Proc(0, 0, Probing)
  }

  ghost predicate Run(ss: seq<State>, es: seq<Event>) {
    && |ss| == |es| + 1 && Init(ss[0])
    && forall i :: 0 <= i < |es| ==> Step(ss[i], ss[i + 1], es[i])
  }

  // ---- the invariant ----

  /** `t` grew out of `origin`: its rows keep every value, and columns that were
      missing hold what the migration fills in. */
  ghost predicate GrewFrom(t: Table, origin: Table) {
    && WellFormed(t) && origin.cols <= t.cols && origin.rows.Keys <= t.rows.Keys
    && (forall id, c :: id in origin.rows && c in origin.rows[id] && c in origin.cols ==>
          c in t.rows[id] && t.rows[id][c] == origin.rows[id][c])
    && (forall id, c :: id in origin.rows && c in t.cols && c !in origin.cols ==>
          c in t.rows[id] && t.rows[id][c] == Fill(c))
  }

  ghost predicate ProcOk(s: State, p: Pid)
    requires p in s.procs
  {
    var q := s.procs[p];
    && q.k <= 2 && (q.pc == Finished ==> q.k == 2) && (q.k == 2 ==> q.pc == Finished)
    && q.tries <= 3 && (q.pc == Failed <==> q.tries == 3)
    && (q.k >= 1 ==> ColumnOf(0) in s.table.cols) && (q.k == 2 ==> ColumnOf(1) in s.table.cols)
    && (q.pc == Rechecking || q.pc == Altering || q.pc == Committing ==> Holds(s, p))
    && (q.pc == Altering ==> ColumnOf(q.k) !in s.tx.value.table.cols)
    && (q.pc == Committing ==> ColumnOf(q.k) in s.tx.value.table.cols)
  }

  /** The session column comes first. */
  ghost predicate InOrder(t: Table, origin: Table) {
    "intent" in t.cols && "intent" !in origin.cols ==> "sender_session_id" in t.cols
  }

  ghost predicate Inv(s: State, origin: Table) {
    && GrewFrom(s.table, origin) && !s.clash && InOrder(s.table, origin)
    && (s.tx.Some? ==> InOrder(s.tx.value.table, origin))
    && (s.tx.Some? ==> GrewFrom(s.tx.value.table, origin) && s.table.cols <= s.tx.value.table.cols
                       && s.table.rows.Keys == s.tx.value.table.rows.Keys)
    && (forall p :: p in s.procs ==> ProcOk(s, p))
  }

  lemma AddColumnGrows(t: Table, origin: Table, c: Column)
    requires GrewFrom(t, origin) && c !in t.cols
    ensures GrewFrom(AddColumn(t, c), origin)
  {}

  lemma InsertGrows(t: Table, origin: Table, id: string, row: Record)
    requires GrewFrom(t, origin) && id !in t.rows && row.Keys == t.cols
    ensures GrewFrom(t.(rows := t.rows[id := row]), origin)
  {}

  lemma StepKeepsInv(s: State, s': State, e: Event, origin: Table)
    requires Inv(s, origin) && Step(s, s', e)
    ensures Inv(s', origin)
  {
    match e
    case Insert(id, row) =>
      InsertGrows(s.table, origin, id, row);
    case Alter(p) =>
      assert ProcOk(s, p);
      AddColumnGrows(s.tx.value.table, origin, ColumnOf(s.procs[p].k));
    case _ =>
      assert ProcOk(s, e.p);
    hide GrewFrom, AddColumn, Fill;
    forall q | q in s'.procs ensures ProcOk(s', q) {
      assert ProcOk(s, q);
    }
  }

  /** In any interleaving of processes, retries, rollbacks and inserts, no ALTER ever
      meets its column, every process that completes sees both columns, and old rows
      keep their fields and gain NULL or 'triage'. */
  lemma {:induction false} MigrationSafe(ss: seq<State>, es: seq<Event>, i: nat)
    requires Run(ss, es) && i < |ss|
    ensures Inv(ss[i], ss[0].table)
    ensures !ss[i].clash
    ensures forall p :: p in ss[i].procs && ss[i].procs[p].pc == Finished ==>
              {"sender_session_id", "intent"} <= ss[i].table.cols
    ensures GrewFrom(ss[i].table, ss[0].table)
    ensures forall id :: id in ss[0].table.rows ==>
              id in ss[i].table.rows && Upgraded(ss[i].table.rows[id], ss[0].table.rows[id])
    ensures "intent" in ss[i].table.cols && "intent" !in ss[0].table.cols ==> "sender_session_id" in ss[i].table.cols
    ensures forall p :: p in ss[i].procs ==>
              ss[i].procs[p].tries <= 3 && (ss[i].procs[p].pc == Failed <==> ss[i].procs[p].tries == 3)
  {
    hide Step, GrewFrom, Upgraded;
    if i > 0 {
      MigrationSafe(ss, es, i - 1);
      StepKeepsInv(ss[i - 1], ss[i], es[i - 1], ss[0].table);
    } else {
      InitInv(ss[0]);
    }
    GrewMeans(ss[i].table, ss[0].table);
    forall p | p in ss[i].procs
      ensures ss[i].procs[p].pc == Finished ==> {"sender_session_id", "intent"} <= ss[i].table.cols
      ensures ss[i].procs[p].tries <= 3 && (ss[i].procs[p].pc == Failed <==> ss[i].procs[p].tries == 3)
    {
      assert ProcOk(ss[i], p);
    }
  }

  /** A row after the migration: its old fields, and NULL or 'triage' in new ones. */
  ghost predicate Upgraded(r: Record, was: Record) {
    && (forall c :: c in was ==> c in r && r[c] == was[c])
    && (forall c :: c in r && c !in was ==> r[c] == if c == "intent" then Text("triage") else Null)
  }

  lemma GrewMeans(t: Table, origin: Table)
    requires GrewFrom(t, origin) && WellFormed(origin)
    ensures forall id :: id in origin.rows ==> id in t.rows && Upgraded(t.rows[id], origin.rows[id])
  {}

  /** The schema changes only when a holder of the lock commits, and a rollback leaves it. */
  lemma SchemaChangesOnlyBy(s: State, s': State, e: Event)
    requires Step(s, s', e)
    ensures s'.table != s.table ==> e.Insert? || (e.Commit? && s.tx.Some? && s.tx.value.holder == e.p)
    ensures s'.table.cols != s.table.cols ==> e.Commit?
    ensures s'.tx.Some? && s'.tx != s.tx ==> (e.Begin? && s.tx.None? && s'.tx.value == Tx(e.p, s.table))
                                             || (e.Alter? && s.tx.Some? && s.tx.value.holder == e.p)
    ensures e.Busy? ==> s.tx.Some?
    ensures e.Commit? ==> s.tx.Some? && s'.table == s.tx.value.table && s'.tx == None
  {}

  lemma InitInv(s: State)
    requires Init(s)
    ensures Inv(s, s.table)
  {}

  /** No process is past its probe. */
  ghost predicate Idle(s: State) {
    s.tx.None? && forall p :: p in s.procs ==> s.procs[p].pc == Probing || s.procs[p].pc == Finished
  }

  lemma RerunStep(s: State, s': State, e: Event)
    requires {"sender_session_id", "intent"} <= s.table.cols && Idle(s) && Step(s, s', e)
    ensures Idle(s') && s'.table.cols == s.table.cols
    ensures if e.Insert? then s.table.rows.Items <= s'.table.rows.Items else s'.table == s.table
  {
    if e.Insert? {
      assert forall id :: id in s.table.rows ==> s'.table.rows[id] == s.table.rows[id];
    }
  }

  /** Once both columns are there, any number of processes running the migration
      again take no lock and leave schema and rows as they are. */
  lemma {:induction false} RerunChangesNothing(ss: seq<State>, es: seq<Event>, i: nat)
    requires |ss| == |es| + 1 && i < |ss| && forall j :: 0 <= j < |es| ==> Step(ss[j], ss[j + 1], es[j])
    requires {"sender_session_id", "intent"} <= ss[0].table.cols && Idle(ss[0])
    ensures Idle(ss[i]) && ss[i].table.cols == ss[0].table.cols
    ensures ss[0].table.rows.Items <= ss[i].table.rows.Items
    ensures (forall j :: 0 <= j < i ==> !es[j].Insert?) ==> ss[i].table == ss[0].table
  {
    hide Step, Idle;
    if i > 0 {
      RerunChangesNothing(ss, es, i - 1);
      RerunStep(ss[i - 1], ss[i], es[i - 1]);
    }
  }

  // ---- what the system allows ----

  ghost predicate CanHappen(s: State, e: Event) {
    exists s' :: Step(s, s', e)
  }

  /** Every process that has not ended has a next step in every reachable state, a held
      lock only turns others away, and rows arrive whenever the lock is free. */
  lemma EventsHappen(s: State, origin: Table, p: Pid, id: string, row: Record)
    requires Inv(s, origin)
    ensures p in s.procs ==>
      match s.procs[p].pc
      case Probing => CanHappen(s, Probe(p))
      case Locking => if s.tx.None? then CanHappen(s, Begin(p)) else CanHappen(s, Busy(p))
      case Rechecking => CanHappen(s, Recheck(p)) && CanHappen(s, Rollback(p))
      case Altering => CanHappen(s, Alter(p)) && CanHappen(s, Rollback(p))
      case Committing => CanHappen(s, Commit(p)) && CanHappen(s, Rollback(p))
      case _ => true
    ensures s.tx.None? && id !in s.table.rows && row.Keys == s.table.cols ==> CanHappen(s, Insert(id, row))
  {
    hide GrewFrom, InOrder, AddColumn;
    if s.tx.None? && id !in s.table.rows && row.Keys == s.table.cols {
      assert Step(s, s.(table := s.table.(rows := s.table.rows[id := row])), Insert(id, row));
    }
    if p in s.procs {
      assert ProcOk(s, p);
      var q := s.procs[p];
      match q.pc
      case Probing =>
        assert Step(s, Goto(s, p, if ColumnOf(q.k) in s.table.cols then Onward(q) else q.(pc := Locking)), Probe(p));
      case Locking =>
        if s.tx.None? {
          assert Step(s, Goto(s, p, q.(pc := Rechecking)).(tx := Some(Tx(p, s.table))), Begin(p));
        } else {
          assert Step(s, Goto(s, p, Retry(q)), Busy(p));
        }
      case Rechecking =>
        var pc := if ColumnOf(q.k) in s.tx.value.table.cols then Committing else Altering;
        assert Step(s, Goto(s, p, q.(pc := pc)), Recheck(p));
        assert Step(s, Goto(s, p, Retry(q)).(tx := None), Rollback(p));
      case Altering =>
        var c := ColumnOf(q.k);
        assert Step(s, Goto(s, p, q.(pc := Committing)).(tx := Some(Tx(p, AddColumn(s.tx.value.table, c))),
                                                          clash := s.clash || c in s.tx.value.table.cols), Alter(p));
        assert Step(s, Goto(s, p, Retry(q)).(tx := None), Rollback(p));
      case Committing =>
        assert Step(s, Goto(s, p, Onward(q)).(table := s.tx.value.table, tx := None), Commit(p));
        assert Step(s, Goto(s, p, Retry(q)).(tx := None), Rollback(p));
      case _ =>
    }
  }
}
