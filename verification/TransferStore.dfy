/** The façade's table of uploaded transfers. */
module TransferStore {
  import opened Prelude
  import opened IsoText

  datatype Transfer = Transfer(sender: string, recipient: string, filename: string, size: int, sha: string,
                               path: string, created: Instant, expires: Instant,
                               fetched: Option<Instant>, deleted: Option<Instant>)

  datatype CreateError = NotBareName | DuplicateId

  /** `WHERE sender_id = ? AND deleted_at IS NULL AND expires_at > now`, on text. */
  predicate PendingRow(r: Transfer, sender: string, now: Instant) {
    r.sender == sender && r.deleted.None? && Below(Iso(now), Iso(r.expires))
  }

  /** `WHERE expires_at < now AND deleted_at IS NULL`, on text. */
  predicate ExpiredRow(r: Transfer, now: Instant) {
    r.deleted.None? && Below(Iso(r.expires), Iso(now))
  }

  /** The two text conditions as conditions on instants. */
  lemma RowConditions(r: Transfer, sender: string, now: Instant)
    ensures PendingRow(r, sender, now) <==> r.sender == sender && r.deleted.None? && r.expires > now
    ensures ExpiredRow(r, now) <==> r.deleted.None? && r.expires < now
  {
    TextOrderIsTimeOrder(now, r.expires);
    TextOrderIsTimeOrder(r.expires, now);
    hide Below, Iso;
  }

  /** A live row is pending for its sender or listed as expired, never both, and
      neither only at the very instant of expiry. */
  lemma PendingOrExpired(r: Transfer, now: Instant)
    requires r.deleted.None?
    ensures !(PendingRow(r, r.sender, now) && ExpiredRow(r, now))
    ensures PendingRow(r, r.sender, now) || ExpiredRow(r, now) <==> r.expires != now
  {
    RowConditions(r, r.sender, now);
    hide Below, Iso;
  }

  class TransferTable {
    var rows: map<string, Transfer>

    constructor ()
      ensures rows == map[]
    {
      rows := map[];
    }

    method Create(id: string, sender: string, recipient: string, filename: string, size: int, sha: string,
                  path: string, expires: Instant, now: Instant) returns (r: Result<Transfer, CreateError>)
      modifies this
      ensures r.Ok? <==> '/' !in filename && id !in old(rows)
      ensures r.Err? ==> rows == old(rows)
      ensures r.Ok? ==> rows == old(rows)[id := r.value]
      ensures r.Ok? ==> r.value == Transfer(sender, recipient, filename, size, sha, path, now, expires, None, None)
    {
      if '/' in filename {
        return Err(NotBareName);
      }
      if id in rows {
        return Err(DuplicateId);
      }
      rows := rows[id := Transfer(sender, recipient, filename, size, sha, path, now, expires, None, None)];
      r := Ok(rows[id]);
    }

    method MarkFetched(id: string, now: Instant) returns (found: bool)
      modifies this
      ensures found <==> id in old(rows)
      ensures rows == if found then old(rows)[id := old(rows)[id].(fetched := Some(now))] else old(rows)
    {
      found := id in rows;
      if found {
        rows := rows[id := rows[id].(fetched := Some(now))];
      }
    }

    method Delete(id: string, now: Instant) returns (found: bool)
      modifies this
      ensures found <==> id in old(rows)
      ensures rows == if found then old(rows)[id := old(rows)[id].(deleted := Some(now))] else old(rows)
    {
      found := id in rows;
      if found {
        rows := rows[id := rows[id].(deleted := Some(now))];
      }
    }

    method ListExpired(now: Instant) returns (ids: set<string>)
      ensures forall id :: id in ids <==> id in rows && rows[id].deleted.None? && rows[id].expires < now
    {
      hide ExpiredRow;
      ids := set id | id in rows && ExpiredRow(rows[id], now);
      forall id | id in rows ensures id in ids <==> rows[id].deleted.None? && rows[id].expires < now {
        RowConditions(rows[id], "", now);
      }
    }

    method CountPending(sender: string, now: Instant) returns (count: nat)
      ensures count == |set id | id in rows && rows[id].sender == sender && rows[id].deleted.None?
                                 && rows[id].expires > now|
    {
      hide PendingRow;
      var ids := set id | id in rows && PendingRow(rows[id], sender, now);
      forall id | id in rows
        ensures id in ids <==> rows[id].sender == sender && rows[id].deleted.None? && rows[id].expires > now
      {
        RowConditions(rows[id], sender, now);
      }
      assert ids == set id | id in rows && rows[id].sender == sender && rows[id].deleted.None?
                             && rows[id].expires > now;
      count := |ids|;
    }

    /** One pass of the façade's sweep loop: the rows listed at `now` are marked, each at
        its own reading, and their directories removed from `dirs`. */
    method SweepRows(now: Instant, stamps: string -> Instant, dirs: set<string>)
      returns (ids: set<string>, left: set<string>)
      modifies this
      ensures rows.Keys == old(rows).Keys && left == dirs - ids
      ensures forall id :: id in ids <==> id in old(rows) && old(rows)[id].deleted.None? && old(rows)[id].expires < now
      ensures forall id :: id in rows ==>
                rows[id] == if id in ids then old(rows)[id].(deleted := Some(stamps(id))) else old(rows)[id]
    {
      ids := ListExpired(now);
      left := dirs;
      ghost var was := rows;
      var todo := ids;
      while todo != {}
        invariant todo <= ids && rows.Keys == was.Keys && left == dirs - (ids - todo)
        invariant forall id :: id in rows ==>
          rows[id] == if id in ids && id !in todo then was[id].(deleted := Some(stamps(id))) else was[id]
        decreases |todo|
      {
        var id :| id in todo;
        var _ := Delete(id, stamps(id));
        left := left - {id};
        todo := todo - {id};
      }
    }
  }
}
