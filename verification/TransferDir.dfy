/** One pass over the staging directory: counting a sender's pending transfers
    and sweeping the expired ones. */
module TransferDir {
  import opened Prelude

  /** What `float()` makes of an expiry: a time, one of the special values, or an
      exception. An expiry left out reads as time zero. */
  datatype Expiry = At(t: int) | Nan | Infinite(positive: bool) | NotNumber

  /** What a pass finds in one entry: no `meta.json`, one that cannot be read or is not
      JSON, something it cannot treat as a manifest and raises on, or a manifest. */
  datatype Entry = NoMeta | Corrupt | Odd | Manifest(sender: Option<string>, expires: Expiry)

  type Entries = map<string, Entry>

  predicate Later(e: Expiry, now: int) {
    (e.At? && e.t > now) || (e.Infinite? && e.positive)
  }

  predicate Due(e: Expiry, now: int) {
    (e.At? && e.t <= now) || (e.Infinite? && !e.positive)
  }

  predicate Pending(e: Entry, sender: string, now: int) {
    e.Manifest? && e.sender == Some(sender) && Later(e.expires, now)
  }

  predicate Swept(e: Entry, now: int) {
    e.Corrupt? || (e.Manifest? && Due(e.expires, now))
  }

  /** The count looks at the expiry of the sender's own transfers only. */
  predicate BreaksCount(e: Entry, sender: string) {
    e.Odd? || (e.Manifest? && e.sender == Some(sender) && e.expires.NotNumber?)
  }

  predicate BreaksSweep(e: Entry) {
    e.Odd? || (e.Manifest? && e.expires.NotNumber?)
  }

  predicate CountRaises(es: Entries, sender: string) {
    exists t :: t in es && BreaksCount(es[t], sender)
  }

  predicate SweepRaises(es: Entries) {
    exists t :: t in es && BreaksSweep(es[t])
  }

  function PendingSet(es: Entries, sender: string, now: int): set<string> {
    set t | t in es && Pending(es[t], sender, now)
  }

  function SweptSet(es: Entries, now: int): set<string> {
    set t | t in es && Swept(es[t], now)
  }

  function ManifestSet(es: Entries): set<string> {
    set t | t in es && es[t].Manifest?
  }

  function ExpiredSet(es: Entries, now: int): set<string> {
    set t | t in es && es[t].Manifest? && Due(es[t].expires, now)
  }

  /** Manifests that no sender's count and no sweep ever takes: they name no sender, or
      their expiry compares with no time. */
  function StrandedSet(es: Entries, now: int): set<string> {
    set t | t in es && es[t].Manifest? && !Due(es[t].expires, now)
            && (es[t].sender.None? || es[t].expires.Nan? || es[t].expires.NotNumber?)
  }

  /** TTL of a new transfer: capped above, not below. */
  function ExpiryOf(created: int, expiresIn: Option<int>, defaultTtl: int, maxTtl: int): (e: int)
    ensures e <= created + maxTtl
    ensures expiresIn.Some? && expiresIn.value <= maxTtl ==> e == created + expiresIn.value
  {
    created + Min(if expiresIn.Some? then expiresIn.value else defaultTtl, maxTtl)
  }

  class StagingDir {
    var entries: Entries

    constructor (entries: Entries)
      ensures this.entries == entries
    {
      this.entries := entries;
    }

    /** Raises, as Err, exactly when some entry breaks the pass. */
    method CountPending(sender: string, now: int) returns (r: Result<nat, ()>)
      ensures r.Err? <==> CountRaises(entries, sender)
      ensures r.Ok? ==> r.value == |PendingSet(entries, sender, now)|
    {
      var count := 0;
      var left := entries.Keys;
      ghost var seen := {};
      while left != {}
        invariant left <= entries.Keys && count == |seen| && seen <= entries.Keys - left
        invariant forall t :: t in entries.Keys - left ==>
          !BreaksCount(entries[t], sender) && (t in seen <==> Pending(entries[t], sender, now))
        decreases |left|
      {
        var t :| t in left;
        match entries[t] {
          case Odd =>
            return Err(());
          case Manifest(who, expires) =>
            if who == Some(sender) {
              if expires == NotNumber {
                return Err(());
              }
              if (expires.At? && expires.t > now) || expires == Infinite(true) {
                count := count + 1;
                seen := seen + {t};
              }
            }
          case _ =>
        }
        left := left - {t};
      }
      assert seen == PendingSet(entries, sender, now);
      r := Ok(count);
    }

    /** A pass that raises has removed some of what it would have removed, no more. */
    method Sweep(now: int) returns (r: Result<nat, ()>, ghost gone: set<string>)
      modifies this
      ensures r.Err? <==> SweepRaises(old(entries))
      ensures entries == old(entries) - gone && gone <= SweptSet(old(entries), now)
      ensures r.Ok? ==> gone == SweptSet(old(entries), now) && r.value == |gone|
    {
      hide SweptSet;
      var removed := 0;
      ghost var was := entries;
      gone := {};
      var left := entries.Keys;
      while left != {}
        invariant left <= was.Keys && removed == |gone| && gone <= was.Keys - left
        invariant forall t :: t in was.Keys - left ==> !BreaksSweep(was[t]) && (t in gone <==> Swept(was[t], now))
        invariant entries == was - gone
        decreases |left|
      {
        var t :| t in left;
        assert entries[t] == was[t];
        var due := false;
        match entries[t] {
          case Odd =>
            GoneIsSwept(was, gone, now);
            return Err(()), gone;
          case Corrupt =>
            due := true;
          case Manifest(_, expires) =>
            if expires == NotNumber {
              GoneIsSwept(was, gone, now);
              return Err(()), gone;
            }
            due := (expires.At? && expires.t <= now) || expires == Infinite(false);
          case NoMeta =>
        }
        if due {
          entries := entries - {t};
          removed := removed + 1;
          RemoveOne(was, gone, t);
          gone := gone + {t};
        }
        left := left - {t};
      }
      GoneIsSwept(was, gone, now);
      r := Ok(removed);
    }
  }

  lemma GoneIsSwept(es: Entries, gone: set<string>, now: int)
    requires gone <= es.Keys && forall t :: t in gone ==> Swept(es[t], now)
    ensures gone <= SweptSet(es, now)
    ensures (forall t :: t in es ==> (t in gone <==> Swept(es[t], now))) ==> gone == SweptSet(es, now)
  {}

  lemma RemoveOne(m: Entries, gone: set<string>, t: string)
    ensures (m - gone) - {t} == m - (gone + {t})
  {}

  // ---- conservation ----

  /** Pending transfers added up over a set of senders. */
  ghost function TotalPending(es: Entries, senders: set<string>, now: int): nat {
    if senders == {} then 0
    else
      var s :| s in senders;
      |PendingSet(es, s, now)| + TotalPending(es, senders - {s}, now)
  }

  function PendingOf(es: Entries, senders: set<string>, now: int): set<string> {
    set t | t in es && es[t].Manifest? && es[t].sender.Some? && es[t].sender.value in senders
            && Later(es[t].expires, now)
  }

  lemma {:induction false} TotalIsUnion(es: Entries, senders: set<string>, now: int)
    ensures TotalPending(es, senders, now) == |PendingOf(es, senders, now)|
    decreases senders
  {
    var all := PendingOf(es, senders, now);
    if senders != {} {
      var s :| s in senders && TotalPending(es, senders, now)
        == |PendingSet(es, s, now)| + TotalPending(es, senders - {s}, now);
      TotalIsUnion(es, senders - {s}, now);
      assert all == PendingSet(es, s, now) + PendingOf(es, senders - {s}, now);
    } else {
      assert all == {};
    }
  }

  function Senders(es: Entries): set<string> {
    set t | t in es && es[t].Manifest? && es[t].sender.Some? :: es[t].sender.value
  }

  /** At one instant the manifests are the expired ones, everybody's pending ones and
      the stranded. */
  lemma ManifestsSplit(es: Entries, now: int)
    ensures |ManifestSet(es)|
      == |ExpiredSet(es, now)| + TotalPending(es, Senders(es), now) + |StrandedSet(es, now)|
  {
    var live := PendingOf(es, Senders(es), now);
    TotalIsUnion(es, Senders(es), now);
    assert ManifestSet(es) == ExpiredSet(es, now) + live + StrandedSet(es, now);
  }

  /** Whatever part of its victims a sweep has removed, no sender's pending count
      changes at its instant; a whole pass leaves only undue manifests and entries
      without one. */
  lemma SweepConserves(es: Entries, gone: set<string>, now: int, sender: string)
    requires gone <= SweptSet(es, now)
    ensures var left := es - gone;
      && PendingSet(left, sender, now) == PendingSet(es, sender, now)
      && (gone == SweptSet(es, now) ==>
            forall t :: t in left ==> !left[t].Corrupt? && (left[t].Manifest? ==> !Due(left[t].expires, now)))
      && (forall t :: t in es && es[t].NoMeta? ==> t in left)
  {}
}
