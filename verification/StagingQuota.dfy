/** The pending-transfer quota of local stagings in the shared tree: each counts its
    sender's manifests first, and shows its own only after the copy. */
module StagingQuota {
  import opened Prelude
  import opened Staging
  import TransferDir

  /** The tree, and the processes past the check that have not begun, with their senders. */
  datatype Site = Site(w: World, checked: map<Pid, string>)

  datatype Act =
    | Check(p: Pid, sender: string, now: int)
    | GiveUp(p: Pid)
    | Other(e: Event)

  /** A count that raises ends the call; a staging begins only past its check. */
  ghost predicate ActStep(h: Hash, cfg: Config, max: int, s: Site, s': Site, a: Act)
    requires ValidHash(h)
  {
    match a
    case Check(p, sender, now) =>
      && p !in s.checked && p !in s.w.jobs && now <= s.w.clock
      && !TransferDir.CountRaises(View(cfg, s.w), sender)
      && s' == if |TransferDir.PendingSet(View(cfg, s.w), sender, now)| < max
               then s.(checked := s.checked[p := sender]) else s
    case GiveUp(p) =>
      s' == s.(checked := s.checked - {p})
    case Other(e) =>
      && Step(h, cfg, s.w, s'.w, e)
      && (e.Begin? ==> e.p in s.checked && s.checked[e.p] == e.job.sender)
      && s'.checked == if e.Begin? then s.checked - {e.p} else s.checked
  }

  ghost predicate SiteRun(h: Hash, cfg: Config, max: int, ss: seq<Site>, acts: seq<Act>)
    requires ValidHash(h)
  {
    && |ss| == |acts| + 1 && Init(ss[0].w) && ss[0].checked == map[]
    && forall i :: 0 <= i < |acts| ==> ActStep(h, cfg, max, ss[i], ss[i + 1], acts[i])
  }

  /** No upload of the run is named like a manifest. */
  predicate NoneNamedMeta(acts: seq<Act>) {
    forall i :: 0 <= i < |acts| ==> Honest(acts[i])
  }

  predicate Honest(a: Act) {
    !(a.Other? && a.e.UploadPlace? && a.e.name == META)
  }

  function Live(cfg: Config, s: Site, sender: string): set<string> {
    TransferDir.PendingSet(View(cfg, s.w), sender, s.w.clock)
  }

  function Running(s: Site, sender: string): set<Pid> {
    set p | p in s.w.jobs && s.w.jobs[p].sender == sender
  }

  function Waiting(s: Site, sender: string): set<Pid> {
    set p | p in s.checked && s.checked[p] == sender
  }

  function InGap(s: Site, sender: string): nat {
    |Running(s, sender)| + |Waiting(s, sender)|
  }

  // ---- steps ----

  /** No manifest comes from an upload. */
  ghost predicate Plain(w: World) {
    forall tid :: HasMeta(w, tid) ==> tid in w.copied
  }

  lemma StepKeepsPlain(h: Hash, cfg: Config, w: World, w': World, e: Event)
    requires ValidHash(h) && Inv(h, cfg, w) && Plain(w) && Step(h, cfg, w, w', e) && Honest(Other(e))
    ensures Plain(w')
  {
    StepKeepsInv(h, cfg, w, w', e);
    hide ValidHash, Step, Inv, HasMeta;
    forall tid | HasMeta(w', tid) ensures tid in w'.copied {
      if tid !in w'.copied {
        MetaIsSomeones(h, cfg, w', tid);
        PlacedMetaStep(h, cfg, w, w', e, tid);
        OneOwner(h, cfg, w, tid);
        assert false;
      }
    }
  }

  /** Pending transfers only ever come from a publishing job of the sender. */
  lemma NewPending(h: Hash, cfg: Config, w: World, w': World, e: Event, sender: string, tid: string)
    requires ValidHash(h) && Inv(h, cfg, w) && Plain(w) && Step(h, cfg, w, w', e) && Honest(Other(e))
    requires tid in TransferDir.PendingSet(View(cfg, w'), sender, w'.clock)
    ensures tid in TransferDir.PendingSet(View(cfg, w), sender, w.clock)
      || (e.Publish? && e.p in w.jobs && w.jobs[e.p].sender == sender && w.jobs[e.p].tid == tid)
  {
    StepKeepsPlain(h, cfg, w, w', e);
    ClockGrows(h, cfg, w, w', e);
    hide Plain, Inv;
    assert HasMeta(w', tid);
    if HasMeta(w, tid) {
      assert tid in w.copied by {
        PlainOwner(w, tid);
      }
      FinishedIsFrozen(h, cfg, w, w', e, tid);
      hide Step;
    } else if e.Publish? {
      PublishShows(h, cfg, w, w', e.p, tid);
      hide Step;
    } else {
      PlainOwner(w', tid);
      OnlyPublishShows(h, cfg, w, w', e, tid);
      assert false;
    }
    hide ValidHash;
  }

  lemma PlainOwner(w: World, tid: Tid)
    requires Plain(w) && HasMeta(w, tid)
    ensures tid in w.copied
  {}

  lemma ClockGrows(h: Hash, cfg: Config, w: World, w': World, e: Event)
    requires ValidHash(h) && Step(h, cfg, w, w', e)
    ensures w.clock <= w'.clock
  {
    hide ValidHash;
  }

  /** Who runs after a step. */
  lemma RunningAfter(h: Hash, cfg: Config, w: World, w': World, e: Event)
    requires ValidHash(h) && Step(h, cfg, w, w', e)
    ensures forall p :: p in w'.jobs && !(e.Begin? && p == e.p) ==> p in w.jobs && w'.jobs[p].sender == w.jobs[p].sender
    ensures e.Begin? ==> e.p !in w.jobs && e.p in w'.jobs && w'.jobs[e.p].sender == e.job.sender
    ensures e.Publish? ==> e.p in w.jobs && e.p !in w'.jobs
  {
    JobsAfter(h, cfg, w, w', e);
    hide ValidHash, Step;
  }

  ghost predicate PublishesFor(w: World, e: Event, sender: string) {
    e.Publish? && e.p in w.jobs && w.jobs[e.p].sender == sender
  }

  lemma LiveAfter(h: Hash, cfg: Config, max: int, s: Site, s': Site, e: Event, sender: string)
    requires ValidHash(h) && Inv(h, cfg, s.w) && Plain(s.w) && ActStep(h, cfg, max, s, s', Other(e))
    requires Honest(Other(e))
    ensures |Live(cfg, s', sender)| <= |Live(cfg, s, sender)| + if PublishesFor(s.w, e, sender) then 1 else 0
  {
    hide ValidHash, Step, Inv, Plain;
    var shown := if PublishesFor(s.w, e, sender) then {s.w.jobs[e.p].tid} else {};
    forall tid | tid in Live(cfg, s', sender) ensures tid in Live(cfg, s, sender) + shown {
      NewPending(h, cfg, s.w, s'.w, e, sender, tid);
    }
    hide Live;
    SubsetSize(Live(cfg, s', sender), Live(cfg, s, sender) + shown);
  }

  lemma GapAfter(h: Hash, cfg: Config, max: int, s: Site, s': Site, e: Event, sender: string)
    requires ValidHash(h) && ActStep(h, cfg, max, s, s', Other(e))
    ensures InGap(s', sender) + (if PublishesFor(s.w, e, sender) then 1 else 0) <= InGap(s, sender)
  {
    RunningAfter(h, cfg, s.w, s'.w, e);
    if e.Begin? {
      assert s'.checked == s.checked - {e.p} && e.p in s.checked && s.checked[e.p] == e.job.sender;
      BeginKeepsGap(s, s', e.p, e.job.sender, sender);
    } else {
      assert s'.checked == s.checked;
      RestShrinksGap(s, s', if PublishesFor(s.w, e, sender) then {e.p} else {}, sender);
    }
    hide ValidHash, Step, ActStep, InGap;
  }

  lemma BeginKeepsGap(s: Site, s': Site, p: Pid, who: string, sender: string)
    requires p in s.checked && s.checked[p] == who && s'.checked == s.checked - {p}
    requires forall q :: q in s'.w.jobs && q != p ==> q in s.w.jobs && s'.w.jobs[q].sender == s.w.jobs[q].sender
    requires p in s'.w.jobs && s'.w.jobs[p].sender == who
    ensures InGap(s', sender) <= InGap(s, sender)
  {
    var mine := if who == sender then {p} else {};
    assert Running(s', sender) <= Running(s, sender) + mine;
    SubsetSize(Running(s', sender), Running(s, sender) + mine);
    assert Waiting(s', sender) == Waiting(s, sender) - mine && mine <= Waiting(s, sender);
  }

  lemma RestShrinksGap(s: Site, s': Site, gone: set<Pid>, sender: string)
    requires s'.checked == s.checked && gone <= Running(s, sender) && gone !! s'.w.jobs.Keys
    requires forall q :: q in s'.w.jobs ==> q in s.w.jobs && s'.w.jobs[q].sender == s.w.jobs[q].sender
    ensures InGap(s', sender) + |gone| <= InGap(s, sender)
  {
    assert Running(s', sender) <= Running(s, sender) - gone;
    SubsetSize(Running(s', sender), Running(s, sender) - gone);
    assert Waiting(s', sender) == Waiting(s, sender);
  }

  /** Pending and in the gap together grow only at a check. */
  lemma OtherKeepsSum(h: Hash, cfg: Config, max: int, s: Site, s': Site, e: Event, sender: string)
    requires ValidHash(h) && Inv(h, cfg, s.w) && Plain(s.w) && ActStep(h, cfg, max, s, s', Other(e))
    requires Honest(Other(e))
    ensures |Live(cfg, s', sender)| + InGap(s', sender) <= |Live(cfg, s, sender)| + InGap(s, sender)
  {
    hide ValidHash, Inv, Plain, ActStep, Live, InGap;
    LiveAfter(h, cfg, max, s, s', e, sender);
    GapAfter(h, cfg, max, s, s', e, sender);
  }

  lemma CheckKeepsBound(h: Hash, cfg: Config, max: int, k: nat, s: Site, s': Site, a: Act, sender: string)
    requires ValidHash(h) && a.Check? && ActStep(h, cfg, max, s, s', a) && InGap(s', sender) <= k
    requires |Live(cfg, s, sender)| + InGap(s, sender) <= max + k - 1
    ensures |Live(cfg, s', sender)| + InGap(s', sender) <= max + k - 1
  {
    hide ValidHash;
    var v := View(cfg, s.w);
    assert Running(s', sender) == Running(s, sender);
    if s' != s && a.sender == sender {
      assert Live(cfg, s, sender) <= TransferDir.PendingSet(v, sender, a.now);
      SubsetSize(Live(cfg, s, sender), TransferDir.PendingSet(v, sender, a.now));
    } else {
      assert Waiting(s', sender) == Waiting(s, sender);
    }
  }

  lemma ActKeepsBound(h: Hash, cfg: Config, max: int, k: nat, s: Site, s': Site, a: Act, sender: string)
    requires ValidHash(h) && Inv(h, cfg, s.w) && Plain(s.w) && ActStep(h, cfg, max, s, s', a) && Honest(a)
    requires InGap(s', sender) <= k && |Live(cfg, s, sender)| + InGap(s, sender) <= max + k - 1
    ensures Inv(h, cfg, s'.w) && Plain(s'.w)
    ensures |Live(cfg, s', sender)| + InGap(s', sender) <= max + k - 1
  {
    hide ValidHash, Inv, Plain, Step;
    match a
    case Check(_, _, _) =>
      CheckKeepsBound(h, cfg, max, k, s, s', a, sender);
    case GiveUp(p) =>
      assert Running(s', sender) == Running(s, sender) && Live(cfg, s', sender) == Live(cfg, s, sender);
      SubsetSize(Waiting(s', sender), Waiting(s, sender));
    case Other(e) =>
      StepKeepsInv(h, cfg, s.w, s'.w, e);
      StepKeepsPlain(h, cfg, s.w, s'.w, e);
      OtherKeepsSum(h, cfg, max, s, s', e, sender);
  }

  /** In runs without uploads named like a manifest, if at most `k` stagings of a sender
      are ever between check and manifest, it never has more than max + k - 1 pending
      transfers, those in the gap included. */
  lemma {:induction false} StagingQuotaBound(h: Hash, cfg: Config, max: int, k: nat, ss: seq<Site>, acts: seq<Act>,
                                             i: nat, sender: string)
    requires ValidHash(h) && max >= 0 && k >= 1 && SiteRun(h, cfg, max, ss, acts) && NoneNamedMeta(acts) && i < |ss|
    requires forall j :: 0 <= j < |ss| ==> InGap(ss[j], sender) <= k
    ensures Inv(h, cfg, ss[i].w) && Plain(ss[i].w)
    ensures |Live(cfg, ss[i], sender)| + InGap(ss[i], sender) <= max + k - 1
  {
    hide ValidHash, Inv, ActStep, Honest, Plain;
    if i > 0 {
      StagingQuotaBound(h, cfg, max, k, ss, acts, i - 1, sender);
      ActKeepsBound(h, cfg, max, k, ss[i - 1], ss[i], acts[i - 1], sender);
    } else {
      InitBound(h, cfg, ss[0], sender);
    }
  }

  lemma InitBound(h: Hash, cfg: Config, s: Site, sender: string)
    requires ValidHash(h) && Init(s.w) && s.checked == map[]
    ensures Inv(h, cfg, s.w) && Plain(s.w) && Live(cfg, s, sender) == {} && InGap(s, sender) == 0
  {
    InitInv(h, cfg, s.w);
    assert Running(s, sender) == {} && Waiting(s, sender) == {};
  }

  /** An upload named like a manifest can add to a sender's pending transfers without any
      check. */
  lemma MetaAddsUnchecked(h: Hash, cfg: Config, tid: Tid, b: Bytes, sender: string)
    returns (ss: seq<Site>, acts: seq<Act>)
    requires ValidHash(h) && 0 < |b| <= CHUNK && TransferDir.Pending(cfg.parse(b), sender, 0)
    ensures SiteRun(h, cfg, 0, ss, acts) && |acts| == 3
    ensures InGap(ss[3], sender) == 0 && Live(cfg, ss[3], sender) == {tid}
  {
    hide ValidHash, Step;
    var ws, es := PlacedMetaIsRead(h, cfg, tid, b);
    ss := [Site(ws[0], map[]), Site(ws[1], map[]), Site(ws[2], map[]), Site(ws[3], map[])];
    acts := [Other(es[0]), Other(es[1]), Other(es[2])];
    assert es[0] == es[..3][0] && es[1] == es[..3][1] && es[2] == es[..3][2];
    forall i | 0 <= i < 3 ensures ActStep(h, cfg, 0, ss[i], ss[i + 1], acts[i]) {
      assert Step(h, cfg, ws[i], ws[i + 1], es[i]);
      assert i == 0 || i == 1 || i == 2;
    }
    assert Running(ss[3], sender) == {} && Waiting(ss[3], sender) == {};
  }

  /** A process may check unless its count raises, and whoever found room may begin. */
  lemma ChecksHappen(h: Hash, cfg: Config, max: int, s: Site, p: Pid, sender: string, now: int) returns (s': Site)
    requires ValidHash(h) && p !in s.checked && p !in s.w.jobs && now <= s.w.clock
    requires !TransferDir.CountRaises(View(cfg, s.w), sender)
    ensures ActStep(h, cfg, max, s, s', Check(p, sender, now))
    ensures p in s'.checked <==> |TransferDir.PendingSet(View(cfg, s.w), sender, now)| < max
    ensures p in s'.checked ==> s'.checked[p] == sender
  {
    s' := if |TransferDir.PendingSet(View(cfg, s.w), sender, now)| < max then s.(checked := s.checked[p := sender])
          else s;
  }

  lemma BeginsHappen(h: Hash, cfg: Config, max: int, s: Site, w': World, e: Event) returns (s': Site)
    requires ValidHash(h) && Step(h, cfg, s.w, w', e)
    requires e.Begin? ==> e.p in s.checked && s.checked[e.p] == e.job.sender
    ensures ActStep(h, cfg, max, s, s', Other(e)) && s'.w == w'
  {
    s' := Site(w', if e.Begin? then s.checked - {e.p} else s.checked);
  }
}
