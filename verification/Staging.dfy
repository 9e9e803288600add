/** Staging a file as small steps on a directory tree, with crashes, sweeps, deletions
    and façade uploads into the same tree in between. */
module Staging {
  import opened Prelude
  import TransferDir

  type Byte = bv8
  type Bytes = seq<Byte>

  const CHUNK := 65_536

  /** An incremental hash: feeding two pieces is feeding their concatenation. */
  datatype Hash = Hash(init: int, update: (int, Bytes) -> int, hex: int -> string)

  ghost predicate ValidHash(h: Hash) {
    && (forall s :: h.update(s, []) == s)
    && (forall s, a, b :: h.update(h.update(s, a), b) == h.update(s, a + b))
    && (forall s :: |h.hex(s)| >= 16)
    && (forall s :: AllHex(h.hex(s)))
  }

  lemma Feed(h: Hash, s: int, a: Bytes, b: Bytes)
    requires ValidHash(h)
    ensures h.update(h.update(s, a), b) == h.update(s, a + b)
    ensures h.update(s, []) == s
  {}

  predicate HexDigit(c: char) {
    '0' <= c <= '9' || 'a' <= c <= 'f'
  }

  predicate AllHex(s: string) {
    forall i :: 0 <= i < |s| ==> HexDigit(s[i])
  }

  function Digest(h: Hash, b: Bytes): string {
    h.hex(h.update(h.init, b))
  }

  function Concat(chunks: seq<Bytes>): Bytes {
    if chunks == [] then [] else Concat(chunks[..|chunks| - 1]) + chunks[|chunks| - 1]
  }

  /** The copy loop: what it writes, hashes and counts is what it read. */
  method HashAndCopy(h: Hash, chunks: seq<Bytes>) returns (sha: string, size: nat, written: Bytes)
    requires ValidHash(h)
    ensures written == Concat(chunks) && size == |written| && sha == Digest(h, written)
  {
    hide ValidHash;
    Feed(h, h.init, [], []);
    var state := h.init;
    size, written := 0, [];
    for i := 0 to |chunks|
      invariant written == Concat(chunks[..i]) && size == |written| && state == h.update(h.init, written)
    {
      assert chunks[..i + 1][..i] == chunks[..i];
      Feed(h, h.init, written, chunks[i]);
      state := h.update(state, chunks[i]);
      size := size + |chunks[i]|;
      written := written + chunks[i];
    }
    assert chunks[..|chunks|] == chunks;
    sha := h.hex(state);
  }

  lemma {:induction false} ConcatPrefix(chunks: seq<Bytes>, n: nat)
    requires n <= |chunks|
    ensures |Concat(chunks[..n])| <= |Concat(chunks)|
    decreases |chunks|
  {
    if n < |chunks| {
      ConcatPrefix(chunks[..|chunks| - 1], n);
      assert chunks[..|chunks| - 1][..n] == chunks[..n];
    } else {
      assert chunks[..n] == chunks;
    }
  }

  datatype Upload = Upload(sha: string, size: nat, written: Bytes)

  /** The façade's upload loop stops at the first chunk past the limit; it refuses
      exactly the uploads larger than that, and keeps nothing of them. */
  method ReceiveUpload(h: Hash, chunks: seq<Bytes>, maxSize: int) returns (r: Option<Upload>)
    requires ValidHash(h)
    ensures r.None? <==> chunks != [] && |Concat(chunks)| > maxSize
    ensures r.Some? ==> r.value.written == Concat(chunks) && r.value.size == |Concat(chunks)|
                        && r.value.sha == Digest(h, Concat(chunks))
  {
    hide ValidHash;
    Feed(h, h.init, [], []);
    var state, total, written := h.init, 0, [];
    for i := 0 to |chunks|
      invariant written == Concat(chunks[..i]) && total == |written| && state == h.update(h.init, written)
      invariant i > 0 ==> total <= maxSize
    {
      assert chunks[..i + 1][..i] == chunks[..i];
      total := total + |chunks[i]|;
      if total > maxSize {
        ConcatPrefix(chunks, i + 1);
        return None;
      }
      Feed(h, h.init, written, chunks[i]);
      state := h.update(state, chunks[i]);
      written := written + chunks[i];
    }
    assert chunks[..|chunks|] == chunks;
    r := Some(Upload(h.hex(state), total, written));
  }

  /** The verification loop of a fetch, reading the file back in chunks. */
  method HashFile(h: Hash, data: Bytes) returns (sha: string)
    requires ValidHash(h)
    ensures sha == Digest(h, data)
  {
    hide ValidHash;
    Feed(h, h.init, [], []);
    var state, pos := h.init, 0;
    while pos < |data|
      invariant 0 <= pos <= |data| && state == h.update(h.init, data[..pos])
    {
      var n := Min(CHUNK, |data| - pos);
      assert data[..pos + n] == data[..pos] + data[pos..pos + n];
      Feed(h, h.init, data[..pos], data[pos..pos + n]);
      state := h.update(state, data[pos..pos + n]);
      pos := pos + n;
    }
    assert data[..pos] == data;
    sha := h.hex(state);
  }

  // ---- the directory tree ----

  type Tid = string
  type Pid = nat

  datatype Manifest = Manifest(tid: Tid, sender: string, recipient: string, filename: string, size: int,
                               sha: string, created: int, expires: int, locTid: Tid, locName: string)

  datatype Content = Data(bytes: Bytes) | Meta(m: Manifest) | Torn

  type Dir = map<string, Content>

  /** The TTL settings, and what a pass over the tree makes of a `meta.json` holding
      arbitrary bytes. */
  datatype Config = Config(defaultTtl: int, maxTtl: int, parse: Bytes -> TransferDir.Entry)

  const META := "meta.json"
  const META_TMP := "meta.json.tmp"

  /** Where the façade receives an upload. */
  const UPLOAD_TMP := ".tmp"

  function CopyName(filename: string): string {
    ".tmp." + StagingName(filename)
  }

  function StagingName(filename: string): string {
    ".staging_" + filename
  }

  function FinalName(sha: string, filename: string): string
    requires |sha| >= 16
  {
    sha[..16] + "_" + filename
  }

  /** The five names a transfer uses never meet, whatever the file is called. */
  lemma NamesDiffer(sha: string, filename: string)
    requires |sha| >= 16 && HexDigit(sha[0])
    ensures META != META_TMP && META != CopyName(filename) && META != StagingName(filename)
    ensures META != FinalName(sha, filename) && META_TMP != FinalName(sha, filename)
    ensures META_TMP != CopyName(filename) && META_TMP != StagingName(filename)
    ensures CopyName(filename) != StagingName(filename)
    ensures FinalName(sha, filename) != CopyName(filename) && FinalName(sha, filename) != StagingName(filename)
  {
    assert CopyName(filename)[1] == 't' && StagingName(filename)[1] == 's';
    assert CopyName(filename)[0] == '.' && StagingName(filename)[0] == '.';
    assert FinalName(sha, filename)[0] == sha[0] && META[0] == 'm' && META_TMP[0] == 'm';
    assert |META| == 9 && |META_TMP| == 13;
  }

  // ---- the staging protocol ----

  datatype Stage = Made | Copying | Staged | Placed | Tearing | Written

  /** One `stage_file` call, with its running hash state and size. */
  datatype Job = Job(tid: Tid, sender: string, recipient: string, filename: string, created: int, expires: int,
                     stage: Stage, state: int, size: int)

  /** A process about to remove a directory it has judged expired (or that its
      owner asked it to delete). */
  datatype Reaper = Reaper(now: int, tid: Tid, sweep: bool)

  /** `copied` records the bytes each copy loop has written, and `uploads` the façade's
      transfers with the expiry of the row, once there is one. */
  datatype World = World(dirs: map<Tid, Dir>, jobs: map<Pid, Job>, reapers: map<Pid, Reaper>, clock: int,
                         copied: map<Tid, Bytes>, uploads: map<Tid, Option<int>>)

  datatype Event =
    | Begin(p: Pid, job: Job, expiresIn: Option<int>)
    | Open(p: Pid)
    | Copy(p: Pid, chunk: Bytes)
    | EndCopy(p: Pid)
    | Place(p: Pid)
    | TearMeta(p: Pid)
    | WriteMeta(p: Pid)
    | Publish(p: Pid)
    | Crash(p: Pid)
    | SweepPick(q: Pid, now: int, tid: Tid)
    | DeletePick(q: Pid, tid: Tid, caller: string)
    | Remove(q: Pid)
    | UploadOpen(tid: Tid)
    | UploadWrite(tid: Tid, chunk: Bytes)
    | UploadRefuse(tid: Tid)
    | UploadPlace(tid: Tid, name: string, row: Option<int>)
    | UploadRemove(tid: Tid)
    | Tick(now: int)

  function Sha(h: Hash, j: Job): string {
    h.hex(j.state)
  }

  function ManifestOf(h: Hash, j: Job): Manifest
    requires |Sha(h, j)| >= 16
  {
    Manifest(j.tid, j.sender, j.recipient, j.filename, j.size, Sha(h, j), j.created, j.expires,
             j.tid, FinalName(Sha(h, j), j.filename))
  }

  ghost predicate Running(w: World, p: Pid, stage: Stage) {
    p in w.jobs && w.jobs[p].stage == stage && w.jobs[p].tid in w.dirs
  }

  /** `job` moves to `stage` and leaves its directory as `dir`. */
  function Move(w: World, p: Pid, stage: Stage, dir: Dir): World
    requires p in w.jobs
  {
    w.(jobs := w.jobs[p := w.jobs[p].(stage := stage)], dirs := w.dirs[w.jobs[p].tid := dir])
  }

  function Rename(d: Dir, from: string, to: string): Dir
    requires from in d
  {
    (d - {from})[to := d[from]]
  }

  ghost predicate HasMeta(w: World, tid: Tid) {
    tid in w.dirs && META in w.dirs[tid]
  }

  /** What `os.path.basename` leaves and a rename accepts. */
  predicate BareName(name: string) {
    name != "" && name != "." && name != ".." && '/' !in name
  }

  /** What a pass over the tree finds in one directory. */
  function EntryOf(cfg: Config, d: Dir): TransferDir.Entry {
    if META !in d then TransferDir.NoMeta
    else
      match d[META]
      case Data(bytes) => cfg.parse(bytes)
      case Meta(m) => TransferDir.Manifest(Some(m.sender), TransferDir.At(m.expires))
      case Torn => TransferDir.Corrupt
  }

  function View(cfg: Config, w: World): TransferDir.Entries {
    map tid | tid in w.dirs :: EntryOf(cfg, w.dirs[tid])
  }

  /** An upload whose row is not created yet. */
  ghost predicate Receiving(w: World, tid: Tid) {
    tid in w.uploads && w.uploads[tid].None? && tid in w.dirs
  }

  ghost predicate Step(h: Hash, cfg: Config, w: World, w': World, e: Event)
    requires ValidHash(h)
  {
    match e
    case Begin(p, j, expiresIn) =>
      && p !in w.jobs && j.tid !in w.copied && j.tid !in w.uploads && w.clock <= j.created
      && j.expires == TransferDir.ExpiryOf(j.created, expiresIn, cfg.defaultTtl, cfg.maxTtl)
      && j.stage == Made && j.state == h.init && j.size == 0
      && w' == w.(jobs := w.jobs[p := j], dirs := w.dirs[j.tid := map[]], copied := w.copied[j.tid := []],
                  clock := j.created)
    case Open(p) =>
      && Running(w, p, Made)
      && var j := w.jobs[p];
      w' == Move(w, p, Copying, w.dirs[j.tid][CopyName(j.filename) := Data([])])
    case Copy(p, chunk) =>
      && Running(w, p, Copying) && 0 < |chunk| <= CHUNK
      && var j := w.jobs[p]; var name := CopyName(j.filename);
      && name in w.dirs[j.tid] && w.dirs[j.tid][name].Data? && j.tid in w.copied
      && w' == w.(dirs := w.dirs[j.tid := w.dirs[j.tid][name := Data(w.dirs[j.tid][name].bytes + chunk)]],
                  jobs := w.jobs[p := j.(state := h.update(j.state, chunk), size := j.size + |chunk|)],
                  copied := w.copied[j.tid := w.copied[j.tid] + chunk])
    case EndCopy(p) =>
      && Running(w, p, Copying)
      && CopyName(w.jobs[p].filename) in w.dirs[w.jobs[p].tid]
      && var j := w.jobs[p];
      w' == Move(w, p, Staged, Rename(w.dirs[j.tid], CopyName(j.filename), StagingName(j.filename)))
    case Place(p) =>
      && Running(w, p, Staged)
      && StagingName(w.jobs[p].filename) in w.dirs[w.jobs[p].tid]
      && var j := w.jobs[p];
      w' == Move(w, p, Placed, Rename(w.dirs[j.tid], StagingName(j.filename), FinalName(Sha(h, j), j.filename)))
    case TearMeta(p) =>
      && Running(w, p, Placed)
      && w' == Move(w, p, Tearing, w.dirs[w.jobs[p].tid][META_TMP := Torn])
    case WriteMeta(p) =>
      && Running(w, p, Tearing)
      && w' == Move(w, p, Written, w.dirs[w.jobs[p].tid][META_TMP := Meta(ManifestOf(h, w.jobs[p]))])
    case Publish(p) =>
      && Running(w, p, Written)
      && META_TMP in w.dirs[w.jobs[p].tid]
      && var j := w.jobs[p];
      w' == w.(dirs := w.dirs[j.tid := Rename(w.dirs[j.tid], META_TMP, META)], jobs := w.jobs - {p})
    case Crash(p) =>
      w' == w.(jobs := w.jobs - {p})
    case SweepPick(q, now, tid) =>
      && q !in w.reapers && now <= w.clock && HasMeta(w, tid)
      && TransferDir.Swept(EntryOf(cfg, w.dirs[tid]), now)
      && w' == w.(reapers := w.reapers[q := Reaper(now, tid, true)])
    case DeletePick(q, tid, caller) =>
      && q !in w.reapers && HasMeta(w, tid)
      && (w.dirs[tid][META].Meta? ==>
            caller == w.dirs[tid][META].m.sender || caller == w.dirs[tid][META].m.recipient)
      && w' == w.(reapers := w.reapers[q := Reaper(w.clock, tid, false)])
    case Remove(q) =>
      && q in w.reapers
      && w' == w.(dirs := w.dirs - {w.reapers[q].tid}, reapers := w.reapers - {q})
    case UploadOpen(tid) =>
      && tid !in w.copied && tid !in w.uploads
      && w' == w.(dirs := w.dirs[tid := map[UPLOAD_TMP := Data([])]], uploads := w.uploads[tid := None])
    case UploadWrite(tid, chunk) =>
      && Receiving(w, tid) && 0 < |chunk| <= CHUNK
      && UPLOAD_TMP in w.dirs[tid] && w.dirs[tid][UPLOAD_TMP].Data?
      && w' == w.(dirs := w.dirs[tid := w.dirs[tid][UPLOAD_TMP := Data(w.dirs[tid][UPLOAD_TMP].bytes + chunk)]])
    case UploadRefuse(tid) =>
      Receiving(w, tid) && w' == w.(dirs := w.dirs[tid := w.dirs[tid] - {UPLOAD_TMP}])
    case UploadPlace(tid, name, row) =>
      && Receiving(w, tid) && UPLOAD_TMP in w.dirs[tid] && BareName(name)
      && w' == w.(dirs := w.dirs[tid := Rename(w.dirs[tid], UPLOAD_TMP, name)], uploads := w.uploads[tid := row])
    case UploadRemove(tid) =>
      tid in w.uploads && w.uploads[tid].Some? && w' == w.(dirs := w.dirs - {tid})
    case Tick(now) =>
      w.clock <= now && w' == w.(clock := now)
  }

  ghost predicate Init(w: World) {
    w.dirs == map[] && w.jobs == map[] && w.reapers == map[] && w.copied == map[] && w.uploads == map[]
  }

  ghost predicate Run(h: Hash, cfg: Config, ws: seq<World>, es: seq<Event>)
    requires ValidHash(h)
  {
    && |ws| == |es| + 1 && Init(ws[0])
    && forall i :: 0 <= i < |es| ==> Step(h, cfg, ws[i], ws[i + 1], es[i])
  }

  // ---- the invariant ----

  /** What a job's directory holds at each stage. */
  function Expected(h: Hash, j: Job, b: Bytes): Dir
    requires |Sha(h, j)| >= 16
  {
    var final := FinalName(Sha(h, j), j.filename);
    match j.stage
    case Made => map[]
    case Copying => map[CopyName(j.filename) := Data(b)]
    case Staged => map[StagingName(j.filename) := Data(b)]
    case Placed => map[final := Data(b)]
    case Tearing => map[final := Data(b), META_TMP := Torn]
    case Written => map[final := Data(b), META_TMP := Meta(ManifestOf(h, j))]
  }

  ghost predicate JobOk(h: Hash, cfg: Config, w: World, j: Job)
    requires ValidHash(h)
  {
    && j.tid in w.dirs && j.tid in w.copied
    && j.state == h.update(h.init, w.copied[j.tid]) && j.size == |w.copied[j.tid]|
    && j.expires <= j.created + cfg.maxTtl && (j.stage == Made ==> w.copied[j.tid] == [])
    && w.dirs[j.tid] == Expected(h, j, w.copied[j.tid])
  }

  /** A finished transfer: its manifest is well-formed and its locator names, in the
      same directory and after digest and file name, a file of exactly the copied bytes
      with that size and hash. */
  ghost predicate Finished(h: Hash, cfg: Config, w: World, tid: Tid) {
    && HasMeta(w, tid) && tid in w.copied && w.dirs[tid][META].Meta?
    && var m := w.dirs[tid][META].m; var b := w.copied[tid];
    && m.tid == tid && m.locTid == tid && m.size == |b| && m.sha == Digest(h, b)
    && m.expires <= m.created + cfg.maxTtl
    && |m.sha| >= 16 && AllHex(m.sha) && m.locName == m.sha[..16] + "_" + m.filename
    && m.locName in w.dirs[tid] && w.dirs[tid][m.locName] == Data(b)
  }

  /** A directory has one owner; a staged one that shows a manifest is finished, and an
      uploaded one that does has received its file. */
  ghost predicate SoundAt(h: Hash, cfg: Config, w: World, tid: Tid) {
    && (tid in w.dirs ==> tid in w.copied || tid in w.uploads)
    && !(tid in w.copied && tid in w.uploads)
    && (HasMeta(w, tid) && tid in w.copied ==> Finished(h, cfg, w, tid))
    && (HasMeta(w, tid) && tid in w.uploads ==> UPLOAD_TMP !in w.dirs[tid])
  }

  ghost predicate Inv(h: Hash, cfg: Config, w: World)
    requires ValidHash(h)
  {
    && (forall tid :: SoundAt(h, cfg, w, tid))
    && (forall p :: p in w.jobs ==> JobOk(h, cfg, w, w.jobs[p]))
    && (forall p, q :: p in w.jobs && q in w.jobs && p != q ==> w.jobs[p].tid != w.jobs[q].tid)
    && (forall q :: q in w.reapers ==> Doomed(cfg, w, w.reapers[q]))
  }

  /** A reaper's target shows a manifest or is already gone, and reads as one a pass at
      the reaper's time sweeps, if it was a sweep that picked it. */
  ghost predicate Doomed(cfg: Config, w: World, r: Reaper) {
    && (r.tid in w.copied || r.tid in w.uploads) && r.now <= w.clock
    && (r.tid in w.dirs ==>
          META in w.dirs[r.tid] && (r.sweep ==> TransferDir.Swept(EntryOf(cfg, w.dirs[r.tid]), r.now)))
  }

  /** No running job's directory shows a manifest, so no reaper is after it. */
  lemma JobHidden(h: Hash, cfg: Config, w: World, p: Pid)
    requires ValidHash(h) && Inv(h, cfg, w) && p in w.jobs
    ensures w.jobs[p].tid in w.dirs && META !in w.dirs[w.jobs[p].tid]
    ensures forall q :: q in w.reapers ==> w.reapers[q].tid != w.jobs[p].tid
  {
    var j := w.jobs[p];
    assert JobOk(h, cfg, w, j);
    NamesDiffer(Sha(h, j), j.filename);
    assert META !in Expected(h, j, w.copied[j.tid]);
    forall q | q in w.reapers ensures w.reapers[q].tid != j.tid {
      assert Doomed(cfg, w, w.reapers[q]);
    }
  }

  // ---- what a step at one place leaves alone ----

  ghost predicate SameAt(w: World, w': World, tid: Tid) {
    && (tid in w'.dirs <==> tid in w.dirs) && (tid in w.dirs ==> w'.dirs[tid] == w.dirs[tid])
    && (tid in w'.copied <==> tid in w.copied) && (tid in w.copied ==> w'.copied[tid] == w.copied[tid])
    && (tid in w'.uploads <==> tid in w.uploads)
  }

  lemma FrameSound(h: Hash, cfg: Config, w: World, w': World, tid: Tid)
    requires SameAt(w, w', tid) && SoundAt(h, cfg, w, tid)
    ensures SoundAt(h, cfg, w', tid)
  {}

  lemma FrameJob(h: Hash, cfg: Config, w: World, w': World, j: Job)
    requires ValidHash(h) && SameAt(w, w', j.tid) && JobOk(h, cfg, w, j)
    ensures JobOk(h, cfg, w', j)
  {
    hide ValidHash, Expected;
  }

  lemma FrameDoomed(cfg: Config, w: World, w': World, r: Reaper)
    requires SameAt(w, w', r.tid) && w.clock <= w'.clock && Doomed(cfg, w, r)
    ensures Doomed(cfg, w', r)
  {}

  /** A step that changes the tree at `tid` only keeps the invariant if it keeps it there. */
  lemma LocalStepKeepsInv(h: Hash, cfg: Config, w: World, w': World, tid: Tid)
    requires ValidHash(h) && Inv(h, cfg, w) && w.clock <= w'.clock
    requires forall t :: t != tid ==> SameAt(w, w', t)
    requires SoundAt(h, cfg, w', tid)
    requires forall p :: p in w'.jobs ==>
               if w'.jobs[p].tid == tid then JobOk(h, cfg, w', w'.jobs[p])
               else p in w.jobs && w'.jobs[p] == w.jobs[p]
    requires forall p, q :: p in w'.jobs && q in w'.jobs && p != q && w'.jobs[p].tid == tid ==> w'.jobs[q].tid != tid
    requires forall q :: q in w'.reapers ==>
               q in w.reapers && w'.reapers[q] == w.reapers[q]
               && (w.reapers[q].tid == tid ==> Doomed(cfg, w', w.reapers[q]))
    ensures Inv(h, cfg, w')
  {
    hide ValidHash, SameAt, SoundAt, JobOk, Doomed;
    forall t ensures SoundAt(h, cfg, w', t) {
      if t != tid {
        FrameSound(h, cfg, w, w', t);
      }
    }
    forall p | p in w'.jobs ensures JobOk(h, cfg, w', w'.jobs[p]) {
      if w'.jobs[p].tid != tid {
        FrameJob(h, cfg, w, w', w.jobs[p]);
      }
    }
    forall q | q in w'.reapers ensures Doomed(cfg, w', w'.reapers[q]) {
      if w.reapers[q].tid != tid {
        FrameDoomed(cfg, w, w', w.reapers[q]);
      }
    }
  }

  /** What a job was asked to do. */
  predicate SameOrder(j: Job, k: Job) {
    && j.tid == k.tid && j.sender == k.sender && j.recipient == k.recipient && j.filename == k.filename
    && j.created == k.created && j.expires == k.expires
  }

  /** A job step touches its own directory and record only. */
  ghost predicate OwnStep(w: World, w': World, p: Pid) {
    && w'.jobs.Keys == w.jobs.Keys && w'.dirs.Keys == w.dirs.Keys && w'.copied.Keys == w.copied.Keys
    && p in w.jobs && w'.jobs[p].tid == w.jobs[p].tid
    && (forall t :: t in w.dirs && t != w.jobs[p].tid ==> w'.dirs[t] == w.dirs[t])
    && (forall t :: t in w.copied && t != w.jobs[p].tid ==> w'.copied[t] == w.copied[t])
    && (forall q :: q in w.jobs && q != p ==> w'.jobs[q] == w.jobs[q])
    && w'.reapers == w.reapers && w'.clock == w.clock && w'.uploads == w.uploads
  }

  lemma OwnStepKeepsInv(h: Hash, cfg: Config, w: World, w': World, p: Pid)
    requires ValidHash(h) && Inv(h, cfg, w) && OwnStep(w, w', p)
    requires JobOk(h, cfg, w', w'.jobs[p])
    ensures Inv(h, cfg, w')
  {
    hide ValidHash, Expected, Finished;
    var tid := w.jobs[p].tid;
    JobHidden(h, cfg, w, p);
    NoMetaExpected(h, w'.jobs[p], w'.copied[tid]);
    assert SoundAt(h, cfg, w, tid) && SoundAt(h, cfg, w', tid);
    hide JobOk, SoundAt, Doomed;
    OwnStepElsewhere(w, w', p);
    hide SameAt;
    LocalStepKeepsInv(h, cfg, w, w', tid);
  }

  lemma OwnStepElsewhere(w: World, w': World, p: Pid)
    requires OwnStep(w, w', p)
    ensures forall t :: t != w.jobs[p].tid ==> SameAt(w, w', t)
  {}

  lemma NoMetaExpected(h: Hash, j: Job, b: Bytes)
    requires ValidHash(h)
    ensures META !in Expected(h, j, b)
  {
    NamesDiffer(Sha(h, j), j.filename);
  }

  predicate JobEvent(e: Event) {
    e.Open? || e.Copy? || e.EndCopy? || e.Place? || e.TearMeta? || e.WriteMeta?
  }

  lemma JobStepIsOwn(h: Hash, cfg: Config, w: World, w': World, e: Event)
    requires ValidHash(h) && Step(h, cfg, w, w', e) && JobEvent(e)
    ensures OwnStep(w, w', e.p)
  {
    hide ValidHash, Rename, ManifestOf;
  }

  lemma CopyStep(h: Hash, cfg: Config, w: World, w': World, p: Pid, chunk: Bytes)
    requires ValidHash(h) && p in w.jobs && JobOk(h, cfg, w, w.jobs[p])
    requires Step(h, cfg, w, w', Copy(p, chunk))
    ensures p in w'.jobs && JobOk(h, cfg, w', w'.jobs[p])
  {}

  lemma RenameStep(h: Hash, cfg: Config, w: World, w': World, e: Event)
    requires ValidHash(h) && (e.EndCopy? || e.Place?) && e.p in w.jobs && JobOk(h, cfg, w, w.jobs[e.p])
    requires Step(h, cfg, w, w', e)
    ensures e.p in w'.jobs && JobOk(h, cfg, w', w'.jobs[e.p])
  {}

  lemma WriteStep(h: Hash, cfg: Config, w: World, w': World, e: Event)
    requires ValidHash(h) && (e.Open? || e.TearMeta? || e.WriteMeta?)
    requires e.p in w.jobs && JobOk(h, cfg, w, w.jobs[e.p])
    requires Step(h, cfg, w, w', e)
    ensures e.p in w'.jobs && JobOk(h, cfg, w', w'.jobs[e.p])
  {}

  /** Renames and writes take the directory from one expected content to the next. */
  lemma JobStep(h: Hash, cfg: Config, w: World, w': World, e: Event)
    requires ValidHash(h) && JobEvent(e) && e.p in w.jobs && JobOk(h, cfg, w, w.jobs[e.p])
    requires Step(h, cfg, w, w', e)
    ensures e.p in w'.jobs && JobOk(h, cfg, w', w'.jobs[e.p])
  {
    hide ValidHash, Step, JobOk;
    match e
    case Copy(p, chunk) => CopyStep(h, cfg, w, w', p, chunk);
    case EndCopy(_) => RenameStep(h, cfg, w, w', e);
    case Place(_) => RenameStep(h, cfg, w, w', e);
    case _ => WriteStep(h, cfg, w, w', e);
  }

  lemma PublishFinishes(h: Hash, cfg: Config, w: World, w': World, p: Pid)
    requires ValidHash(h) && p in w.jobs && JobOk(h, cfg, w, w.jobs[p])
    requires Step(h, cfg, w, w', Publish(p))
    ensures Finished(h, cfg, w', w.jobs[p].tid)
  {}

  lemma PublishKeepsInv(h: Hash, cfg: Config, w: World, w': World, p: Pid)
    requires ValidHash(h) && Inv(h, cfg, w) && Step(h, cfg, w, w', Publish(p))
    ensures Inv(h, cfg, w')
  {
    hide ValidHash, Expected, Rename, Finished;
    var tid := w.jobs[p].tid;
    assert JobOk(h, cfg, w, w.jobs[p]);
    PublishFinishes(h, cfg, w, w', p);
    JobHidden(h, cfg, w, p);
    assert SoundAt(h, cfg, w, tid) && SoundAt(h, cfg, w', tid);
    hide JobOk, SoundAt, Doomed;
    LocalStepKeepsInv(h, cfg, w, w', tid);
  }

  lemma NewJobOk(h: Hash, cfg: Config, w: World, w': World, p: Pid, j: Job, expiresIn: Option<int>)
    requires ValidHash(h) && Step(h, cfg, w, w', Begin(p, j, expiresIn))
    ensures JobOk(h, cfg, w', j)
  {}

  lemma BeginKeepsInv(h: Hash, cfg: Config, w: World, w': World, p: Pid, j: Job, expiresIn: Option<int>)
    requires ValidHash(h) && Inv(h, cfg, w) && Step(h, cfg, w, w', Begin(p, j, expiresIn))
    ensures Inv(h, cfg, w')
  {
    hide ValidHash, Expected, Finished;
    NewJobOk(h, cfg, w, w', p, j, expiresIn);
    NothingFresh(h, cfg, w, j.tid);
    assert SoundAt(h, cfg, w', j.tid);
    hide JobOk, SoundAt, Doomed;
    LocalStepKeepsInv(h, cfg, w, w', j.tid);
  }

  /** A new id meets no job and no reaper. */
  lemma NothingFresh(h: Hash, cfg: Config, w: World, tid: Tid)
    requires ValidHash(h) && Inv(h, cfg, w) && tid !in w.copied && tid !in w.uploads
    ensures forall p :: p in w.jobs ==> w.jobs[p].tid != tid
    ensures forall q :: q in w.reapers ==> w.reapers[q].tid != tid
    ensures tid !in w.dirs
  {
    forall p | p in w.jobs ensures w.jobs[p].tid != tid {
      assert JobOk(h, cfg, w, w.jobs[p]);
    }
    forall q | q in w.reapers ensures w.reapers[q].tid != tid {
      assert Doomed(cfg, w, w.reapers[q]);
    }
    assert SoundAt(h, cfg, w, tid);
    hide ValidHash, Expected, Finished;
  }

  lemma RemoveKeepsInv(h: Hash, cfg: Config, w: World, w': World, q: Pid)
    requires ValidHash(h) && Inv(h, cfg, w) && Step(h, cfg, w, w', Remove(q))
    ensures Inv(h, cfg, w')
  {
    hide ValidHash, Expected, Finished, EntryOf;
    var tid := w.reapers[q].tid;
    assert SoundAt(h, cfg, w, tid) && SoundAt(h, cfg, w', tid);
    forall p | p in w.jobs ensures w.jobs[p].tid != tid {
      JobHidden(h, cfg, w, p);
    }
    forall r | r in w'.reapers && w.reapers[r].tid == tid ensures Doomed(cfg, w', w.reapers[r]) {
      assert Doomed(cfg, w, w.reapers[r]);
    }
    hide JobOk, SoundAt, Doomed;
    LocalStepKeepsInv(h, cfg, w, w', tid);
  }

  lemma QuietKeepsInv(h: Hash, cfg: Config, w: World, w': World, e: Event)
    requires ValidHash(h) && Inv(h, cfg, w) && Step(h, cfg, w, w', e)
    requires e.Crash? || e.SweepPick? || e.DeletePick? || e.Tick?
    ensures Inv(h, cfg, w')
  {
    hide ValidHash, JobOk, SoundAt, Doomed;
    assert forall tid :: SoundAt(h, cfg, w, tid);
    QuietEffect(h, cfg, w, w', e);
    hide Step;
    forall tid ensures SameAt(w, w', tid) && SoundAt(h, cfg, w', tid) {
      assert SoundAt(h, cfg, w, tid);
      FrameSound(h, cfg, w, w', tid);
    }
    forall p | p in w'.jobs ensures JobOk(h, cfg, w', w'.jobs[p]) {
      FrameJob(h, cfg, w, w', w.jobs[p]);
    }
    forall q | q in w'.reapers ensures Doomed(cfg, w', w'.reapers[q]) {
      if q in w.reapers {
        FrameDoomed(cfg, w, w', w.reapers[q]);
      }
    }
  }

  lemma QuietEffect(h: Hash, cfg: Config, w: World, w': World, e: Event)
    requires ValidHash(h) && Step(h, cfg, w, w', e) && forall tid :: SoundAt(h, cfg, w, tid)
    requires e.Crash? || e.SweepPick? || e.DeletePick? || e.Tick?
    ensures w'.dirs == w.dirs && w'.copied == w.copied && w'.uploads == w.uploads && w.clock <= w'.clock
    ensures forall p :: p in w'.jobs ==> p in w.jobs && w'.jobs[p] == w.jobs[p]
    ensures forall q :: q in w'.reapers ==>
              (q in w.reapers && w'.reapers[q] == w.reapers[q]) || Doomed(cfg, w', w'.reapers[q])
  {
    hide ValidHash, Finished, EntryOf;
    if e.SweepPick? || e.DeletePick? {
      assert SoundAt(h, cfg, w, e.tid);
    }
  }

  predicate UploadEvent(e: Event) {
    e.UploadOpen? || e.UploadWrite? || e.UploadRefuse? || e.UploadPlace? || e.UploadRemove?
  }

  /** An upload step touches its own directory only, which no staging uses, and leaves it
      as it is or removes it whole once the file is received under a manifest's name. */
  ghost predicate OwnUpload(w: World, w': World, tid: Tid) {
    && (forall t :: t != tid ==> SameAt(w, w', t))
    && tid in w'.uploads && (tid !in w.uploads ==> tid !in w.copied) && (tid in w'.copied <==> tid in w.copied)
    && w'.jobs == w.jobs && w'.reapers == w.reapers && w'.clock == w.clock
    && (HasMeta(w, tid) && UPLOAD_TMP !in w.dirs[tid] && tid in w.uploads ==>
          tid in w'.dirs ==> w'.dirs[tid] == w.dirs[tid])
    && (HasMeta(w', tid) && !HasMeta(w, tid) ==> UPLOAD_TMP !in w'.dirs[tid])
    && (tid in w'.dirs && tid in w.uploads ==> tid in w.dirs)
  }

  lemma UploadIsOwn(h: Hash, cfg: Config, w: World, w': World, e: Event)
    requires ValidHash(h) && Step(h, cfg, w, w', e) && UploadEvent(e)
    ensures OwnUpload(w, w', e.tid)
  {
    UploadElsewhere(h, cfg, w, w', e);
    UploadHere(h, cfg, w, w', e);
    hide ValidHash, Step, SameAt;
  }

  lemma UploadElsewhere(h: Hash, cfg: Config, w: World, w': World, e: Event)
    requires ValidHash(h) && Step(h, cfg, w, w', e) && UploadEvent(e)
    ensures forall t :: t != e.tid ==> SameAt(w, w', t)
  {
    hide ValidHash, Rename;
  }

  lemma UploadHere(h: Hash, cfg: Config, w: World, w': World, e: Event)
    requires ValidHash(h) && Step(h, cfg, w, w', e) && UploadEvent(e)
    ensures e.tid in w'.uploads && (e.tid !in w.uploads ==> e.tid !in w.copied) && w'.copied == w.copied
    ensures w'.jobs == w.jobs && w'.reapers == w.reapers && w'.clock == w.clock
    ensures HasMeta(w, e.tid) && UPLOAD_TMP !in w.dirs[e.tid] && e.tid in w.uploads ==>
              e.tid in w'.dirs ==> w'.dirs[e.tid] == w.dirs[e.tid]
    ensures HasMeta(w', e.tid) && !HasMeta(w, e.tid) ==> UPLOAD_TMP !in w'.dirs[e.tid]
    ensures e.tid in w'.dirs && e.tid in w.uploads ==> e.tid in w.dirs
  {
    hide ValidHash;
  }

  lemma UploadKeepsInv(h: Hash, cfg: Config, w: World, w': World, tid: Tid)
    requires ValidHash(h) && Inv(h, cfg, w) && OwnUpload(w, w', tid)
    ensures Inv(h, cfg, w')
  {
    hide ValidHash, Expected, Finished, SameAt, EntryOf;
    assert SoundAt(h, cfg, w, tid);
    assert SoundAt(h, cfg, w', tid);
    forall p | p in w.jobs ensures w.jobs[p].tid != tid {
      assert JobOk(h, cfg, w, w.jobs[p]);
    }
    forall q | q in w.reapers && w.reapers[q].tid == tid ensures Doomed(cfg, w', w.reapers[q]) {
      assert Doomed(cfg, w, w.reapers[q]);
    }
    hide JobOk, SoundAt, Doomed;
    LocalStepKeepsInv(h, cfg, w, w', tid);
  }

  lemma StepKeepsInv(h: Hash, cfg: Config, w: World, w': World, e: Event)
    requires ValidHash(h) && Inv(h, cfg, w) && Step(h, cfg, w, w', e)
    ensures Inv(h, cfg, w')
  {
    if JobEvent(e) {
      JobStepIsOwn(h, cfg, w, w', e);
      JobStep(h, cfg, w, w', e);
      OwnStepKeepsInv(h, cfg, w, w', e.p);
    } else if UploadEvent(e) {
      UploadIsOwn(h, cfg, w, w', e);
      UploadKeepsInv(h, cfg, w, w', e.tid);
    } else {
      hide ValidHash, Step, Inv;
      match e
      case Begin(p, j, expiresIn) => BeginKeepsInv(h, cfg, w, w', p, j, expiresIn);
      case Publish(p) => PublishKeepsInv(h, cfg, w, w', p);
      case Remove(q) => RemoveKeepsInv(h, cfg, w, w', q);
      case _ => QuietKeepsInv(h, cfg, w, w', e);
    }
  }

  // ---- what it gives ----

  /** After any interleaving of stagings, crashes, sweeps, deletions and uploads, a staged
      transfer that shows a manifest is finished, and every running job still finds its
      own directory as it left it. */
  lemma {:induction false} AlwaysInv(h: Hash, cfg: Config, ws: seq<World>, es: seq<Event>, i: nat)
    requires ValidHash(h) && Run(h, cfg, ws, es) && i < |ws|
    ensures Inv(h, cfg, ws[i])
  {
    hide ValidHash, Step, Inv;
    if i > 0 {
      AlwaysInv(h, cfg, ws, es, i - 1);
      StepKeepsInv(h, cfg, ws[i - 1], ws[i], es[i - 1]);
    } else {
      InitInv(h, cfg, ws[0]);
    }
  }

  lemma InitInv(h: Hash, cfg: Config, w: World)
    requires ValidHash(h) && Init(w)
    ensures Inv(h, cfg, w)
  {}

  // ---- uploads named like a manifest ----

  predicate PlacesMeta(e: Event, tid: Tid) {
    e.UploadPlace? && e.tid == tid && e.name == META
  }

  predicate NoPlacedMeta(es: seq<Event>) {
    forall i :: 0 <= i < |es| ==> !(es[i].UploadPlace? && es[i].name == META)
  }

  lemma PlacedMetaStep(h: Hash, cfg: Config, w: World, w': World, e: Event, tid: Tid)
    requires ValidHash(h) && Inv(h, cfg, w) && Step(h, cfg, w, w', e)
    requires HasMeta(w', tid) && tid in w'.uploads && !PlacesMeta(e, tid)
    ensures HasMeta(w, tid) && tid in w.uploads
  {
    hide ValidHash, Step, Inv, HasMeta;
    if JobEvent(e) || e.Publish? {
      JobPlacesNone(h, cfg, w, w', e, tid);
    } else if UploadEvent(e) {
      UploadPlacesNone(h, cfg, w, w', e, tid);
    } else {
      RestPlacesNone(h, cfg, w, w', e, tid);
    }
  }

  lemma JobPlacesNone(h: Hash, cfg: Config, w: World, w': World, e: Event, tid: Tid)
    requires ValidHash(h) && Inv(h, cfg, w) && Step(h, cfg, w, w', e) && (JobEvent(e) || e.Publish?)
    requires HasMeta(w', tid) && tid in w'.uploads
    ensures HasMeta(w, tid) && tid in w.uploads
  {
    hide ValidHash, Expected, Doomed, SoundAt, Rename, ManifestOf;
    assert JobOk(h, cfg, w, w.jobs[e.p]);
    assert w'.uploads == w.uploads;
    OneOwner(h, cfg, w, tid);
    hide Inv, JobOk;
  }

  lemma UploadPlacesNone(h: Hash, cfg: Config, w: World, w': World, e: Event, tid: Tid)
    requires ValidHash(h) && Step(h, cfg, w, w', e) && UploadEvent(e)
    requires HasMeta(w', tid) && tid in w'.uploads && !PlacesMeta(e, tid)
    ensures HasMeta(w, tid) && tid in w.uploads
  {
    hide ValidHash;
    if e.tid != tid {
      UploadElsewhere(h, cfg, w, w', e);
      assert SameAt(w, w', tid);
      hide Step;
    }
  }

  lemma RestPlacesNone(h: Hash, cfg: Config, w: World, w': World, e: Event, tid: Tid)
    requires ValidHash(h) && Step(h, cfg, w, w', e) && !JobEvent(e) && !e.Publish? && !UploadEvent(e)
    requires HasMeta(w', tid) && tid in w'.uploads
    ensures HasMeta(w, tid) && tid in w.uploads
  {
    hide ValidHash;
  }

  /** A manifest among the uploads was uploaded under that name. */
  lemma {:induction false} MetaWasUploaded(h: Hash, cfg: Config, ws: seq<World>, es: seq<Event>, i: nat, tid: Tid)
    returns (j: nat)
    requires ValidHash(h) && Run(h, cfg, ws, es) && i < |ws| && HasMeta(ws[i], tid) && tid !in ws[i].copied
    ensures j < i && PlacesMeta(es[j], tid)
  {
    hide ValidHash, Step, Inv, HasMeta;
    AlwaysInv(h, cfg, ws, es, i);
    MetaIsSomeones(h, cfg, ws[i], tid);
    if i == 0 {
      assert false;
    }
    j := i - 1;
    if !PlacesMeta(es[j], tid) {
      AlwaysInv(h, cfg, ws, es, j);
      PlacedMetaStep(h, cfg, ws[j], ws[i], es[j], tid);
      OneOwner(h, cfg, ws[j], tid);
      j := MetaWasUploaded(h, cfg, ws, es, j, tid);
    }
  }

  lemma MetaIsSomeones(h: Hash, cfg: Config, w: World, tid: Tid)
    requires ValidHash(h) && Inv(h, cfg, w) && HasMeta(w, tid) && tid !in w.copied
    ensures tid in w.uploads
  {
    assert SoundAt(h, cfg, w, tid);
  }

  lemma OneOwner(h: Hash, cfg: Config, w: World, tid: Tid)
    requires ValidHash(h) && Inv(h, cfg, w) && tid in w.uploads
    ensures tid !in w.copied
  {
    assert SoundAt(h, cfg, w, tid);
  }

  lemma StagedIsFinished(h: Hash, cfg: Config, w: World, tid: Tid)
    requires ValidHash(h) && Inv(h, cfg, w) && HasMeta(w, tid) && tid in w.copied
    ensures Finished(h, cfg, w, tid)
  {
    assert SoundAt(h, cfg, w, tid);
  }

  /** Every visible manifest belongs to a finished transfer, at every moment of a run, if
      and only if no upload of the run is named like one. */
  lemma ManifestsSoundIff(h: Hash, cfg: Config, ws: seq<World>, es: seq<Event>)
    requires ValidHash(h) && Run(h, cfg, ws, es)
    ensures NoPlacedMeta(es) <==>
      forall i: nat, tid :: i < |ws| && HasMeta(ws[i], tid) ==> Finished(h, cfg, ws[i], tid)
  {
    hide ValidHash, Step, Finished, HasMeta, JobOk, Doomed;
    if NoPlacedMeta(es) {
      forall i: nat, tid | i < |ws| && HasMeta(ws[i], tid) ensures Finished(h, cfg, ws[i], tid) {
        AlwaysInv(h, cfg, ws, es, i);
        if tid in ws[i].copied {
          StagedIsFinished(h, cfg, ws[i], tid);
        } else {
          var j := MetaWasUploaded(h, cfg, ws, es, i, tid);
        }
      }
    } else {
      var j :| 0 <= j < |es| && es[j].UploadPlace? && es[j].name == META;
      AlwaysInv(h, cfg, ws, es, j);
      PlacedMetaShows(h, cfg, ws[j], ws[j + 1], es[j]);
    }
  }

  lemma PlacedMetaShows(h: Hash, cfg: Config, w: World, w': World, e: Event)
    requires ValidHash(h) && Inv(h, cfg, w) && Step(h, cfg, w, w', e) && e.UploadPlace? && e.name == META
    ensures HasMeta(w', e.tid) && !Finished(h, cfg, w', e.tid)
  {
    OneOwner(h, cfg, w, e.tid);
  }

  /** Without such uploads a pass over the tree never raises, sweeps exactly the finished
      transfers that have expired and counts exactly a sender's finished live ones. */
  lemma PassIsExact(h: Hash, cfg: Config, ws: seq<World>, es: seq<Event>, i: nat, sender: string, now: int)
    requires ValidHash(h) && Run(h, cfg, ws, es) && NoPlacedMeta(es) && i < |ws|
    ensures var w := ws[i]; var v := View(cfg, w);
      && !TransferDir.SweepRaises(v) && !TransferDir.CountRaises(v, sender)
      && (forall tid :: HasMeta(w, tid) ==> Finished(h, cfg, w, tid))
      && TransferDir.SweptSet(v, now)
           == (set tid | tid in w.dirs && HasMeta(w, tid) && w.dirs[tid][META].m.expires <= now)
      && TransferDir.PendingSet(v, sender, now)
           == (set tid | tid in w.dirs && HasMeta(w, tid) && w.dirs[tid][META].m.sender == sender
                         && w.dirs[tid][META].m.expires > now)
  {
    hide ValidHash, Step, Run;
    var w, v := ws[i], View(cfg, ws[i]);
    ManifestsSoundIff(h, cfg, ws, es);
    forall tid | tid in w.dirs
      ensures if HasMeta(w, tid)
              then w.dirs[tid][META].Meta?
                   && v[tid] == TransferDir.Manifest(Some(w.dirs[tid][META].m.sender),
                                                     TransferDir.At(w.dirs[tid][META].m.expires))
              else v[tid] == TransferDir.NoMeta
    {
      assert HasMeta(w, tid) ==> Finished(h, cfg, w, tid);
    }
  }

  /** An upload of `b` named like a manifest is read as one, by counts and sweeps alike;
      if it reads as due or corrupt, a sweep removes it before its row expires. */
  lemma PlacedMetaIsRead(h: Hash, cfg: Config, tid: Tid, b: Bytes) returns (ws: seq<World>, es: seq<Event>)
    requires ValidHash(h) && 0 < |b| <= CHUNK
    ensures Run(h, cfg, ws, es) && |es| == 5 && ws[3].uploads == map[tid := Some(1)]
    ensures es[..3] == [UploadOpen(tid), UploadWrite(tid, b), UploadPlace(tid, META, Some(1))]
    ensures ws[3].clock == 0 && ws[3].jobs == map[]
    ensures View(cfg, ws[3]) == map[tid := cfg.parse(b)]
    ensures forall s :: TransferDir.BreaksCount(cfg.parse(b), s) ==> TransferDir.CountRaises(View(cfg, ws[3]), s)
    ensures TransferDir.BreaksSweep(cfg.parse(b)) ==> TransferDir.SweepRaises(View(cfg, ws[3]))
    ensures TransferDir.Swept(cfg.parse(b), 0) ==>
      es[4] == Remove(0) && tid !in ws[5].dirs && ws[5].clock < 1
  {
    var w0 := World(map[], map[], map[], 0, map[], map[]);
    var w1 := w0.(dirs := map[tid := map[UPLOAD_TMP := Data([])]], uploads := map[tid := None]);
    var w2 := w1.(dirs := map[tid := map[UPLOAD_TMP := Data(b)]]);
    var w3 := w2.(dirs := map[tid := map[META := Data(b)]], uploads := map[tid := Some(1)]);
    PlacedMetaSteps(h, cfg, tid, b, w0, w1, w2, w3);
    if TransferDir.Swept(cfg.parse(b), 0) {
      var w4 := w3.(reapers := map[0 := Reaper(0, tid, true)]);
      var w5 := w3.(dirs := map[]);
      ws := [w0, w1, w2, w3, w4, w5];
      es := [UploadOpen(tid), UploadWrite(tid, b), UploadPlace(tid, META, Some(1)), SweepPick(0, 0, tid), Remove(0)];
      PlacedMetaSwept(h, cfg, tid, b, w3, w4, w5);
    } else {
      ws := [w0, w1, w2, w3, w3, w3];
      es := [UploadOpen(tid), UploadWrite(tid, b), UploadPlace(tid, META, Some(1)), Tick(0), Tick(0)];
      assert Step(h, cfg, w3, w3, Tick(0));
    }
    assert cfg.parse(b) == View(cfg, w3)[tid];
    assert es[..3] == [UploadOpen(tid), UploadWrite(tid, b), UploadPlace(tid, META, Some(1))];
    hide Step, ValidHash;
    forall i | 0 <= i < |es| ensures Step(h, cfg, ws[i], ws[i + 1], es[i]) {
      assert i == 0 || i == 1 || i == 2 || i == 3 || i == 4;
    }
  }

  lemma PlacedMetaSteps(h: Hash, cfg: Config, tid: Tid, b: Bytes, w0: World, w1: World, w2: World, w3: World)
    requires ValidHash(h) && 0 < |b| <= CHUNK && w0 == World(map[], map[], map[], 0, map[], map[])
    requires w1 == w0.(dirs := map[tid := map[UPLOAD_TMP := Data([])]], uploads := map[tid := None])
    requires w2 == w1.(dirs := map[tid := map[UPLOAD_TMP := Data(b)]])
    requires w3 == w2.(dirs := map[tid := map[META := Data(b)]], uploads := map[tid := Some(1)])
    ensures Init(w0) && Step(h, cfg, w0, w1, UploadOpen(tid)) && Step(h, cfg, w1, w2, UploadWrite(tid, b))
    ensures Step(h, cfg, w2, w3, UploadPlace(tid, META, Some(1))) && View(cfg, w3) == map[tid := cfg.parse(b)]
  {
    hide ValidHash;
    PlacedMetaWrites(h, cfg, tid, b, w1, w2);
    PlacedMetaRenames(h, cfg, tid, b, w2, w3);
    hide Rename;
  }

  lemma PlacedMetaWrites(h: Hash, cfg: Config, tid: Tid, b: Bytes, w: World, w': World)
    requires ValidHash(h) && 0 < |b| <= CHUNK && w.uploads == map[tid := None]
    requires w.dirs == map[tid := map[UPLOAD_TMP := Data([])]]
    requires w' == w.(dirs := map[tid := map[UPLOAD_TMP := Data(b)]])
    ensures Step(h, cfg, w, w', UploadWrite(tid, b))
  {
    hide ValidHash, Rename;
    assert [] + b == b;
    assert w.dirs[tid][UPLOAD_TMP := Data(b)] == map[UPLOAD_TMP := Data(b)];
    assert w.dirs[tid := map[UPLOAD_TMP := Data(b)]] == w'.dirs;
  }

  lemma RenamedMeta(b: Bytes)
    ensures Rename(map[UPLOAD_TMP := Data(b)], UPLOAD_TMP, META) == map[META := Data(b)]
  {}

  lemma PlacedMetaRenames(h: Hash, cfg: Config, tid: Tid, b: Bytes, w: World, w': World)
    requires ValidHash(h) && w.uploads == map[tid := None]
    requires w.dirs == map[tid := map[UPLOAD_TMP := Data(b)]]
    requires w' == w.(dirs := map[tid := map[META := Data(b)]], uploads := map[tid := Some(1)])
    ensures Step(h, cfg, w, w', UploadPlace(tid, META, Some(1)))
  {
    hide ValidHash;
    RenamedMeta(b);
    hide Rename;
    assert w.dirs[tid := map[META := Data(b)]] == w'.dirs && w.uploads[tid := Some(1)] == w'.uploads;
  }

  lemma PlacedMetaSwept(h: Hash, cfg: Config, tid: Tid, b: Bytes, w3: World, w4: World, w5: World)
    requires ValidHash(h) && TransferDir.Swept(cfg.parse(b), 0)
    requires w3.dirs == map[tid := map[META := Data(b)]] && w3.clock == 0 && w3.reapers == map[]
    requires w4 == w3.(reapers := map[0 := Reaper(0, tid, true)]) && w5 == w3.(dirs := map[])
    ensures Step(h, cfg, w3, w4, SweepPick(0, 0, tid)) && Step(h, cfg, w4, w5, Remove(0))
  {
    hide ValidHash;
  }

  /** A sweep removes only transfers that are finished and expired, and uploads that were
      named like a manifest. */
  lemma SweepRemovesExpired(h: Hash, cfg: Config, ws: seq<World>, es: seq<Event>, i: nat, tid: Tid)
    requires ValidHash(h) && Run(h, cfg, ws, es) && i < |es|
    requires es[i].Remove? && es[i].q in ws[i].reapers && ws[i].reapers[es[i].q].sweep
    requires tid in ws[i].dirs && tid !in ws[i + 1].dirs
    ensures (exists j :: 0 <= j < i && PlacesMeta(es[j], tid))
      || (Finished(h, cfg, ws[i], tid) && ws[i].dirs[tid][META].m.expires <= ws[i].clock)
    ensures forall p :: p in ws[i].jobs ==> ws[i].jobs[p].tid != tid
  {
    hide ValidHash, Expected;
    var w := ws[i];
    AlwaysInv(h, cfg, ws, es, i);
    assert Step(h, cfg, w, ws[i + 1], es[i]);
    assert Doomed(cfg, w, w.reapers[es[i].q]);
    assert HasMeta(w, tid);
    forall p | p in w.jobs ensures w.jobs[p].tid != tid {
      JobHidden(h, cfg, w, p);
    }
    if tid in w.copied {
      StagedIsFinished(h, cfg, w, tid);
    } else {
      var j := MetaWasUploaded(h, cfg, ws, es, i, tid);
    }
    hide Step, Run, Inv;
  }

  /** When a sweep removes a directory, no sender's pending set at the sweep's own time
      changes, whoever put the manifest there. */
  lemma SweepKeepsPending(h: Hash, cfg: Config, ws: seq<World>, es: seq<Event>, i: nat, sender: string)
    requires ValidHash(h) && Run(h, cfg, ws, es) && i < |es|
    requires es[i].Remove? && es[i].q in ws[i].reapers && ws[i].reapers[es[i].q].sweep
    ensures var now := ws[i].reapers[es[i].q].now;
      TransferDir.PendingSet(View(cfg, ws[i + 1]), sender, now) == TransferDir.PendingSet(View(cfg, ws[i]), sender, now)
  {
    hide ValidHash, SoundAt, JobOk, EntryOf;
    var w, r := ws[i], ws[i].reapers[es[i].q];
    AlwaysInv(h, cfg, ws, es, i);
    assert Step(h, cfg, w, ws[i + 1], es[i]);
    assert Doomed(cfg, w, r);
    hide Step, Run, Inv;
    var v := View(cfg, w);
    var gone := if r.tid in w.dirs then {r.tid} else {};
    assert View(cfg, ws[i + 1]) == v - gone;
    TransferDir.SweepConserves(v, gone, r.now, sender);
  }

  /** A finished transfer's directory never changes; it can only disappear, for good. */
  lemma FinishedIsFrozen(h: Hash, cfg: Config, w: World, w': World, e: Event, tid: Tid)
    requires ValidHash(h) && Inv(h, cfg, w) && Step(h, cfg, w, w', e) && tid in w.copied
    ensures tid in w'.copied && (tid !in w.dirs ==> tid !in w'.dirs)
    ensures HasMeta(w, tid) && tid in w'.dirs ==> w'.dirs[tid] == w.dirs[tid] && w'.copied[tid] == w.copied[tid]
  {
    hide ValidHash, Step, Inv, OwnUpload, OwnStep;
    if JobEvent(e) {
      JobStepIsOwn(h, cfg, w, w', e);
      JobFreezes(h, cfg, w, w', e.p, tid);
    } else if UploadEvent(e) {
      UploadIsOwn(h, cfg, w, w', e);
      StagedElsewhere(h, cfg, w, w', e.tid, tid);
    } else {
      RestIsFrozen(h, cfg, w, w', e, tid);
    }
  }

  lemma JobFreezes(h: Hash, cfg: Config, w: World, w': World, p: Pid, tid: Tid)
    requires ValidHash(h) && Inv(h, cfg, w) && OwnStep(w, w', p) && tid in w.copied
    ensures tid in w'.copied && (tid !in w.dirs ==> tid !in w'.dirs)
    ensures HasMeta(w, tid) && tid in w'.dirs ==> w'.dirs[tid] == w.dirs[tid] && w'.copied[tid] == w.copied[tid]
  {
    JobHidden(h, cfg, w, p);
    hide ValidHash, Inv;
  }

  lemma StagedElsewhere(h: Hash, cfg: Config, w: World, w': World, upload: Tid, tid: Tid)
    requires ValidHash(h) && Inv(h, cfg, w) && OwnUpload(w, w', upload) && tid in w.copied
    ensures SameAt(w, w', tid)
  {
    if upload in w.uploads {
      OneOwner(h, cfg, w, upload);
    }
  }

  lemma RestIsFrozen(h: Hash, cfg: Config, w: World, w': World, e: Event, tid: Tid)
    requires ValidHash(h) && Inv(h, cfg, w) && Step(h, cfg, w, w', e) && tid in w.copied
    requires !JobEvent(e) && !UploadEvent(e)
    ensures tid in w'.copied && (tid !in w.dirs ==> tid !in w'.dirs)
    ensures HasMeta(w, tid) && tid in w'.dirs ==> w'.dirs[tid] == w.dirs[tid] && w'.copied[tid] == w.copied[tid]
  {
    hide ValidHash, SoundAt, Doomed, Rename;
    if e.Publish? {
      JobHidden(h, cfg, w, e.p);
      assert JobOk(h, cfg, w, w.jobs[e.p]);
    }
    hide JobOk;
  }

  lemma {:induction false} StaysFrozen(h: Hash, cfg: Config, ws: seq<World>, es: seq<Event>, i: nat, k: nat, tid: Tid)
    requires ValidHash(h) && Run(h, cfg, ws, es) && i <= k < |ws| && HasMeta(ws[i], tid) && tid in ws[i].copied
    ensures tid in ws[k].copied
    ensures tid in ws[k].dirs ==> ws[k].dirs[tid] == ws[i].dirs[tid] && ws[k].copied[tid] == ws[i].copied[tid]
    decreases k
  {
    hide ValidHash, Step, Finished, JobOk, Doomed;
    AlwaysInv(h, cfg, ws, es, i);
    if i < k {
      StaysFrozen(h, cfg, ws, es, i, k - 1, tid);
      AlwaysInv(h, cfg, ws, es, k - 1);
      FinishedIsFrozen(h, cfg, ws[k - 1], ws[k], es[k - 1], tid);
    }
  }

  // ---- abandoned stagings ----

  /** A staging that died before its manifest appeared. */
  ghost predicate Abandoned(w: World, tid: Tid) {
    tid in w.copied && tid in w.dirs && META !in w.dirs[tid] && forall p :: p in w.jobs ==> w.jobs[p].tid != tid
  }

  lemma AbandonedStep(h: Hash, cfg: Config, w: World, w': World, e: Event, tid: Tid)
    requires ValidHash(h) && Inv(h, cfg, w) && Step(h, cfg, w, w', e) && Abandoned(w, tid)
    ensures Abandoned(w', tid) && w'.dirs[tid] == w.dirs[tid]
  {
    if JobEvent(e) {
      JobStepIsOwn(h, cfg, w, w', e);
      JobLeavesAbandoned(w, w', e.p, tid);
    } else if UploadEvent(e) {
      UploadIsOwn(h, cfg, w, w', e);
      OneOwnerOnly(h, cfg, w, tid);
      UploadLeavesAbandoned(w, w', e.tid, tid);
    } else {
      RestLeavesAbandoned(h, cfg, w, w', e, tid);
    }
    hide ValidHash, Step, Inv, Abandoned;
  }

  lemma JobLeavesAbandoned(w: World, w': World, p: Pid, tid: Tid)
    requires OwnStep(w, w', p) && Abandoned(w, tid)
    ensures Abandoned(w', tid) && w'.dirs[tid] == w.dirs[tid]
  {
    forall q | q in w'.jobs ensures w'.jobs[q].tid != tid {
      assert w.jobs[q].tid != tid;
    }
  }

  lemma UploadLeavesAbandoned(w: World, w': World, upload: Tid, tid: Tid)
    requires OwnUpload(w, w', upload) && Abandoned(w, tid) && tid !in w.uploads
    ensures Abandoned(w', tid) && w'.dirs[tid] == w.dirs[tid]
  {
    assert SameAt(w, w', tid);
  }

  lemma OneOwnerOnly(h: Hash, cfg: Config, w: World, tid: Tid)
    requires ValidHash(h) && Inv(h, cfg, w) && Abandoned(w, tid)
    ensures tid !in w.uploads
  {
    assert SoundAt(h, cfg, w, tid);
  }

  lemma RestLeavesAbandoned(h: Hash, cfg: Config, w: World, w': World, e: Event, tid: Tid)
    requires ValidHash(h) && Inv(h, cfg, w) && Step(h, cfg, w, w', e) && Abandoned(w, tid)
    requires !JobEvent(e) && !UploadEvent(e)
    ensures Abandoned(w', tid) && w'.dirs[tid] == w.dirs[tid]
  {
    hide ValidHash, Finished, Rename, JobOk;
    if e.Remove? {
      assert Doomed(cfg, w, w.reapers[e.q]);
    }
  }

  /** What an abandoned staging left is never swept, deleted or touched again. */
  lemma {:induction false} AbandonedStays(h: Hash, cfg: Config, ws: seq<World>, es: seq<Event>, i: nat, k: nat,
                                          tid: Tid)
    requires ValidHash(h) && Run(h, cfg, ws, es) && i <= k < |ws| && Abandoned(ws[i], tid)
    ensures Abandoned(ws[k], tid) && ws[k].dirs[tid] == ws[i].dirs[tid]
    decreases k
  {
    hide ValidHash, Step, Inv, Abandoned;
    if i < k {
      AbandonedStays(h, cfg, ws, es, i, k - 1, tid);
      AlwaysInv(h, cfg, ws, es, k - 1);
      AbandonedStep(h, cfg, ws[k - 1], ws[k], es[k - 1], tid);
    } else {
      AbandonedHas(ws[i], tid);
    }
  }

  lemma AbandonedHas(w: World, tid: Tid)
    requires Abandoned(w, tid)
    ensures tid in w.dirs
  {}

  lemma PublishShows(h: Hash, cfg: Config, w: World, w': World, p: Pid, tid: Tid)
    requires ValidHash(h) && Inv(h, cfg, w) && Step(h, cfg, w, w', Publish(p))
    requires HasMeta(w', tid) && !HasMeta(w, tid)
    ensures p in w.jobs && w.jobs[p].tid == tid
    ensures w'.dirs[tid][META].Meta? && w'.dirs[tid][META].m.sender == w.jobs[p].sender
  {
    hide ValidHash;
    assert JobOk(h, cfg, w, w.jobs[p]);
    hide Inv;
  }

  lemma OnlyPublishShows(h: Hash, cfg: Config, w: World, w': World, e: Event, tid: Tid)
    requires ValidHash(h) && Inv(h, cfg, w) && Step(h, cfg, w, w', e) && !e.Publish?
    requires HasMeta(w', tid) && tid in w'.copied
    ensures HasMeta(w, tid)
  {
    hide ValidHash, Inv, Step, OwnStep, OwnUpload, HasMeta;
    StepKeepsInv(h, cfg, w, w', e);
    if JobEvent(e) {
      JobStepIsOwn(h, cfg, w, w', e);
      JobShowsNone(h, cfg, w, w', e.p, tid);
    } else if UploadEvent(e) {
      UploadIsOwn(h, cfg, w, w', e);
      UploadShowsNone(h, cfg, w, w', e.tid, tid);
    } else {
      RestShowsNone(h, cfg, w, w', e, tid);
    }
  }

  lemma JobShowsNone(h: Hash, cfg: Config, w: World, w': World, p: Pid, tid: Tid)
    requires ValidHash(h) && Inv(h, cfg, w') && OwnStep(w, w', p) && HasMeta(w', tid)
    ensures HasMeta(w, tid)
  {
    JobHidden(h, cfg, w', p);
    hide ValidHash, Inv;
  }

  lemma UploadShowsNone(h: Hash, cfg: Config, w: World, w': World, upload: Tid, tid: Tid)
    requires ValidHash(h) && Inv(h, cfg, w') && OwnUpload(w, w', upload) && HasMeta(w', tid) && tid in w'.copied
    ensures HasMeta(w, tid)
  {
    OneOwner(h, cfg, w', upload);
    assert SameAt(w, w', tid);
    hide ValidHash, Inv;
  }

  lemma RestShowsNone(h: Hash, cfg: Config, w: World, w': World, e: Event, tid: Tid)
    requires ValidHash(h) && Step(h, cfg, w, w', e) && !e.Publish? && !JobEvent(e) && !UploadEvent(e)
    requires HasMeta(w', tid)
    ensures HasMeta(w, tid)
  {
    hide ValidHash;
  }

  // ---- from request to manifest ----

  /** What a job was asked to do stays with it. */
  lemma JobsAfter(h: Hash, cfg: Config, w: World, w': World, e: Event)
    requires ValidHash(h) && Step(h, cfg, w, w', e)
    ensures forall p :: p in w'.jobs && !(e.Begin? && p == e.p) ==> p in w.jobs && SameOrder(w'.jobs[p], w.jobs[p])
    ensures e.Begin? ==> e.p !in w.jobs && e.p in w'.jobs && w'.jobs[e.p] == e.job
    ensures e.Publish? ==> e.p in w.jobs && e.p !in w'.jobs
  {
    hide ValidHash, Rename, EntryOf, ManifestOf;
  }

  /** The manifest says what the job was asked to do. */
  ghost predicate Sent(w: World, j: Job) {
    HasMeta(w, j.tid) && j.tid in w.copied && w.dirs[j.tid][META].Meta?
    && var m := w.dirs[j.tid][META].m;
       m.tid == j.tid && m.sender == j.sender && m.recipient == j.recipient && m.filename == j.filename
       && m.created == j.created && m.expires == j.expires
  }

  /** Whoever works under the id works on this order, and a manifest there states it. */
  ghost predicate Tracks(w: World, j: Job) {
    && j.tid in w.copied
    && (forall p :: p in w.jobs && w.jobs[p].tid == j.tid ==> SameOrder(w.jobs[p], j))
    && (HasMeta(w, j.tid) ==> Sent(w, j))
  }

  lemma PublishSends(h: Hash, cfg: Config, w: World, w': World, p: Pid)
    requires ValidHash(h) && p in w.jobs && JobOk(h, cfg, w, w.jobs[p]) && Step(h, cfg, w, w', Publish(p))
    ensures Sent(w', w.jobs[p])
  {
    hide ValidHash;
  }

  lemma StepTracks(h: Hash, cfg: Config, w: World, w': World, e: Event, j: Job)
    requires ValidHash(h) && Inv(h, cfg, w) && Step(h, cfg, w, w', e) && Tracks(w, j)
    ensures Tracks(w', j)
  {
    hide ValidHash, Step, Inv, JobOk;
    JobsAfter(h, cfg, w, w', e);
    FinishedIsFrozen(h, cfg, w, w', e, j.tid);
    BeginIsFresh(h, cfg, w, w', e, j.tid);
    if HasMeta(w', j.tid) && !HasMeta(w, j.tid) {
      if e.Publish? {
        RunningIsOk(h, cfg, w, e.p);
        PublishShows(h, cfg, w, w', e.p, j.tid);
        PublishSends(h, cfg, w, w', e.p);
      } else {
        OnlyPublishShows(h, cfg, w, w', e, j.tid);
      }
    }
  }

  lemma RunningIsOk(h: Hash, cfg: Config, w: World, p: Pid)
    requires ValidHash(h) && Inv(h, cfg, w) && p in w.jobs
    ensures JobOk(h, cfg, w, w.jobs[p])
  {}

  lemma BeginIsFresh(h: Hash, cfg: Config, w: World, w': World, e: Event, tid: Tid)
    requires ValidHash(h) && Step(h, cfg, w, w', e) && tid in w.copied
    ensures e.Begin? ==> e.job.tid != tid
  {
    hide ValidHash;
  }

  lemma BeginTracks(h: Hash, cfg: Config, w: World, w': World, p: Pid, j: Job, expiresIn: Option<int>)
    requires ValidHash(h) && Inv(h, cfg, w) && Step(h, cfg, w, w', Begin(p, j, expiresIn))
    ensures Tracks(w', j) && j.tid !in w.copied && j.tid !in w.uploads && j.tid in w'.dirs
    ensures j.expires == j.created + Min(if expiresIn.Some? then expiresIn.value else cfg.defaultTtl, cfg.maxTtl)
  {
    NothingFresh(h, cfg, w, j.tid);
    hide ValidHash, Inv;
  }

  lemma {:induction false} TracksOn(h: Hash, cfg: Config, ws: seq<World>, es: seq<Event>, i: nat, k: nat, p: Pid,
                                    j: Job, expiresIn: Option<int>)
    requires ValidHash(h) && Run(h, cfg, ws, es) && i < k < |ws| && es[i] == Begin(p, j, expiresIn)
    ensures Tracks(ws[k], j)
    decreases k
  {
    hide ValidHash, Step, Tracks, Inv;
    AlwaysInv(h, cfg, ws, es, k - 1);
    if i < k - 1 {
      TracksOn(h, cfg, ws, es, i, k - 1, p, j, expiresIn);
      StepTracks(h, cfg, ws[k - 1], ws[k], es[k - 1], j);
    } else {
      BeginTracks(h, cfg, ws[i], ws[k], p, j, expiresIn);
    }
  }

  /** When the transfer is to expire: the requested TTL after its creation, or the default
      one, but no later than the maximum allows. */
  function Deadline(j: Job, expiresIn: Option<int>, cfg: Config): int {
    var ttl := if expiresIn == None then cfg.defaultTtl else expiresIn.value;
    j.created + if ttl <= cfg.maxTtl then ttl else cfg.maxTtl
  }

  /** Over every run, the manifest of a staging states sender, recipient, file name and
      creation as it was begun, and its expiry as requested. */
  lemma ManifestStatesOrder(h: Hash, cfg: Config, ws: seq<World>, es: seq<Event>, i: nat, k: nat, p: Pid, j: Job,
                            expiresIn: Option<int>)
    requires ValidHash(h) && Run(h, cfg, ws, es) && i < k < |ws| && es[i] == Begin(p, j, expiresIn)
    requires HasMeta(ws[k], j.tid)
    ensures ws[k].dirs[j.tid][META].Meta?
    ensures var m := ws[k].dirs[j.tid][META].m;
      && m.tid == j.tid && m.sender == j.sender && m.recipient == j.recipient && m.filename == j.filename
      && m.created == j.created && m.expires == Deadline(j, expiresIn, cfg)
  {
    TracksOn(h, cfg, ws, es, i, k, p, j, expiresIn);
    AlwaysInv(h, cfg, ws, es, i);
    BeginTracks(h, cfg, ws[i], ws[i + 1], p, j, expiresIn);
    hide ValidHash, Step, Inv;
  }

  /** Every reaper was sent by a sweep or a deletion that saw a manifest there. */
  predicate Picks(e: Event, q: Pid, tid: Tid) {
    (e.SweepPick? || e.DeletePick?) && e.q == q && e.tid == tid
  }

  lemma ReaperStep(h: Hash, cfg: Config, w: World, w': World, e: Event, q: Pid)
    requires ValidHash(h) && Step(h, cfg, w, w', e) && q in w'.reapers
    ensures (q in w.reapers && w'.reapers[q] == w.reapers[q])
      || (Picks(e, q, w'.reapers[q].tid) && HasMeta(w, w'.reapers[q].tid))
  {
    hide ValidHash, Rename, ManifestOf;
  }

  lemma {:induction false} ReaperWasSent(h: Hash, cfg: Config, ws: seq<World>, es: seq<Event>, k: nat, q: Pid)
    returns (n: nat)
    requires ValidHash(h) && Run(h, cfg, ws, es) && k < |ws| && q in ws[k].reapers
    ensures n < k && Picks(es[n], q, ws[k].reapers[q].tid) && HasMeta(ws[n], ws[k].reapers[q].tid)
    decreases k
  {
    hide ValidHash, Step, HasMeta, Picks;
    if k == 0 {
      assert false;
    }
    ReaperStep(h, cfg, ws[k - 1], ws[k], es[k - 1], q);
    if q in ws[k - 1].reapers && ws[k].reapers[q] == ws[k - 1].reapers[q] {
      n := ReaperWasSent(h, cfg, ws, es, k - 1, q);
    } else {
      n := k - 1;
    }
  }

  /** A staged directory goes only when a reaper takes it. */
  lemma OnlyReapersTake(h: Hash, cfg: Config, w: World, w': World, e: Event, tid: Tid)
    requires ValidHash(h) && Inv(h, cfg, w) && Step(h, cfg, w, w', e)
    requires tid in w.copied && tid in w.dirs && tid !in w'.dirs
    ensures e.Remove? && e.q in w.reapers && w.reapers[e.q].tid == tid
  {
    if UploadEvent(e) {
      UploadIsOwn(h, cfg, w, w', e);
      StagedElsewhere(h, cfg, w, w', e.tid, tid);
    }
    hide ValidHash, Inv, Rename, EntryOf, OwnUpload;
  }

  lemma {:induction false} Taken(h: Hash, cfg: Config, ws: seq<World>, es: seq<Event>, i: nat, k: nat, tid: Tid)
    returns (n: nat)
    requires ValidHash(h) && Run(h, cfg, ws, es) && i < k < |ws|
    requires tid in ws[i].copied && tid in ws[i].dirs && tid !in ws[k].dirs
    ensures i <= n < k && es[n].Remove? && es[n].q in ws[n].reapers && ws[n].reapers[es[n].q].tid == tid
    decreases k
  {
    hide ValidHash, Step, Inv;
    AlwaysInv(h, cfg, ws, es, k - 1);
    CopiedGrows(h, cfg, ws, es, i, k - 1, tid);
    if tid in ws[k - 1].dirs {
      OnlyReapersTake(h, cfg, ws[k - 1], ws[k], es[k - 1], tid);
      n := k - 1;
    } else {
      n := Taken(h, cfg, ws, es, i, k - 1, tid);
    }
  }

  lemma {:induction false} CopiedGrows(h: Hash, cfg: Config, ws: seq<World>, es: seq<Event>, i: nat, k: nat, tid: Tid)
    requires ValidHash(h) && Run(h, cfg, ws, es) && i <= k < |ws|
    ensures tid in ws[i].copied ==> tid in ws[k].copied
    ensures tid in ws[i].uploads ==> tid in ws[k].uploads
    decreases k
  {
    hide ValidHash, Step;
    if i < k {
      CopiedGrows(h, cfg, ws, es, i, k - 1, tid);
      OwnersStay(h, cfg, ws[k - 1], ws[k], es[k - 1], tid);
    }
  }

  lemma OwnersStay(h: Hash, cfg: Config, w: World, w': World, e: Event, tid: Tid)
    requires ValidHash(h) && Step(h, cfg, w, w', e)
    ensures tid in w.copied ==> tid in w'.copied
    ensures tid in w.uploads ==> tid in w'.uploads
  {
    hide ValidHash, Rename, ManifestOf;
  }

  /** Over every run, a staging's directory goes only by a sweep at or after its expiry, or
      by a deletion that its sender or its recipient asked for. */
  lemma GoneOnlyIf(h: Hash, cfg: Config, ws: seq<World>, es: seq<Event>, i: nat, k: nat, p: Pid, j: Job,
                   expiresIn: Option<int>)
    returns (n: nat)
    requires ValidHash(h) && Run(h, cfg, ws, es) && i < k < |ws| && es[i] == Begin(p, j, expiresIn)
    requires j.tid !in ws[k].dirs
    ensures i < n < k
    ensures (es[n].SweepPick? && es[n].tid == j.tid && es[n].now >= Deadline(j, expiresIn, cfg))
      || (es[n].DeletePick? && es[n].tid == j.tid && (es[n].caller == j.sender || es[n].caller == j.recipient))
  {
    AlwaysInv(h, cfg, ws, es, i);
    BeginTracks(h, cfg, ws[i], ws[i + 1], p, j, expiresIn);
    var m := Taken(h, cfg, ws, es, i + 1, k, j.tid);
    n := ReaperWasSent(h, cfg, ws, es, m, es[m].q);
    if n <= i {
      AlwaysInv(h, cfg, ws, es, n);
      assert SoundAt(h, cfg, ws[n], j.tid);
      CopiedGrows(h, cfg, ws, es, n, i, j.tid);
      assert false;
    }
    ManifestStatesOrder(h, cfg, ws, es, i, n, p, j, expiresIn);
    PickGuard(h, cfg, ws[n], ws[n + 1], es[n]);
    hide ValidHash, Step, Inv, Tracks;
  }

  lemma PickGuard(h: Hash, cfg: Config, w: World, w': World, e: Event)
    requires ValidHash(h) && Step(h, cfg, w, w', e) && (e.SweepPick? || e.DeletePick?)
    requires HasMeta(w, e.tid) && w.dirs[e.tid][META].Meta?
    ensures var m := w.dirs[e.tid][META].m;
      if e.SweepPick? then m.expires <= e.now else e.caller == m.sender || e.caller == m.recipient
  {
    hide ValidHash;
  }

  // ---- what can still happen ----

  ghost predicate Path(h: Hash, cfg: Config, ws: seq<World>, es: seq<Event>)
    requires ValidHash(h)
  {
    |ws| == |es| + 1 && forall i :: 0 <= i < |es| ==> Step(h, cfg, ws[i], ws[i + 1], es[i])
  }

  ghost predicate Leads(h: Hash, cfg: Config, w: World, w': World)
    requires ValidHash(h)
  {
    exists ws, es :: Path(h, cfg, ws, es) && ws[0] == w && ws[|es|] == w'
  }

  lemma LeadsSelf(h: Hash, cfg: Config, w: World)
    requires ValidHash(h)
    ensures Leads(h, cfg, w, w)
  {
    var ws: seq<World>, es: seq<Event> := [w], [];
    assert Path(h, cfg, ws, es) && ws[0] == w && ws[|es|] == w;
  }

  lemma LeadsOn(h: Hash, cfg: Config, w: World, v: World, v': World, e: Event)
    requires ValidHash(h) && Leads(h, cfg, w, v) && Step(h, cfg, v, v', e)
    ensures Leads(h, cfg, w, v')
  {
    hide ValidHash, Step;
    var ws, es :| Path(h, cfg, ws, es) && ws[0] == w && ws[|es|] == v;
    var ws', es' := ws + [v'], es + [e];
    forall i | 0 <= i < |es'| ensures Step(h, cfg, ws'[i], ws'[i + 1], es'[i]) {
      assert i < |es| ==> Step(h, cfg, ws[i], ws[i + 1], es[i]);
    }
    assert Path(h, cfg, ws', es') && ws'[0] == w && ws'[|es'|] == v';
  }

  function Rank(s: Stage): nat {
    match s
    case Made => 0
    case Copying => 1
    case Staged => 2
    case Placed => 3
    case Tearing => 4
    case Written => 5
  }

  /** The next step of a running job, from which it has no way to fail. */
  lemma Advance(h: Hash, cfg: Config, w: World, p: Pid) returns (w': World, e: Event)
    requires ValidHash(h) && p in w.jobs && JobOk(h, cfg, w, w.jobs[p]) && w.jobs[p].stage != Written
    ensures Step(h, cfg, w, w', e) && p in w'.jobs && Rank(w'.jobs[p].stage) == Rank(w.jobs[p].stage) + 1
    ensures w'.jobs[p] == w.jobs[p].(stage := w'.jobs[p].stage)
  {
    hide Rename;
    var j := w.jobs[p];
    var d := w.dirs[j.tid];
    assert |Sha(h, j)| >= 16;
    hide ValidHash;
    match j.stage
    case Made =>
      e, w' := Open(p), Move(w, p, Copying, d[CopyName(j.filename) := Data([])]);
    case Copying =>
      e, w' := EndCopy(p), Move(w, p, Staged, Rename(d, CopyName(j.filename), StagingName(j.filename)));
    case Staged =>
      e, w' := Place(p), Move(w, p, Placed, Rename(d, StagingName(j.filename), FinalName(Sha(h, j), j.filename)));
    case Placed =>
      e, w' := TearMeta(p), Move(w, p, Tearing, d[META_TMP := Torn]);
    case Tearing =>
      e, w' := WriteMeta(p), Move(w, p, Written, d[META_TMP := Meta(ManifestOf(h, j))]);
  }

  lemma LastStep(h: Hash, cfg: Config, w: World, p: Pid) returns (w': World)
    requires ValidHash(h) && p in w.jobs && JobOk(h, cfg, w, w.jobs[p]) && w.jobs[p].stage == Written
    ensures Step(h, cfg, w, w', Publish(p)) && Sent(w', w.jobs[p])
  {
    hide ValidHash;
    var j := w.jobs[p];
    w' := w.(dirs := w.dirs[j.tid := Rename(w.dirs[j.tid], META_TMP, META)], jobs := w.jobs - {p});
  }

  /** A running job can finish. */
  lemma {:induction false} CanFinish(h: Hash, cfg: Config, w: World, v: World, p: Pid) returns (v': World)
    requires ValidHash(h) && Leads(h, cfg, w, v) && Inv(h, cfg, v) && p in v.jobs
    ensures Leads(h, cfg, w, v') && Inv(h, cfg, v') && Sent(v', v.jobs[p])
    decreases 5 - Rank(v.jobs[p].stage)
  {
    assert JobOk(h, cfg, v, v.jobs[p]);
    hide ValidHash, Leads, Inv, Step, JobOk, Sent;
    if v.jobs[p].stage == Written {
      v' := LastStep(h, cfg, v, p);
      LeadsOn(h, cfg, w, v, v', Publish(p));
      StepKeepsInv(h, cfg, v, v', Publish(p));
    } else {
      var u, e := Advance(h, cfg, v, p);
      LeadsOn(h, cfg, w, v, u, e);
      StepKeepsInv(h, cfg, v, u, e);
      v' := CanFinish(h, cfg, w, u, p);
      SameSent(v', u.jobs[p], v.jobs[p]);
    }
  }

  lemma SameSent(w: World, j: Job, k: Job)
    requires Sent(w, j) && j.(stage := Made) == k.(stage := Made)
    ensures Sent(w, k)
  {}

  ghost predicate CanHappen(h: Hash, cfg: Config, w: World, e: Event)
    requires ValidHash(h)
  {
    exists w' :: Step(h, cfg, w, w', e)
  }

  /** Crashes, clocks and pending removals go on at any time. */
  lemma QuietEvents(h: Hash, cfg: Config, w: World, q: Pid, now: int)
    requires ValidHash(h)
    ensures CanHappen(h, cfg, w, Crash(q)) && (w.clock <= now ==> CanHappen(h, cfg, w, Tick(now)))
    ensures q in w.reapers ==> CanHappen(h, cfg, w, Remove(q))
  {
    hide ValidHash, EntryOf, Rename;
    assert Step(h, cfg, w, w.(jobs := w.jobs - {q}), Crash(q));
    if w.clock <= now {
      assert Step(h, cfg, w, w.(clock := now), Tick(now));
    }
    if q in w.reapers {
      assert Step(h, cfg, w, w.(dirs := w.dirs - {w.reapers[q].tid}, reapers := w.reapers - {q}), Remove(q));
    }
  }

  /** A sweep may pick what a pass at an earlier time finds due or corrupt. */
  lemma SweepHappens(h: Hash, cfg: Config, w: World, q: Pid, now: int, tid: Tid)
    requires ValidHash(h) && q !in w.reapers && now <= w.clock
    requires HasMeta(w, tid) && TransferDir.Swept(EntryOf(cfg, w.dirs[tid]), now)
    ensures CanHappen(h, cfg, w, SweepPick(q, now, tid))
  {
    hide ValidHash, EntryOf, Rename;
    assert Step(h, cfg, w, w.(reapers := w.reapers[q := Reaper(now, tid, true)]), SweepPick(q, now, tid));
  }

  /** Sender and recipient may delete. */
  lemma DeleteHappens(h: Hash, cfg: Config, w: World, q: Pid, tid: Tid, caller: string)
    requires ValidHash(h) && q !in w.reapers && HasMeta(w, tid) && w.dirs[tid][META].Meta?
    requires caller == w.dirs[tid][META].m.sender || caller == w.dirs[tid][META].m.recipient
    ensures CanHappen(h, cfg, w, DeletePick(q, tid, caller))
  {
    hide ValidHash, EntryOf, Rename;
    assert Step(h, cfg, w, w.(reapers := w.reapers[q := Reaper(w.clock, tid, false)]), DeletePick(q, tid, caller));
  }

  /** A staging may begin under any fresh id with any request, and copies whatever chunks
      its source yields. */
  lemma StagingEvents(h: Hash, cfg: Config, w: World, p: Pid, j: Job, expiresIn: Option<int>, chunk: Bytes)
    requires ValidHash(h) && Inv(h, cfg, w)
    ensures p !in w.jobs && j.tid !in w.copied && j.tid !in w.uploads && w.clock <= j.created
      && j.expires == TransferDir.ExpiryOf(j.created, expiresIn, cfg.defaultTtl, cfg.maxTtl)
      && j.stage == Made && j.state == h.init && j.size == 0
      ==> CanHappen(h, cfg, w, Begin(p, j, expiresIn))
    ensures p in w.jobs && w.jobs[p].stage == Copying && 0 < |chunk| <= 65_536 ==> CanHappen(h, cfg, w, Copy(p, chunk))
  {
    if p !in w.jobs {
      hide ValidHash, Inv, EntryOf, Rename, Expected;
      if j.tid !in w.copied && j.tid !in w.uploads && w.clock <= j.created
         && j.expires == TransferDir.ExpiryOf(j.created, expiresIn, cfg.defaultTtl, cfg.maxTtl)
         && j.stage == Made && j.state == h.init && j.size == 0 {
        assert Step(h, cfg, w, w.(jobs := w.jobs[p := j], dirs := w.dirs[j.tid := map[]],
                                  copied := w.copied[j.tid := []], clock := j.created), Begin(p, j, expiresIn));
      }
    } else if w.jobs[p].stage == Copying && 0 < |chunk| <= 65_536 {
      RunningIsOk(h, cfg, w, p);
      hide ValidHash, Inv, EntryOf, Rename, Expected;
      var k := w.jobs[p];
      var name := CopyName(k.filename);
      var w' := w.(dirs := w.dirs[k.tid := w.dirs[k.tid][name := Data(w.dirs[k.tid][name].bytes + chunk)]],
                   jobs := w.jobs[p := k.(state := h.update(k.state, chunk), size := k.size + |chunk|)],
                   copied := w.copied[k.tid := w.copied[k.tid] + chunk]);
      assert Step(h, cfg, w, w', Copy(p, chunk));
    }
  }

  /** An upload may come under any fresh id, and what has a row may be removed. */
  lemma UploadEnds(h: Hash, cfg: Config, w: World, tid: Tid)
    requires ValidHash(h)
    ensures tid !in w.copied && tid !in w.uploads ==> CanHappen(h, cfg, w, UploadOpen(tid))
    ensures tid in w.uploads && w.uploads[tid].Some? ==> CanHappen(h, cfg, w, UploadRemove(tid))
  {
    hide ValidHash, EntryOf, Rename;
    if tid in w.uploads && w.uploads[tid].Some? {
      assert Step(h, cfg, w, w.(dirs := w.dirs - {tid}), UploadRemove(tid));
    } else if tid !in w.copied && tid !in w.uploads {
      var d: Dir := map[UPLOAD_TMP := Data([])];
      assert Step(h, cfg, w, w.(dirs := w.dirs[tid := d], uploads := w.uploads[tid := None]), UploadOpen(tid));
    }
  }

  /** What is being received may grow, be refused, or be placed under any bare name. */
  lemma UploadGoes(h: Hash, cfg: Config, w: World, tid: Tid, chunk: Bytes, name: string, row: Option<int>)
    requires ValidHash(h) && Receiving(w, tid) && ".tmp" in w.dirs[tid] && w.dirs[tid][".tmp"].Data?
    ensures 0 < |chunk| <= 65_536 ==> CanHappen(h, cfg, w, UploadWrite(tid, chunk))
    ensures CanHappen(h, cfg, w, UploadRefuse(tid))
    ensures name != "" && name != "." && name != ".." && '/' !in name ==>
      CanHappen(h, cfg, w, UploadPlace(tid, name, row))
  {
    hide ValidHash, EntryOf;
    var d := w.dirs[tid];
    if 0 < |chunk| <= CHUNK {
      assert Step(h, cfg, w, w.(dirs := w.dirs[tid := d[UPLOAD_TMP := Data(d[UPLOAD_TMP].bytes + chunk)]]),
                  UploadWrite(tid, chunk));
    }
    assert Step(h, cfg, w, w.(dirs := w.dirs[tid := d - {UPLOAD_TMP}]), UploadRefuse(tid));
    hide Rename;
    if BareName(name) {
      assert Step(h, cfg, w, w.(dirs := w.dirs[tid := Rename(d, UPLOAD_TMP, name)], uploads := w.uploads[tid := row]),
                  UploadPlace(tid, name, row));
    }
  }

  lemma {:induction false} FreshPid(ps: set<Pid>) returns (q: Pid)
    ensures forall p :: p in ps ==> p < q
    decreases ps
  {
    if ps == {} {
      q := 0;
    } else {
      var p :| p in ps;
      var r := FreshPid(ps - {p});
      q := Max(r, p + 1);
      assert forall x :: x in ps ==> x == p || x in ps - {p};
    }
  }

  /** The sender can delete a finished transfer. */
  lemma CanDelete(h: Hash, cfg: Config, w: World, v: World, tid: Tid) returns (v': World)
    requires ValidHash(h) && Leads(h, cfg, w, v) && HasMeta(v, tid) && v.dirs[tid][META].Meta?
    ensures Leads(h, cfg, w, v') && tid !in v'.dirs
  {
    hide ValidHash, Leads;
    var q := FreshPid(v.reapers.Keys);
    var u := v.(reapers := v.reapers[q := Reaper(v.clock, tid, false)]);
    v' := u.(dirs := u.dirs - {tid}, reapers := u.reapers - {q});
    LeadsOn(h, cfg, w, v, u, DeletePick(q, tid, v.dirs[tid][META].m.sender));
    LeadsOn(h, cfg, w, u, v', Remove(q));
  }

  ghost predicate CanVanish(h: Hash, cfg: Config, w: World, tid: Tid)
    requires ValidHash(h)
  {
    exists w' :: Leads(h, cfg, w, w') && tid !in w'.dirs
  }

  /** At any moment of a run, a staged directory can still disappear if and only if it is
      not abandoned. */
  lemma CanVanishIff(h: Hash, cfg: Config, ws: seq<World>, es: seq<Event>, i: nat, tid: Tid)
    requires ValidHash(h) && Run(h, cfg, ws, es) && i < |ws| && tid in ws[i].copied && tid in ws[i].dirs
    ensures CanVanish(h, cfg, ws[i], tid) <==> !Abandoned(ws[i], tid)
  {
    var w := ws[i];
    AlwaysInv(h, cfg, ws, es, i);
    hide ValidHash, Run, Leads, Inv;
    if Abandoned(w, tid) {
      forall w' | Leads(h, cfg, w, w') ensures tid in w'.dirs {
        LeadsAbandoned(h, cfg, w, w', tid);
      }
    } else {
      LeadsSelf(h, cfg, w);
      var v := w;
      if META !in w.dirs[tid] {
        var p :| p in w.jobs && w.jobs[p].tid == tid;
        v := CanFinish(h, cfg, w, w, p);
      } else {
        StagedIsFinished(h, cfg, w, tid);
      }
      var v' := CanDelete(h, cfg, w, v, tid);
    }
  }

  lemma LeadsAbandoned(h: Hash, cfg: Config, w: World, w': World, tid: Tid)
    requires ValidHash(h) && Inv(h, cfg, w) && Abandoned(w, tid) && Leads(h, cfg, w, w')
    ensures tid in w'.dirs
  {
    hide ValidHash, Inv, Abandoned, Step;
    var ws, es :| Path(h, cfg, ws, es) && ws[0] == w && ws[|es|] == w';
    PathAbandoned(h, cfg, ws, es, |es|, tid);
  }

  lemma {:induction false} PathAbandoned(h: Hash, cfg: Config, ws: seq<World>, es: seq<Event>, k: nat, tid: Tid)
    requires ValidHash(h) && Path(h, cfg, ws, es) && k < |ws| && Inv(h, cfg, ws[0]) && Abandoned(ws[0], tid)
    ensures Inv(h, cfg, ws[k]) && Abandoned(ws[k], tid) && tid in ws[k].dirs
  {
    hide ValidHash, Step, Inv, Abandoned;
    if k > 0 {
      PathAbandoned(h, cfg, ws, es, k - 1, tid);
      StepKeepsInv(h, cfg, ws[k - 1], ws[k], es[k - 1]);
      AbandonedStep(h, cfg, ws[k - 1], ws[k], es[k - 1], tid);
    }
    AbandonedHas(ws[k], tid);
  }

  /** A job that starts under a fresh id. */
  lemma CanBegin(h: Hash, cfg: Config, w: World, tid: Tid, sender: string, recipient: string, filename: string)
    returns (w': World, p: Pid)
    requires ValidHash(h) && Inv(h, cfg, w) && tid !in w.copied && tid !in w.uploads
    ensures Leads(h, cfg, w, w') && Inv(h, cfg, w') && p in w'.jobs && w'.jobs[p].tid == tid
    ensures w'.jobs[p].sender == sender && w'.jobs[p].recipient == recipient && w'.jobs[p].filename == filename
    ensures tid in w'.copied && tid in w'.dirs && META !in w'.dirs[tid]
    ensures forall q :: q in w'.jobs && q != p ==> w'.jobs[q].tid != tid
  {
    p := FreshPid(w.jobs.Keys);
    var expires := TransferDir.ExpiryOf(w.clock, None, cfg.defaultTtl, cfg.maxTtl);
    var j := Job(tid, sender, recipient, filename, w.clock, expires, Made, h.init, 0);
    w' := w.(jobs := w.jobs[p := j], dirs := w.dirs[tid := map[]], copied := w.copied[tid := []]);
    NothingFresh(h, cfg, w, tid);
    hide ValidHash, Inv, Leads;
    assert Step(h, cfg, w, w', Begin(p, j, None));
    LeadsSelf(h, cfg, w);
    LeadsOn(h, cfg, w, w, w', Begin(p, j, None));
    StepKeepsInv(h, cfg, w, w', Begin(p, j, None));
    hide Step;
  }

  /** From any moment of a run a crash can abandon a new staging. */
  lemma CrashAbandons(h: Hash, cfg: Config, w: World, tid: Tid) returns (w': World)
    requires ValidHash(h) && Inv(h, cfg, w) && tid !in w.copied && tid !in w.uploads
    ensures Leads(h, cfg, w, w') && Abandoned(w', tid)
  {
    hide ValidHash, Inv, Leads;
    var v, p := CanBegin(h, cfg, w, tid, "", "", "");
    w' := v.(jobs := v.jobs - {p});
    LeadsOn(h, cfg, w, v, w', Crash(p));
  }

  // ---- fetching ----

  datatype Fetched = NotFound | Denied | Unsafe | Gone | HashMismatch | Found(m: Manifest, bytes: Bytes)

  /** What the path test refuses. */
  predicate HasControl(name: string) {
    exists i :: 0 <= i < |name| && name[i] < ' '
  }

  /** A digest has no control character, so a locator has one only from the file name. */
  lemma ControlFromName(sha: string, filename: string)
    requires |sha| >= 16 && AllHex(sha)
    ensures HasControl(FinalName(sha, filename)) <==> HasControl(filename)
  {
    var name := FinalName(sha, filename);
    assert forall i :: 0 <= i < 16 ==> name[i] == sha[i] && HexDigit(sha[i]);
    assert forall i :: 0 <= i < |filename| ==> name[i + 17] == filename[i];
    if HasControl(name) {
      var i :| 0 <= i < |name| && name[i] < ' ';
      assert i >= 17 && filename[i - 17] == name[i];
    }
  }

  /** `agent_fetch_file` on one host: the manifest is loaded at `w1` and again, for
      the permission check, at `w2`; the file is opened and hashed at `w3`. */
  ghost function Fetch(h: Hash, w1: World, w2: World, w3: World, tid: Tid, caller: string): Fetched {
    if !HasMeta(w1, tid) || !w1.dirs[tid][META].Meta? then NotFound
    else if !HasMeta(w2, tid) || !w2.dirs[tid][META].Meta? then NotFound
    else
      var m1, m2 := w1.dirs[tid][META].m, w2.dirs[tid][META].m;
      if caller != m2.sender && caller != m2.recipient then Denied
      else if HasControl(m2.locName) then Unsafe
      else if m2.locTid !in w3.dirs || m2.locName !in w3.dirs[m2.locTid]
              || !w3.dirs[m2.locTid][m2.locName].Data? then Gone
      else
        var bytes := w3.dirs[m2.locTid][m2.locName].bytes;
        if Digest(h, bytes) != m1.sha then HashMismatch else Found(m1, bytes)
  }

  /** Whatever the files have become, nothing is handed out under another digest. */
  lemma FoundIsVerified(h: Hash, w1: World, w2: World, w3: World, tid: Tid, caller: string)
    ensures var r := Fetch(h, w1, w2, w3, tid, caller); r.Found? ==> Digest(h, r.bytes) == r.m.sha
  {}

  /** A manifest is that of a staged transfer unless an upload took its name. */
  lemma MetaIsStaged(h: Hash, cfg: Config, ws: seq<World>, es: seq<Event>, i: nat, k: nat, tid: Tid)
    requires ValidHash(h) && Run(h, cfg, ws, es) && i <= k < |ws| && HasMeta(ws[i], tid)
    requires tid !in ws[k].uploads || NoPlacedMeta(es)
    ensures tid in ws[i].copied
  {
    hide ValidHash, Step;
    if tid !in ws[i].copied {
      AlwaysInv(h, cfg, ws, es, i);
      MetaIsSomeones(h, cfg, ws[i], tid);
      CopiedGrows(h, cfg, ws, es, i, k, tid);
      var j := MetaWasUploaded(h, cfg, ws, es, i, tid);
    }
  }

  /** Whatever sweeps, deletes or uploads run between its steps, a fetch of a staged
      transfer is refused to all but sender and recipient; theirs is refused exactly when
      the file name holds a control character, else finds the transfer gone or returns
      exactly the copied bytes. Verification never fails. */
  lemma FetchYieldsCopiedBytes(h: Hash, cfg: Config, ws: seq<World>, es: seq<Event>,
                               i: nat, j: nat, k: nat, tid: Tid, caller: string)
    requires ValidHash(h) && Run(h, cfg, ws, es) && i <= j <= k < |ws|
    requires tid !in ws[k].uploads || NoPlacedMeta(es)
    ensures var r := Fetch(h, ws[i], ws[j], ws[k], tid, caller);
      if !HasMeta(ws[i], tid) || tid !in ws[j].dirs then r == NotFound
      else
        && tid in ws[i].copied && ws[i].dirs[tid][META].Meta?
        && var m := ws[i].dirs[tid][META].m; var b := ws[i].copied[tid];
        && m.size == |b| && m.sha == Digest(h, b)
        && r == if caller != m.sender && caller != m.recipient then Denied
                else if exists n :: 0 <= n < |m.filename| && m.filename[n] as int < 32 then Unsafe
                else if tid !in ws[k].dirs then Gone
                else Found(m, b)
  {
    hide ValidHash, Step, Run, JobOk, Doomed, NoPlacedMeta;
    AlwaysInv(h, cfg, ws, es, i);
    if HasMeta(ws[i], tid) {
      MetaIsStaged(h, cfg, ws, es, i, k, tid);
      StagedIsFinished(h, cfg, ws[i], tid);
      StaysFrozen(h, cfg, ws, es, i, j, tid);
      if tid in ws[j].dirs {
        StaysFrozen(h, cfg, ws, es, j, k, tid);
        ControlFromName(ws[i].dirs[tid][META].m.sha, ws[i].dirs[tid][META].m.filename);
      }
    }
    hide Inv;
  }

  /** From any moment of a run a file of any name can be staged; the recipient's fetch is
      then refused if the name holds a control character, "\n" say, and succeeds otherwise. */
  lemma AnyNameCanBeStaged(h: Hash, cfg: Config, w: World, tid: Tid, sender: string, recipient: string,
                           filename: string)
    returns (w': World)
    requires ValidHash(h) && Inv(h, cfg, w) && tid !in w.copied && tid !in w.uploads
    ensures Leads(h, cfg, w, w')
    ensures var r := Fetch(h, w', w', w', tid, recipient);
      if exists i :: 0 <= i < |filename| && filename[i] as int < 32 then r == Unsafe
      else r.Found? && r.m.filename == filename && r.m.sender == sender && r.m.recipient == recipient
  {
    hide ValidHash, Inv, Leads;
    var v, p := CanBegin(h, cfg, w, tid, sender, recipient, filename);
    w' := CanFinish(h, cfg, w, v, p);
    StagedIsFinished(h, cfg, w', tid);
    ControlFromName(w'.dirs[tid][META].m.sha, filename);
  }
}
