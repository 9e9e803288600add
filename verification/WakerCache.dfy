/** The waker registry cached by the modification time of its file. */
module WakerCache {
  import opened Prelude

  datatype Waker = Disabled | Waker(registry: string)

  /** What `_load_waker` makes of the file's text; a malformed one gives Disabled. */
  type Loader = string -> Waker

  datatype File = File(mtime: int, content: string)

  datatype Cached = Cached(waker: Waker, mtime: int)

  function LoadNow(load: Loader, file: Option<File>): Waker {
    if file.Some? then load(file.value.content) else Disabled
  }

  // ---- one call ----

  class Registry {
    var cache: Option<Cached>

    constructor ()
      ensures cache == None
    {
      cache := None;
    }

    /** One call with what its two looks at the file find: the modification time at
        the stat, None if that fails, and the file at the load if it comes to one. */
    method LoadIfStale(load: Loader, stat: Option<int>, atLoad: Option<File>) returns (w: Waker)
      modifies this
      ensures stat.Some? && old(cache).Some? && old(cache).value.mtime == stat.value ==>
        w == old(cache).value.waker && cache == old(cache)
      ensures stat.Some? && !(old(cache).Some? && old(cache).value.mtime == stat.value) ==>
        w == LoadNow(load, atLoad) && cache == Some(Cached(w, stat.value))
      ensures stat.None? ==> w == LoadNow(load, atLoad) && cache == None
    {
      if stat.None? {
        cache := None;
        return LoadNow(load, atLoad);
      }
      if cache.Some? && cache.value.mtime == stat.value {
        return cache.value.waker;
      }
      w := LoadNow(load, atLoad);
      cache := Some(Cached(w, stat.value));
    }
  }

  // ---- concurrent calls and writes ----

  type Pid = nat

  datatype Pc =
    | Start
    | Statted(mtime: int)
    | Missing
    | Stale(mtime: int)
    | Loaded(mtime: int, waker: Waker)
    | Cleared
    | Returned(waker: Waker)

  /** `written` records the content ever stored under each modification time. */
  datatype State = State(file: Option<File>, cache: Option<Cached>, calls: map<Pid, Pc>,
                         written: map<int, string>)

  datatype Event =
    | Write(mtime: int, content: string)
    | Unlink
    | Stat(p: Pid)
    | Compare(p: Pid)
    | Load(p: Pid)
    | Store(p: Pid)
    | Clear(p: Pid)
    | LoadUncached(p: Pid)
    | Again(p: Pid)

  ghost predicate Step(load: Loader, s: State, s': State, e: Event) {
    match e
    case Write(mtime, content) =>
      mtime !in s.written
      && s' == s.(file := Some(File(mtime, content)), written := s.written[mtime := content])
    case Unlink =>
      s' == s.(file := None)
    case Stat(p) =>
      p in s.calls && s.calls[p].Start?
      && s' == s.(calls := s.calls[p := if s.file.Some? then Statted(s.file.value.mtime) else Missing])
    case Compare(p) =>
      p in s.calls && s.calls[p].Statted?
      && s' == s.(calls := s.calls[p := if Hit(s, p) then Returned(s.cache.value.waker) else Stale(s.calls[p].mtime)])
    case Load(p) =>
      p in s.calls && s.calls[p].Stale?
      && s' == s.(calls := s.calls[p := Loaded(s.calls[p].mtime, LoadNow(load, s.file))])
    case Store(p) =>
      p in s.calls && s.calls[p].Loaded?
      && s' == s.(cache := Some(Cached(s.calls[p].waker, s.calls[p].mtime)),
                  calls := s.calls[p := Returned(s.calls[p].waker)])
    case Clear(p) =>
      p in s.calls && s.calls[p].Missing? && s' == s.(cache := None, calls := s.calls[p := Cleared])
    case LoadUncached(p) =>
      p in s.calls && s.calls[p].Cleared?
      && s' == s.(calls := s.calls[p := Returned(LoadNow(load, s.file))])
    case Again(p) =>
      p in s.calls && s.calls[p].Returned? && s' == s.(calls := s.calls[p := Start])
  }

  ghost predicate Hit(s: State, p: Pid)
    requires p in s.calls && s.calls[p].Statted?
  {
    s.cache.Some? && s.cache.value.mtime == s.calls[p].mtime
  }

  /** `w`, kept under time `m`, is right if the file still has that time. */
  ghost predicate Fits(load: Loader, s: State, w: Waker, m: int) {
    m in s.written && (s.file.Some? && s.file.value.mtime == m ==> w == load(s.file.value.content))
  }

  ghost predicate Coherent(load: Loader, s: State) {
    && (s.file.Some? ==> s.file.value.mtime in s.written)
    && (s.cache.Some? ==> Fits(load, s, s.cache.value.waker, s.cache.value.mtime))
    && (forall p :: p in s.calls && s.calls[p].Loaded? ==> Fits(load, s, s.calls[p].waker, s.calls[p].mtime))
    && (forall p :: p in s.calls && (s.calls[p].Statted? || s.calls[p].Stale?) ==> s.calls[p].mtime in s.written)
  }

  ghost predicate Init(s: State) {
    s.file.None? && s.cache.None? && s.written == map[] && forall p :: p in s.calls ==> s.calls[p].Start?
  }

  ghost predicate Run(load: Loader, ss: seq<State>, es: seq<Event>) {
    && |ss| == |es| + 1 && Init(ss[0])
    && forall i :: 0 <= i < |es| ==> Step(load, ss[i], ss[i + 1], es[i])
  }

  lemma StepCoherent(load: Loader, s: State, s': State, e: Event)
    requires Coherent(load, s) && Step(load, s, s', e)
    ensures Coherent(load, s')
  {}

  /** Whenever the cached time is the file's current one, the cached waker is what the
      current contents load to, wherever writes fell between stat and load. */
  lemma {:induction false} CacheCoherent(load: Loader, ss: seq<State>, es: seq<Event>, i: nat)
    requires Run(load, ss, es) && i < |ss|
    ensures Coherent(load, ss[i])
    ensures ss[i].cache.Some? && ss[i].file.Some? && ss[i].cache.value.mtime == ss[i].file.value.mtime
      ==> ss[i].cache.value.waker == load(ss[i].file.value.content)
  {
    if i > 0 {
      CacheCoherent(load, ss, es, i - 1);
      StepCoherent(load, ss[i - 1], ss[i], es[i - 1]);
    }
  }

  /** A call that hits while the file is as it was at the stat returns what the
      current contents load to. */
  lemma HitIsCurrent(load: Loader, ss: seq<State>, es: seq<Event>, i: nat, p: Pid)
    requires Run(load, ss, es) && i < |es| && es[i] == Compare(p)
    requires p in ss[i].calls && ss[i].calls[p].Statted? && Hit(ss[i], p)
    requires ss[i].file.Some? && ss[i].file.value.mtime == ss[i].calls[p].mtime
    ensures p in ss[i + 1].calls && ss[i + 1].calls[p] == Returned(load(ss[i].file.value.content))
  {
    CacheCoherent(load, ss, es, i);
    assert Step(load, ss[i], ss[i + 1], es[i]);
  }

  // ---- a call on its own ----

  /** Steps of one call with nobody between end as the method does. */
  lemma CallAlone(load: Loader, s: State, s1: State, s2: State, s3: State, s4: State, p: Pid)
    requires Step(load, s, s1, Stat(p))
    ensures s.file == None ==>
      Step(load, s1, s2, Clear(p)) && Step(load, s2, s3, LoadUncached(p)) ==>
      s3.calls[p] == Returned(Disabled) && s3.cache == None
    ensures s.file.Some? && s.cache.Some? && s.cache.value.mtime == s.file.value.mtime ==>
      Step(load, s1, s2, Compare(p)) ==>
      s2.calls[p] == Returned(s.cache.value.waker) && s2.cache == s.cache
    ensures s.file.Some? && (s.cache == None || s.cache.value.mtime != s.file.value.mtime) ==>
      Step(load, s1, s2, Compare(p)) && Step(load, s2, s3, Load(p)) && Step(load, s3, s4, Store(p)) ==>
      s4.calls[p] == Returned(load(s.file.value.content))
      && s4.cache == Some(Cached(load(s.file.value.content), s.file.value.mtime))
  {}

  /** The file changes only by a write or its removal. */
  lemma FileChangesOnlyBy(load: Loader, s: State, s': State, e: Event)
    requires Step(load, s, s', e) && s'.file != s.file
    ensures (e.Write? && s'.file == Some(File(e.mtime, e.content)) && e.mtime !in s.written)
      || (e.Unlink? && s'.file == None)
  {}

  // ---- what the system allows ----

  ghost predicate CanHappen(load: Loader, s: State, e: Event) {
    exists s' :: Step(load, s, s', e)
  }

  /** A write under a fresh time and a removal can come at any moment, and every call has
      a next step. */
  lemma EventsHappen(load: Loader, s: State, mtime: int, content: string, p: Pid)
    ensures mtime !in s.written ==> CanHappen(load, s, Write(mtime, content))
    ensures CanHappen(load, s, Unlink)
    ensures p in s.calls ==>
      match s.calls[p]
      case Start => CanHappen(load, s, Stat(p))
      case Statted(_) => CanHappen(load, s, Compare(p))
      case Missing => CanHappen(load, s, Clear(p))
      case Stale(_) => CanHappen(load, s, Load(p))
      case Loaded(_, _) => CanHappen(load, s, Store(p))
      case Cleared => CanHappen(load, s, LoadUncached(p))
      case Returned(_) => CanHappen(load, s, Again(p))
  {
    if mtime !in s.written {
      assert Step(load, s, s.(file := Some(File(mtime, content)), written := s.written[mtime := content]),
                  Write(mtime, content));
    }
    assert Step(load, s, s.(file := None), Unlink);
    if p in s.calls {
      match s.calls[p]
      case Start =>
        assert Step(load, s, s.(calls := s.calls[p := if s.file.Some? then Statted(s.file.value.mtime) else Missing]),
                    Stat(p));
      case Statted(m) =>
        assert Step(load, s, s.(calls := s.calls[p := if Hit(s, p) then Returned(s.cache.value.waker) else Stale(m)]),
                    Compare(p));
      case Missing =>
        assert Step(load, s, s.(cache := None, calls := s.calls[p := Cleared]), Clear(p));
      case Stale(m) =>
        assert Step(load, s, s.(calls := s.calls[p := Loaded(m, LoadNow(load, s.file))]), Load(p));
      case Loaded(m, w) =>
        assert Step(load, s, s.(cache := Some(Cached(w, m)), calls := s.calls[p := Returned(w)]), Store(p));
      case Cleared =>
        assert Step(load, s, s.(calls := s.calls[p := Returned(LoadNow(load, s.file))]), LoadUncached(p));
      case Returned(_) =>
        assert Step(load, s, s.(calls := s.calls[p := Start]), Again(p));
    }
  }
}
