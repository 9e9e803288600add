/** The façade's layered limits: a global limiter first, then one per bucket of
    routes, all keyed by client address. */
module Routes {
  import opened Prelude
  import opened SlidingWindow
  import opened RateBounds

  datatype Bucket = Send | Inbox | Register

  function TrimSlashes(route: string): string {
    if route != "" && route[|route| - 1] == '/' then TrimSlashes(route[..|route| - 1]) else route
  }

  function BucketOf(route: string): Option<Bucket> {
    var r := TrimSlashes(route);
    if r == "/send" then Some(Send)
    else if r == "/inbox" || r == "/inbox_peek" then Some(Inbox)
    else if r == "/register" then Some(Register)
    else None
  }

  predicate Exempt(route: string) {
    TrimSlashes(route) == "/health" || TrimSlashes(route) == "/ping"
  }

  function Slashes(n: nat): string {
    seq(n, _ => '/')
  }

  /** Trailing slashes change neither the bucket nor the exemption. */
  lemma {:induction false} SlashIgnored(route: string, n: nat)
    ensures TrimSlashes(route + Slashes(n)) == TrimSlashes(route)
    ensures BucketOf(route + Slashes(n)) == BucketOf(route) && Exempt(route + Slashes(n)) == Exempt(route)
  {
    var padded := route + Slashes(n);
    if n > 0 {
      assert padded[..|padded| - 1] == route + Slashes(n - 1);
      SlashIgnored(route, n - 1);
    } else {
      assert padded == route;
    }
  }

  /** A route is `base`, trailing slashes aside. */
  ghost predicate Under(route: string, base: string) {
    exists n: nat :: route == base + Slashes(n)
  }

  lemma {:induction false} TrimmedSplit(route: string) returns (n: nat)
    ensures route == TrimSlashes(route) + Slashes(n)
    ensures TrimSlashes(route) == "" || TrimSlashes(route)[|TrimSlashes(route)| - 1] != '/'
  {
    if route != "" && route[|route| - 1] == '/' {
      var m := TrimmedSplit(route[..|route| - 1]);
      n := m + 1;
      assert route == route[..|route| - 1] + "/";
    } else {
      n := 0;
    }
  }

  lemma UnderTrim(route: string, base: string)
    requires base != "" && base[|base| - 1] != '/'
    ensures Under(route, base) <==> TrimSlashes(route) == base
  {
    var k := TrimmedSplit(route);
    if n: nat :| route == base + Slashes(n) {
      SlashIgnored(base, n);
    }
  }

  /** The routes by name. */
  lemma RouteNames(route: string)
    ensures Exempt(route) <==> Under(route, "/health") || Under(route, "/ping")
    ensures BucketOf(route) == Some(Send) <==> Under(route, "/send")
    ensures BucketOf(route) == Some(Inbox) <==> Under(route, "/inbox") || Under(route, "/inbox_peek")
    ensures BucketOf(route) == Some(Register) <==> Under(route, "/register")
    ensures BucketOf(route) == None <==>
      !Under(route, "/send") && !Under(route, "/inbox") && !Under(route, "/inbox_peek") && !Under(route, "/register")
  {
    UnderTrim(route, "/health");
    UnderTrim(route, "/ping");
    UnderTrim(route, "/send");
    UnderTrim(route, "/inbox");
    UnderTrim(route, "/inbox_peek");
    UnderTrim(route, "/register");
    hide TrimSlashes, Under;
  }

  /** A request with the readings its two limiters take: the call's, then that of the
      sweep if there is one. */
  datatype Request = Request(ip: string, route: string, g: int, gLater: int, r: int, rLater: int)

  /** What reaches the limiters; `prune_stale` reads the clock once for each. */
  datatype Event =
    | Ask(q: Request)
    | PruneAll(g: int, s: int, i: int, r: int)

  /** The limits, the limiters with their histories, and the requests let through. */
  datatype Gate = Gate(globalRpm: int, rpm: map<Bucket, int>, top: Sys, per: map<Bucket, Sys>,
                       clock: int, forwarded: seq<Request>)

  predicate Complete(a: Gate) {
    Send in a.rpm && Inbox in a.rpm && Register in a.rpm
    && Send in a.per && Inbox in a.per && Register in a.per
  }

  predicate Passes(rpm: int, s: Sys, ip: string, now: int) {
    rpm <= 0 || Admits(rpm, s.l, ip, now)
  }

  function Charge(rpm: int, s: Sys, ip: string, now: int, later: int): Sys {
    if rpm <= 0 then s else Next(rpm, s, Call(ip, now, later))
  }

  /** The middleware: one request. */
  function Middleware(a: Gate, q: Request): Gate
    requires Complete(a)
  {
    if Exempt(q.route) then a.(forwarded := a.forwarded + [q])
    else if !Passes(a.globalRpm, a.top, q.ip, q.g) then
      a.(top := Charge(a.globalRpm, a.top, q.ip, q.g, q.gLater), clock := q.rLater)
    else
      var b := a.(top := Charge(a.globalRpm, a.top, q.ip, q.g, q.gLater), clock := q.rLater);
      match BucketOf(q.route)
      case None => b.(forwarded := a.forwarded + [q])
      case Some(k) =>
        var c := b.(per := a.per[k := Charge(a.rpm[k], a.per[k], q.ip, q.r, q.rLater)]);
        if Passes(a.rpm[k], a.per[k], q.ip, q.r) then c.(forwarded := a.forwarded + [q]) else c
  }

  function Handle(a: Gate, e: Event): Gate
    requires Complete(a)
    ensures Complete(Handle(a, e))
  {
    match e
    case Ask(q) => Middleware(a, q)
    case PruneAll(g, s, i, r) =>
      a.(top := Next(a.globalRpm, a.top, Prune(g)), clock := r,
         per := a.per[Send := Next(a.rpm[Send], a.per[Send], Prune(s))]
                     [Inbox := Next(a.rpm[Inbox], a.per[Inbox], Prune(i))]
                     [Register := Next(a.rpm[Register], a.per[Register], Prune(r))])
  }

  /** Readings of the requests from `ip` let through, exempt routes aside. */
  function GlobalTimes(qs: seq<Request>, ip: string): seq<int> {
    if qs == [] then []
    else
      var q := qs[|qs| - 1];
      GlobalTimes(qs[..|qs| - 1], ip) + if q.ip == ip && !Exempt(q.route) then [q.g] else []
  }

  /** Readings of the requests from `ip` let through in one bucket. */
  function BucketTimes(qs: seq<Request>, ip: string, k: Bucket): seq<int> {
    if qs == [] then []
    else
      var q := qs[|qs| - 1];
      BucketTimes(qs[..|qs| - 1], ip, k)
      + if q.ip == ip && !Exempt(q.route) && BucketOf(q.route) == Some(k) then [q.r] else []
  }

  // ---- the invariant ----

  /** One limiter in a run; `exact` if both readings of each call are equal. */
  ghost predicate Good(rpm: int, s: Sys, clock: int, exact: bool) {
    rpm > 0 ==> Sound(s, exact) && LogsSpaced(rpm, s, exact) && s.clock <= clock
  }

  /** What was let through never outnumbers what the limiter admitted. */
  ghost predicate Within(times: seq<int>, log: seq<int>) {
    forall x :: WindowCount(times, x) <= WindowCount(log, x)
  }

  ghost predicate Inv(a: Gate, exact: bool) {
    && Complete(a)
    && Good(a.globalRpm, a.top, a.clock, exact)
    && (forall k :: k in a.per && k in a.rpm ==> Good(a.rpm[k], a.per[k], a.clock, exact))
    && (a.globalRpm > 0 ==> forall ip :: Within(GlobalTimes(a.forwarded, ip), HitsOf(a.top.log, ip)))
    && (forall k, ip :: k in a.per && k in a.rpm && a.rpm[k] > 0 ==>
          Within(BucketTimes(a.forwarded, ip, k), HitsOf(a.per[k].log, ip)))
  }

  lemma ChargeGood(rpm: int, s: Sys, ip: string, clock: int, now: int, later: int, exact: bool)
    requires Good(rpm, s, clock, exact) && clock <= now <= later && (exact ==> now == later)
    ensures Good(rpm, Charge(rpm, s, ip, now, later), later, exact)
  {
    hide Sound, LogsSpaced, Loses, AllowState;
    if rpm > 0 {
      var op := Call(ip, now, later);
      if exact {
        ExactKeeps(rpm, s, op);
      }
      NextSound(rpm, s, op, exact);
      NextSpaced(rpm, s, op, exact);
    }
  }

  lemma PruneGood(rpm: int, s: Sys, clock: int, now: int, exact: bool)
    requires Good(rpm, s, clock, exact) && clock <= now
    ensures Good(rpm, Next(rpm, s, Prune(now)), now, exact) && Next(rpm, s, Prune(now)).log == s.log
  {
    if rpm > 0 {
      NextSound(rpm, s, Prune(now), exact);
      NextSpaced(rpm, s, Prune(now), exact);
    }
    hide Sound, LogsSpaced;
  }

  lemma {:induction false} CountAppend(s: seq<int>, t: int, x: int)
    ensures WindowCount(s + [t], x) == WindowCount(s, x) + if x <= t < x + WINDOW then 1 else 0
  {
    CountSplit(s + [t], |s|, x);
    assert (s + [t])[..|s|] == s && (s + [t])[|s|..] == [t];
  }

  lemma WithinAppend(times: seq<int>, log: seq<int>, t: int, both: bool)
    requires Within(times, log)
    ensures Within(if both then times + [t] else times, log + [t])
  {
    forall x ensures WindowCount(if both then times + [t] else times, x) <= WindowCount(log + [t], x) {
      CountAppend(times, t, x);
      CountAppend(log, t, x);
    }
  }

  /** One limiter's account of one address across a request. */
  lemma ChargeWithin(rpm: int, s: Sys, caller: string, now: int, later: int, ip: string, times: seq<int>,
                     through: bool)
    requires rpm > 0 && Within(times, HitsOf(s.log, ip))
    requires through ==> Admits(rpm, s.l, caller, now)
    ensures Within(times + (if through && caller == ip then [now] else []),
                   HitsOf(Charge(rpm, s, caller, now, later).log, ip))
  {
    hide AllowState, Within;
    assert times + [] == times;
    if caller == ip {
      WithinAppend(times, HitsOf(s.log, ip), now, through);
    }
  }

  /** The readings of a request follow one another and the clock. */
  predicate Timed(clock: int, q: Request, exact: bool) {
    clock <= q.g <= q.gLater <= q.r <= q.rLater && (exact ==> q.g == q.gLater && q.r == q.rLater)
  }

  lemma MiddlewareKeepsInv(a: Gate, q: Request, exact: bool)
    requires Inv(a, exact) && Timed(a.clock, q, exact)
    ensures Inv(Middleware(a, q), exact)
  {
    var b := Middleware(a, q);
    MiddlewareGood(a, q, exact);
    MiddlewareGlobal(a, q, exact);
    forall k, ip | k in a.per && k in a.rpm && a.rpm[k] > 0
      ensures Within(BucketTimes(b.forwarded, ip, k), HitsOf(b.per[k].log, ip))
    {
      MiddlewareBucket(a, q, k, ip, exact);
    }
    hide Middleware, Good, Within, GlobalTimes, BucketTimes;
  }

  lemma GoodLater(rpm: int, s: Sys, clock: int, later: int, exact: bool)
    requires Good(rpm, s, clock, exact) && clock <= later
    ensures Good(rpm, s, later, exact)
  {}

  lemma MiddlewareGood(a: Gate, q: Request, exact: bool)
    requires Inv(a, exact) && Timed(a.clock, q, exact)
    ensures var b := Middleware(a, q);
      Complete(b) && b.rpm == a.rpm && b.globalRpm == a.globalRpm && b.per.Keys == a.per.Keys
      && Good(b.globalRpm, b.top, b.clock, exact)
      && forall k :: k in b.per && k in b.rpm ==> Good(b.rpm[k], b.per[k], b.clock, exact)
  {
    hide Good, Within, Charge, Passes, Exempt;
    ChargeGood(a.globalRpm, a.top, q.ip, a.clock, q.g, q.gLater, exact);
    GoodLater(a.globalRpm, Charge(a.globalRpm, a.top, q.ip, q.g, q.gLater), q.gLater, q.rLater, exact);
    forall k | k in a.per && k in a.rpm
      ensures Good(a.rpm[k], a.per[k], q.rLater, exact)
      ensures Good(a.rpm[k], Charge(a.rpm[k], a.per[k], q.ip, q.r, q.rLater), q.rLater, exact)
    {
      GoodLater(a.rpm[k], a.per[k], a.clock, q.rLater, exact);
      ChargeGood(a.rpm[k], a.per[k], q.ip, a.clock, q.r, q.rLater, exact);
    }
  }

  lemma MiddlewareGlobal(a: Gate, q: Request, exact: bool)
    requires Inv(a, exact) && Timed(a.clock, q, exact)
    ensures var b := Middleware(a, q);
      b.globalRpm > 0 ==> forall ip :: Within(GlobalTimes(b.forwarded, ip), HitsOf(b.top.log, ip))
  {
    var b := Middleware(a, q);
    hide Within, Good, BucketTimes, AllowState, Exempt, BucketOf;
    if a.globalRpm > 0 {
      forall ip ensures Within(GlobalTimes(b.forwarded, ip), HitsOf(b.top.log, ip)) {
        var times := GlobalTimes(a.forwarded, ip);
        assert Within(times, HitsOf(a.top.log, ip));
        var through := b.forwarded != a.forwarded;
        assert through ==> (a.forwarded + [q])[..|a.forwarded|] == a.forwarded;
        assert times + [] == times;
        if !Exempt(q.route) {
          ChargeWithin(a.globalRpm, a.top, q.ip, q.g, q.gLater, ip, times, through);
        }
      }
    }
  }

  /** What a request does to one bucket. */
  lemma BucketEffect(a: Gate, q: Request, k: Bucket)
    requires Complete(a) && k in a.per && k in a.rpm
    ensures var b := Middleware(a, q); var mine := !Exempt(q.route) && BucketOf(q.route) == Some(k);
      && k in b.per
      && (b.forwarded == a.forwarded || b.forwarded == a.forwarded + [q])
      && (if mine && Passes(a.globalRpm, a.top, q.ip, q.g)
          then b.per[k] == Charge(a.rpm[k], a.per[k], q.ip, q.r, q.rLater)
               && (b.forwarded != a.forwarded ==> Passes(a.rpm[k], a.per[k], q.ip, q.r))
          else b.per[k] == a.per[k] && (mine ==> b.forwarded == a.forwarded))
  {}

  lemma TimesAppend(qs: seq<Request>, q: Request, ip: string, k: Bucket)
    ensures BucketTimes(qs + [q], ip, k) == BucketTimes(qs, ip, k)
      + if q.ip == ip && !Exempt(q.route) && BucketOf(q.route) == Some(k) then [q.r] else []
  {}

  lemma MiddlewareBucket(a: Gate, q: Request, k: Bucket, ip: string, exact: bool)
    requires Inv(a, exact) && k in a.per && k in a.rpm && a.rpm[k] > 0
    ensures var b := Middleware(a, q);
      k in b.per && Within(BucketTimes(b.forwarded, ip, k), HitsOf(b.per[k].log, ip))
  {
    hide Within, Good, Exempt, BucketOf, Charge, Middleware, BucketTimes;
    var b := Middleware(a, q);
    var times := BucketTimes(a.forwarded, ip, k);
    assert Within(times, HitsOf(a.per[k].log, ip));
    var through := b.forwarded != a.forwarded;
    assert times + [] == times;
    BucketEffect(a, q, k);
    TimesAppend(a.forwarded, q, ip, k);
    if !Exempt(q.route) && BucketOf(q.route) == Some(k) && Passes(a.globalRpm, a.top, q.ip, q.g) {
      ChargeWithin(a.rpm[k], a.per[k], q.ip, q.r, q.rLater, ip, times, through);
    }
  }

  lemma PruneAllKeepsInv(a: Gate, e: Event, exact: bool)
    requires Inv(a, exact) && e.PruneAll? && a.clock <= e.g <= e.s <= e.i <= e.r
    ensures Inv(Handle(a, e), exact)
  {
    hide Good, Within, Next, GlobalTimes, BucketTimes;
    PruneGood(a.globalRpm, a.top, a.clock, e.g, exact);
    GoodLater(a.globalRpm, Next(a.globalRpm, a.top, Prune(e.g)), e.g, e.r, exact);
    forall k, t | k in a.per && k in a.rpm && a.clock <= t <= e.r
      ensures Good(a.rpm[k], Next(a.rpm[k], a.per[k], Prune(t)), e.r, exact)
      ensures Next(a.rpm[k], a.per[k], Prune(t)).log == a.per[k].log
    {
      PruneGood(a.rpm[k], a.per[k], a.clock, t, exact);
      GoodLater(a.rpm[k], Next(a.rpm[k], a.per[k], Prune(t)), t, e.r, exact);
    }
    forall k | k in a.per && k in a.rpm ensures k == Send || k == Inbox || k == Register {}
  }

  // ---- runs ----

  function Opened(globalRpm: int, rpm: map<Bucket, int>): Gate {
    Gate(globalRpm, rpm, FRESH, map[Send := FRESH, Inbox := FRESH, Register := FRESH], 0, [])
  }

  function Serve(a: Gate, es: seq<Event>): Gate
    requires Complete(a)
    ensures Complete(Serve(a, es))
  {
    if es == [] then a
    else
      var b := Serve(a, es[..|es| - 1]);
      Handle(b, es[|es| - 1])
  }

  predicate TimedEvent(clock: int, e: Event, exact: bool) {
    match e
    case Ask(q) => Timed(clock, q, exact)
    case PruneAll(g, s, i, r) => clock <= g <= s <= i <= r
  }

  function LastReading(es: seq<Event>): int {
    if es == [] then 0
    else match es[|es| - 1]
      case Ask(q) => q.rLater
      case PruneAll(_, _, _, r) => r
  }

  /** Events in order, none starting before the last one's readings; `exact` if both
      readings of every limiter call are equal. */
  predicate InOrder(es: seq<Event>, exact: bool) {
    es == [] || (InOrder(es[..|es| - 1], exact)
                 && TimedEvent(LastReading(es[..|es| - 1]), es[|es| - 1], exact))
  }

  /** The four readings of a request may differ; only their order matters. */
  lemma OrderMeans(es: seq<Event>, q: Request)
    ensures InOrder(es + [Ask(q)], false) <==>
      InOrder(es, false) && LastReading(es) <= q.g && q.g <= q.gLater && q.gLater <= q.r && q.r <= q.rLater
    ensures InOrder(es + [Ask(q)], true) <==>
      InOrder(es, true) && LastReading(es) <= q.g && q.g == q.gLater && q.gLater <= q.r && q.r == q.rLater
    ensures LastReading(es + [Ask(q)]) == q.rLater
  {
    assert (es + [Ask(q)])[..|es|] == es;
  }

  lemma {:induction false} ServeInv(globalRpm: int, rpm: map<Bucket, int>, es: seq<Event>, exact: bool)
    requires Send in rpm && Inbox in rpm && Register in rpm && InOrder(es, exact)
    ensures var a := Serve(Opened(globalRpm, rpm), es);
      Inv(a, exact) && a.globalRpm == globalRpm && a.rpm == rpm && a.clock <= LastReading(es)
  {
    hide Within, Good, Exempt, Passes, Charge, Next;
    if es != [] {
      var front, e := es[..|es| - 1], es[|es| - 1];
      var a := Serve(Opened(globalRpm, rpm), front);
      ServeInv(globalRpm, rpm, front, exact);
      match e
      case Ask(q) =>
        MiddlewareKeepsInv(a, q, exact);
      case PruneAll(_, _, _, _) =>
        PruneAllKeepsInv(a, e, exact);
      hide Inv;
    } else {
      OpenedInv(globalRpm, rpm, exact);
    }
  }

  lemma OpenedInv(globalRpm: int, rpm: map<Bucket, int>, exact: bool)
    requires Send in rpm && Inbox in rpm && Register in rpm
    ensures Inv(Opened(globalRpm, rpm), exact)
  {}

  // ---- the bounds, route by route ----

  /** Readings of the global limiter for the requests of `ip` let through on any route but
      `/health` and `/ping`. */
  ghost function LimitedTimes(qs: seq<Request>, ip: string): seq<int> {
    if qs == [] then []
    else
      var q := qs[|qs| - 1];
      LimitedTimes(qs[..|qs| - 1], ip)
      + if q.ip == ip && !Under(q.route, "/health") && !Under(q.route, "/ping") then [q.g] else []
  }

  /** Readings of a route's limiter for the requests of `ip` let through on either route. */
  ghost function RouteTimes(qs: seq<Request>, ip: string, route: string, other: string): seq<int> {
    if qs == [] then []
    else
      var q := qs[|qs| - 1];
      RouteTimes(qs[..|qs| - 1], ip, route, other)
      + if q.ip == ip && (Under(q.route, route) || Under(q.route, other)) then [q.r] else []
  }

  lemma {:induction false} SameLimited(qs: seq<Request>, ip: string)
    ensures LimitedTimes(qs, ip) == GlobalTimes(qs, ip)
  {
    hide Exempt, Under;
    if qs != [] {
      RouteNames(qs[|qs| - 1].route);
      SameLimited(qs[..|qs| - 1], ip);
    }
  }

  lemma {:induction false} SameRouted(qs: seq<Request>, ip: string)
    ensures RouteTimes(qs, ip, "/send", "/send") == BucketTimes(qs, ip, Send)
    ensures RouteTimes(qs, ip, "/inbox", "/inbox_peek") == BucketTimes(qs, ip, Inbox)
    ensures RouteTimes(qs, ip, "/register", "/register") == BucketTimes(qs, ip, Register)
  {
    if qs != [] {
      RouteNames(qs[|qs| - 1].route);
      NotExempt(qs[|qs| - 1].route);
      SameRouted(qs[..|qs| - 1], ip);
    }
    hide Exempt, Under, BucketOf;
  }

  lemma NotExempt(route: string)
    ensures BucketOf(route).Some? ==> !Exempt(route)
  {}

  /** In any 60-second window the requests let through for one address stay within the
      global limit, `/health` and `/ping` aside, those on `/send` within its limit, those on
      `/inbox` and `/inbox_peek` together within theirs and those on `/register` within its
      own, when the two readings of each call are equal; otherwise within one more, whatever
      prunes come between. */
  lemma LayeredBound(globalRpm: int, rpm: map<Bucket, int>, es: seq<Event>, exact: bool, ip: string, x: int)
    requires Send in rpm && Inbox in rpm && Register in rpm && InOrder(es, exact)
    ensures var a := Serve(Opened(globalRpm, rpm), es); var extra := if exact then 0 else 1;
      && (globalRpm > 0 ==> WindowCount(LimitedTimes(a.forwarded, ip), x) <= globalRpm + extra)
      && (rpm[Send] > 0 ==>
            WindowCount(RouteTimes(a.forwarded, ip, "/send", "/send"), x) <= rpm[Send] + extra)
      && (rpm[Inbox] > 0 ==>
            WindowCount(RouteTimes(a.forwarded, ip, "/inbox", "/inbox_peek"), x) <= rpm[Inbox] + extra)
      && (rpm[Register] > 0 ==>
            WindowCount(RouteTimes(a.forwarded, ip, "/register", "/register"), x) <= rpm[Register] + extra)
  {
    hide Serve, InOrder, WindowCount, LimitedTimes, RouteTimes, BucketTimes, GlobalTimes;
    SameLimited(Serve(Opened(globalRpm, rpm), es).forwarded, ip);
    SameRouted(Serve(Opened(globalRpm, rpm), es).forwarded, ip);
    BucketBound(globalRpm, rpm, es, exact, ip, Send, x);
    BucketBound(globalRpm, rpm, es, exact, ip, Inbox, x);
    BucketBound(globalRpm, rpm, es, exact, ip, Register, x);
  }

  lemma BucketBound(globalRpm: int, rpm: map<Bucket, int>, es: seq<Event>, exact: bool, ip: string, k: Bucket,
                    x: int)
    requires Send in rpm && Inbox in rpm && Register in rpm && InOrder(es, exact) && k in rpm
    ensures var a := Serve(Opened(globalRpm, rpm), es); var extra := if exact then 0 else 1;
      && (globalRpm > 0 ==> WindowCount(GlobalTimes(a.forwarded, ip), x) <= globalRpm + extra)
      && (rpm[k] > 0 ==> WindowCount(BucketTimes(a.forwarded, ip, k), x) <= rpm[k] + extra)
  {
    var a := Serve(Opened(globalRpm, rpm), es);
    ServeInv(globalRpm, rpm, es, exact);
    assert k in a.per;
    if globalRpm > 0 {
      assert Within(GlobalTimes(a.forwarded, ip), HitsOf(a.top.log, ip));
      LogBound(globalRpm, a.top, ip, x, exact);
    }
    if rpm[k] > 0 {
      assert Good(a.rpm[k], a.per[k], a.clock, exact);
      assert Within(BucketTimes(a.forwarded, ip, k), HitsOf(a.per[k].log, ip));
      LogBound(rpm[k], a.per[k], ip, x, exact);
    }
  }

  lemma LogBound(rpm: int, s: Sys, ip: string, x: int, exact: bool)
    requires rpm > 0 && LogsOrdered(s) && LogsSpaced(rpm, s, exact)
    ensures WindowCount(HitsOf(s.log, ip), x) <= if exact then rpm else rpm + 1
  {
    if ip in s.log {
      SpacedCount(s.log[ip], if exact then rpm else rpm + 1, x);
    }
  }

  /** Exempt routes are let through and touch no limiter; a refusal by a bucket has
      already spent one hit of the global budget. */
  lemma ExemptAndRefused(a: Gate, q: Request)
    requires Complete(a)
    ensures Exempt(q.route) ==> Middleware(a, q) == a.(forwarded := a.forwarded + [q])
    ensures !Exempt(q.route) && a.globalRpm > 0 && Admits(a.globalRpm, a.top.l, q.ip, q.g)
      ==> HitsOf(Middleware(a, q).top.log, q.ip) == HitsOf(a.top.log, q.ip) + [q.g]
    ensures Middleware(a, q).forwarded == a.forwarded || Middleware(a, q).forwarded == a.forwarded + [q]
  {}

  // ---- the objects ----

  /** The state one limiter is left in by a call it receives. */
  ghost function Called(rpm: int, l: Limiter, ip: string, now: int, later: int): Limiter {
    if rpm <= 0 then l else AllowState(rpm, l, ip, now, later)
  }

  /** What the middleware does, in terms of the calls the limiters receive. */
  lemma MiddlewareCalls(a: Gate, q: Request)
    requires Complete(a)
    ensures var b := Middleware(a, q);
      b.globalRpm == a.globalRpm && b.rpm == a.rpm && b.per.Keys == a.per.Keys
    ensures Middleware(a, q).top.l
      == if Exempt(q.route) then a.top.l else Called(a.globalRpm, a.top.l, q.ip, q.g, q.gLater)
    ensures var b := Middleware(a, q); var k := BucketOf(q.route);
      var asked := !Exempt(q.route) && Passes(a.globalRpm, a.top, q.ip, q.g);
      && (forall j :: j in a.per && j in a.rpm && !(asked && k == Some(j)) ==> b.per[j].l == a.per[j].l)
      && (asked && k.Some? ==> b.per[k.value].l == Called(a.rpm[k.value], a.per[k.value].l, q.ip, q.r, q.rLater))
      && (b.forwarded != a.forwarded <==>
          Exempt(q.route) || (asked && (k.Some? ==> Passes(a.rpm[k.value], a.per[k.value], q.ip, q.r))))
  {
    hide AllowState, Admits;
    assert a.forwarded + [q] != a.forwarded;
    assert Middleware(a, q).per.Keys == a.per.Keys;
  }

  class FacadeRateLimiters {
    const top: RateLimiter
    const send: RateLimiter
    const inbox: RateLimiter
    const register: RateLimiter

    constructor (globalRpm: int, sendRpm: int, inboxRpm: int, registerRpm: int)
      ensures Apart()
      ensures top.rpm == globalRpm && send.rpm == sendRpm && inbox.rpm == inboxRpm && register.rpm == registerRpm
      ensures Mirrors(Opened(globalRpm, map[Send := sendRpm, Inbox := inboxRpm, Register := registerRpm]))
    {
      top := new RateLimiter(globalRpm);
      send := new RateLimiter(sendRpm);
      inbox := new RateLimiter(inboxRpm);
      register := new RateLimiter(registerRpm);
    }

    predicate Apart() {
      top != send && top != inbox && top != register && send != inbox && send != register && inbox != register
    }

    function ForRoute(route: string): Option<RateLimiter> {
      match BucketOf(route)
      case None => None
      case Some(Send) => Some(send)
      case Some(Inbox) => Some(inbox)
      case Some(Register) => Some(register)
    }

    /** The limiters hold what `a` says they hold, under the limits it names. */
    ghost predicate Mirrors(a: Gate)
      reads top, top.hits.Values, send, send.hits.Values, inbox, inbox.hits.Values, register, register.hits.Values
    {
      && a.globalRpm == top.rpm && a.top.l == top.State()
      && a.rpm == map[Send := send.rpm, Inbox := inbox.rpm, Register := register.rpm]
      && Complete(a)
      && a.per[Send].l == send.State() && a.per[Inbox].l == inbox.State() && a.per[Register].l == register.State()
    }

    /** The middleware with its four possible readings. The global limiter is asked
        first; a bucket is asked only about requests that passed it, and only one. */
    method Dispatch(ip: string, route: string, g: int, g': int, r: int, r': int) returns (through: bool)
      requires Apart()
      modifies top, send, inbox, register
      ensures Exempt(route) ==> through && top.State() == old(top.State())
      ensures !Exempt(route) ==> top.State() == Called(top.rpm, old(top.State()), ip, g, g')
      ensures var asked := !Exempt(route) && (top.rpm <= 0 || Admits(top.rpm, old(top.State()), ip, g));
        forall l :: l in {send, inbox, register} ==>
          l.State() == if asked && ForRoute(route) == Some(l) then Called(l.rpm, old(l.State()), ip, r, r')
                       else old(l.State())
      ensures through == (Exempt(route)
        || ((top.rpm <= 0 || Admits(top.rpm, old(top.State()), ip, g))
            && (ForRoute(route).None?
                || (var l := ForRoute(route).value; l.rpm <= 0 || Admits(l.rpm, old(l.State()), ip, r)))))
    {
      hide AllowState, Exempt, BucketOf, Admits;
      through := true;
      if !Exempt(route) {
        through := top.Allow(ip, g, g');
        if through && ForRoute(route).Some? {
          through := ForRoute(route).value.Allow(ip, r, r');
        }
      }
    }

    /** The objects do what the middleware does on values, so the bounds above are
        theirs. */
    method DispatchOn(ghost a: Gate, q: Request) returns (through: bool)
      requires Apart() && Mirrors(a)
      modifies top, send, inbox, register
      ensures Mirrors(Middleware(a, q))
      ensures through <==> Middleware(a, q).forwarded != a.forwarded
    {
      hide AllowState, Exempt, BucketOf, Admits;
      through := Dispatch(q.ip, q.route, q.g, q.gLater, q.r, q.rLater);
      MiddlewareCalls(a, q);
      hide Middleware;
    }

    /** Sweeps the four limiters, each by its own reading, and counts what went. */
    method PruneStale(g: int, s: int, i: int, r: int) returns (total: nat)
      requires Apart()
      modifies top, send, inbox, register
      ensures top.State() == Pruned(old(top.State()), g) && send.State() == Pruned(old(send.State()), s)
      ensures inbox.State() == Pruned(old(inbox.State()), i) && register.State() == Pruned(old(register.State()), r)
      ensures total == |old(top.hits)| + |old(send.hits)| + |old(inbox.hits)| + |old(register.hits)|
                       - |top.hits| - |send.hits| - |inbox.hits| - |register.hits|
    {
      hide Pruned, RateLimiter.State, RateLimiter.Table;
      var n1 := top.PruneStale(g);
      assert send.State() == old(send.State()) && inbox.State() == old(inbox.State())
        && register.State() == old(register.State());
      label First:
      var n2 := send.PruneStale(s);
      assert top.State() == old@First(top.State()) && inbox.State() == old@First(inbox.State())
        && register.State() == old@First(register.State());
      label Second:
      var n3 := inbox.PruneStale(i);
      assert top.State() == old@Second(top.State()) && send.State() == old@Second(send.State())
        && register.State() == old@Second(register.State());
      label Third:
      var n4 := register.PruneStale(r);
      assert top.State() == old@Third(top.State()) && send.State() == old@Third(send.State())
        && inbox.State() == old@Third(inbox.State());
      total := n1 + n2 + n3 + n4;
    }

    /** So do they when swept from outside. */
    method PruneOn(ghost a: Gate, g: int, s: int, i: int, r: int)
      requires Apart() && Mirrors(a)
      modifies top, send, inbox, register
      ensures Mirrors(Handle(a, PruneAll(g, s, i, r)))
    {
      hide PruneHits;
      var _ := PruneStale(g, s, i, r);
    }
  }
}
