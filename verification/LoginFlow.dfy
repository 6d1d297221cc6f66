/** The login route under concurrency. */
module LoginFlow {
  // The limiter is consulted before the token is tested and the failure recorded
  // after, in two separate critical sections.

  import opened Sequences
  import opened RateLimiter

  /** `pending` holds the requests that passed the check and have not answered. */
  datatype World = World(table: Table, events: seq<Event>, pending: map<nat, string>)

  const START := World(map[], [], map[])

  datatype Action =
    | Arrive(id: nat, ip: string, now: int)
    | BadToken(id: nat, now: int, victim: Option<string>)
    | GoodToken(id: nat, now: int)
    | BadForm(id: nat)

  ghost predicate NotBefore(events: seq<Event>, now: int) {
    forall i :: 0 <= i < |events| ==> events[i].now <= now
  }

  /** One critical section of one request; the token's validity is up to the caller. */
  ghost predicate Next(w: World, a: Action, w': World) {
    match a
    case Arrive(id, ip, now) =>
      && id !in w.pending && NotBefore(w.events, now)
      && w' == World(Pruned(w.table, ip, now), w.events + [Check(ip, now)],
                     if CheckVerdict(w.table, ip, now).Allowed? then w.pending[id := ip] else w.pending)
    case BadToken(id, now, victim) =>
      && id in w.pending && NotBefore(w.events, now)
      && Records(w.table, w.pending[id], now, victim, w'.table)
      && w'.events == w.events + [Failure(w.pending[id], now, victim)]
      && w'.pending == w.pending - {id}
    case GoodToken(id, now) =>
      && id in w.pending && NotBefore(w.events, now)
      && w' == World(w.table - {w.pending[id]}, w.events + [Success(w.pending[id], now)], w.pending - {id})
    case BadForm(id) =>
      id in w.pending && w' == w.(pending := w.pending - {id})
  }

  ghost predicate Flow(worlds: seq<World>, actions: seq<Action>) {
    && |worlds| == |actions| + 1
    && worlds[0] == START
    && forall i :: 0 <= i < |actions| ==> Next(worlds[i], actions[i], worlds[i + 1])
  }

  /** The requests of `ip` between check and record. */
  function InFlight(w: World, ip: string): set<nat> {
    set id | id in w.pending && w.pending[id] == ip
  }

  /** At most `n` requests of `ip` are ever between the two critical sections. */
  ghost predicate Overlap(worlds: seq<World>, ip: string, n: nat) {
    forall i :: 0 <= i < |worlds| ==> |InFlight(worlds[i], ip)| <= n
  }

  ghost predicate NeverEvicted(actions: seq<Action>, ip: string) {
    forall i :: 0 <= i < |actions| && actions[i].BadToken? ==> actions[i].victim != Some(ip)
  }

  // ---------- The route, one request at a time ----------

  const HTTP_SEE_OTHER := 303
  const HTTP_BAD_REQUEST := 400
  const HTTP_UNAUTHORIZED := 401
  const HTTP_TOO_MANY_REQUESTS := 429

  /** The check step: refused requests get a Retry-After and go no further. */
  method WithRateLimit(l: Limiter, ip: string, now: int) returns (retryAfter: Option<int>)
    modifies l
    ensures l.failures == Pruned(old(l.failures), ip, now)
    ensures retryAfter == match CheckVerdict(old(l.failures), ip, now)
      case Allowed => None
      case Refused(wait) => Some(RetryAfterSeconds(wait))
  {
    var v := l.RateLimitCheck(ip, now);
    match v {
      case Allowed => return None;
      case Refused(wait) =>
        var seconds := wait / SECOND;
        if seconds < 1 {
          seconds := 1;
        }
        return Some(seconds);
    }
  }

  /** The record step, after the form and the token have been looked at. */
  method HandleLoginPost(l: Limiter, ip: string, formOk: bool, tokenOk: bool, now: int)
    returns (status: nat, ghost victim: Option<string>)
    modifies l
    ensures status == if !formOk then HTTP_BAD_REQUEST else if tokenOk then HTTP_SEE_OTHER else HTTP_UNAUTHORIZED
    ensures !formOk ==> l.failures == old(l.failures)
    ensures formOk && tokenOk ==> l.failures == old(l.failures) - {ip}
    ensures formOk && !tokenOk ==> Records(old(l.failures), ip, now, victim, l.failures)
  {
    victim := None;
    if !formOk {
      return HTTP_BAD_REQUEST, None;
    }
    if !tokenOk {
      victim := l.RateLimitRecordFailure(ip, now);
      return HTTP_UNAUTHORIZED, victim;
    }
    l.RateLimitRecordSuccess(ip);
    return HTTP_SEE_OTHER, None;
  }

  /** A login that nothing overlaps is one or two moves of the flow below: it is
      refused or decided, and leaves no request pending. */
  method Login(l: Limiter, ghost w: World, ghost id: nat, ip: string, now: int, formOk: bool, tokenOk: bool, later: int)
    returns (status: nat, ghost mid: World, ghost w': World)
    requires w.table == l.failures && id !in w.pending && NotBefore(w.events, now) && now <= later
    modifies l
    ensures Next(w, Arrive(id, ip, now), mid)
    ensures status == HTTP_TOO_MANY_REQUESTS <==> CheckVerdict(w.table, ip, now).Refused?
    ensures status == HTTP_TOO_MANY_REQUESTS ==> w' == mid
    ensures status == HTTP_BAD_REQUEST ==> Next(mid, BadForm(id), w')
    ensures status == HTTP_UNAUTHORIZED ==> exists victim :: Next(mid, BadToken(id, later, victim), w')
    ensures status == HTTP_SEE_OTHER ==> Next(mid, GoodToken(id, later), w')
    ensures w'.table == l.failures && w'.pending == w.pending
  {
    var retryAfter := WithRateLimit(l, ip, now);
    mid := World(l.failures, w.events + [Check(ip, now)],
                 if CheckVerdict(w.table, ip, now).Allowed? then w.pending[id := ip] else w.pending);
    if retryAfter.Some? {
      return HTTP_TOO_MANY_REQUESTS, mid, mid;
    }
    ghost var victim;
    status, victim := HandleLoginPost(l, ip, formOk, tokenOk, later);
    assert mid.pending - {id} == w.pending;
    ghost var events := if !formOk then [] else if tokenOk then [Success(ip, later)] else [Failure(ip, later, victim)];
    w' := World(l.failures, mid.events + events, w.pending);
    if status == HTTP_UNAUTHORIZED {
      assert Next(mid, BadToken(id, later, victim), w');
    }
  }

  // ---------- The invariant ----------

  /** Failures `n` + CAPACITY apart in the log are at least a window apart in time. */
  ghost predicate Spread(log: seq<int>, n: nat) {
    forall j :: n + CAPACITY - 1 <= j < |log| ==> log[j - (n + CAPACITY - 1)] <= log[j] - WINDOW
  }

  ghost predicate Bounded(w: World, ip: string, n: nat) {
    && (forall now :: NotBefore(w.events, now) ==> RateLimiter.Inv(w.table, w.events, now))
    && (forall now :: NotBefore(w.events, now) ==>
         |Live(SinceCleared(w.events, ip), now)| + |InFlight(w, ip)| <= CAPACITY - 1 + n)
    && Spread(SinceCleared(w.events, ip), n)
  }

  lemma {:induction false} LiveShrinks(s: seq<int>, now: int, later: int)
    requires now <= later
    ensures |Live(s, later)| <= |Live(s, now)|
  {
    if s != [] {
      LiveShrinks(s[1..], now, later);
    }
  }

  lemma LiveSnoc(s: seq<int>, t: int, now: int)
    ensures |Live(s + [t], now)| <= |Live(s, now)| + 1
  {
    LiveConcat(s, [t], now);
    LiveBound([t], now);
  }

  /** A limiter event keeps the table on track from its own time on. */
  lemma EventTracks(w: World, e: Event, table: Table)
    requires forall now :: NotBefore(w.events, now) ==> RateLimiter.Inv(w.table, w.events, now)
    requires NotBefore(w.events, e.now) && RateLimiter.Step(w.table, e, table)
    ensures forall now :: NotBefore(w.events + [e], now) ==> RateLimiter.Inv(table, w.events + [e], now)
  {
    StepTracks(w.table, w.events, e, table);
    forall now | NotBefore(w.events + [e], now) ensures RateLimiter.Inv(table, w.events + [e], now) {
      assert (w.events + [e])[|w.events|] == e;
      LaterTracks(table, w.events + [e], e.now, now);
    }
  }

  /** A later failure appended to a spread log of which few are live. */
  lemma SpreadSnoc(log: seq<int>, now: int, n: nat)
    requires Spread(log, n) && SortedUpTo(log, now) && |Live(log + [now], now)| <= n + CAPACITY - 1
    ensures Spread(log + [now], n)
  {
    var log' := log + [now];
    var k := LiveIsTail(log', now);
    assert |log'[k..]| == |Live(log', now)|;
  }

  lemma ArriveKeeps(w: World, a: Action, w': World, ip: string, n: nat)
    requires a.Arrive? && Next(w, a, w') && Bounded(w, ip, n) && |InFlight(w', ip)| <= n
    ensures Bounded(w', ip, n)
  {
    var e := Check(a.ip, a.now);
    EventTracks(w, e, w'.table);
    ClearedSnoc(w.events, e, ip);
    VerdictOfInv(w.table, w.events, ip, a.now);
    forall now | NotBefore(w'.events, now)
      ensures |Live(SinceCleared(w'.events, ip), now)| + |InFlight(w', ip)| <= CAPACITY - 1 + n
    {
      assert w'.events[|w.events|] == e;
      assert NotBefore(w.events, now);
      LiveShrinks(SinceCleared(w.events, ip), a.now, now);
      if a.ip != ip || w'.pending == w.pending {
        assert InFlight(w', ip) == InFlight(w, ip);
      }
    }
  }

  /** The bounds that speak of time carry over when the sum does not grow. */
  lemma SumCarries(events: seq<Event>, e: Event, log: seq<int>, log': seq<int>, inFlight: nat, inFlight': nat, bound: nat)
    requires forall now :: NotBefore(events, now) ==> |Live(log, now)| + inFlight <= bound
    requires forall now :: now >= e.now ==> |Live(log', now)| + inFlight' <= |Live(log, now)| + inFlight
    ensures forall now :: NotBefore(events + [e], now) ==> |Live(log', now)| + inFlight' <= bound
  {
    forall now | NotBefore(events + [e], now) ensures |Live(log', now)| + inFlight' <= bound {
      assert (events + [e])[|events|] == e;
      forall i | 0 <= i < |events| ensures events[i].now <= now {
        assert (events + [e])[i] == events[i];
      }
      assert NotBefore(events, now);
    }
  }

  /** Answering a request of another address leaves this one's numbers alone. */
  lemma OtherAnswered(w: World, id: nat, e: Event, w': World, ip: string, n: nat)
    requires Bounded(w, ip, n) && id in w.pending && w.pending[id] != ip && e.ip != ip
    requires NotBefore(w.events, e.now) && RateLimiter.Step(w.table, e, w'.table)
    requires !Clears(e, ip)
    requires w'.events == w.events + [e] && w'.pending == w.pending - {id}
    ensures Bounded(w', ip, n)
  {
    EventTracks(w, e, w'.table);
    ClearedSnoc(w.events, e, ip);
    assert InFlight(w', ip) == InFlight(w, ip);
    SumCarries(w.events, e, SinceCleared(w.events, ip), SinceCleared(w.events, ip),
               |InFlight(w, ip)|, |InFlight(w', ip)|, CAPACITY - 1 + n);
  }

  lemma OwnInFlight(w: World, a: Action, w': World)
    requires a.BadToken? && Next(w, a, w')
    ensures |InFlight(w', w.pending[a.id])| == |InFlight(w, w.pending[a.id])| - 1
  {
    var ip := w.pending[a.id];
    assert InFlight(w', ip) == InFlight(w, ip) - {a.id} && a.id in InFlight(w, ip);
  }

  /** A failure is added to its own address, which is never the one evicted for it. */
  lemma OwnRecord(w: World, e: Event, table: Table)
    requires e.Failure? && RateLimiter.Inv(w.table, w.events, e.now) && RateLimiter.Step(w.table, e, table)
    ensures SortedUpTo(SinceCleared(w.events, e.ip), e.now)
    ensures SinceCleared(w.events + [e], e.ip) == SinceCleared(w.events, e.ip) + [e.now]
  {
    assert Tracks(w.table, w.events, e.now, e.ip);
    RoomOk(w.table, w.events, e, table);
    ClearedSnoc(w.events, e, e.ip);
  }

  lemma OwnFailure(w: World, a: Action, w': World, n: nat)
    requires a.BadToken? && Next(w, a, w') && Bounded(w, w.pending[a.id], n)
    ensures Bounded(w', w.pending[a.id], n)
  {
    var ip := w.pending[a.id];
    var e := Failure(ip, a.now, a.victim);
    var log := SinceCleared(w.events, ip);
    EventTracks(w, e, w'.table);
    OwnRecord(w, e, w'.table);
    OwnInFlight(w, a, w');
    forall now | now >= a.now
      ensures |Live(log + [a.now], now)| + |InFlight(w', ip)| <= |Live(log, now)| + |InFlight(w, ip)|
    {
      LiveSnoc(log, a.now, now);
    }
    SumCarries(w.events, e, log, log + [a.now], |InFlight(w, ip)|, |InFlight(w', ip)|, CAPACITY - 1 + n);
    assert NotBefore(w'.events, a.now);
    SpreadSnoc(log, a.now, n);
  }

  /** A cleared address starts afresh, whatever it had. */
  lemma ClearedKeeps(w: World, e: Event, w': World, ip: string, n: nat)
    requires Bounded(w, ip, n) && Clears(e, ip) && !(e.Failure? && e.ip == ip)
    requires NotBefore(w.events, e.now) && RateLimiter.Step(w.table, e, w'.table) && w'.events == w.events + [e]
    requires |InFlight(w', ip)| <= n
    ensures Bounded(w', ip, n)
  {
    EventTracks(w, e, w'.table);
    ClearedSnoc(w.events, e, ip);
  }

  lemma BadTokenKeeps(w: World, a: Action, w': World, ip: string, n: nat)
    requires a.BadToken? && Next(w, a, w') && Bounded(w, ip, n) && |InFlight(w', ip)| <= n
    ensures Bounded(w', ip, n)
  {
    var e := Failure(w.pending[a.id], a.now, a.victim);
    if e.ip == ip {
      OwnFailure(w, a, w', n);
    } else if Clears(e, ip) {
      ClearedKeeps(w, e, w', ip, n);
    } else {
      OtherAnswered(w, a.id, e, w', ip, n);
    }
  }

  lemma GoodTokenKeeps(w: World, a: Action, w': World, ip: string, n: nat)
    requires a.GoodToken? && Next(w, a, w') && Bounded(w, ip, n) && |InFlight(w', ip)| <= n
    ensures Bounded(w', ip, n)
  {
    var e := Success(w.pending[a.id], a.now);
    if e.ip == ip {
      ClearedKeeps(w, e, w', ip, n);
    } else {
      OtherAnswered(w, a.id, e, w', ip, n);
    }
  }

  lemma BadFormKeeps(w: World, a: Action, w': World, ip: string, n: nat)
    requires a.BadForm? && Next(w, a, w') && Bounded(w, ip, n)
    ensures Bounded(w', ip, n)
  {
    assert InFlight(w', ip) == InFlight(w, ip) - {a.id};
  }

  lemma StartBounded(ip: string, n: nat)
    ensures Bounded(START, ip, n)
  {
    forall now ensures RateLimiter.Inv(map[], [], now) {
      forall other ensures Tracks(map[], [], now, other) {}
    }
    assert InFlight(START, ip) == {};
  }

  /** In every reachable state, live failures since it was last cleared and undecided
      requests of an address together stay within the capacity plus the overlap less one. */
  lemma {:induction false} FlowBounded(worlds: seq<World>, actions: seq<Action>, ip: string, n: nat)
    requires Flow(worlds, actions) && Overlap(worlds, ip, n)
    ensures Bounded(worlds[|actions|], ip, n)
  {
    if actions == [] {
      StartBounded(ip, n);
    } else {
      var k := |actions| - 1;
      FlowBounded(worlds[..k + 1], actions[..k], ip, n);
      var w, a, w' := worlds[k], actions[k], worlds[k + 1];
      match a {
        case Arrive(_, _, _) => ArriveKeeps(w, a, w', ip, n);
        case BadToken(_, _, _) => BadTokenKeeps(w, a, w', ip, n);
        case GoodToken(_, _) => GoodTokenKeeps(w, a, w', ip, n);
        case BadForm(_) => BadFormKeeps(w, a, w', ip, n);
      }
    }
  }

  // ---------- Any window of the history ----------

  function Within(from: int): int -> bool {
    t => from < t <= from + WINDOW
  }

  function CountIn(s: seq<int>, from: int): nat {
    Count(Within(from), s)
  }

  lemma FirstAfter(s: seq<int>, from: int) returns (k: nat)
    requires forall i, j :: 0 <= i < j < |s| ==> s[i] <= s[j]
    ensures k <= |s| && (forall i :: 0 <= i < k ==> s[i] <= from) && (forall i :: k <= i < |s| ==> s[i] > from)
  {
    k := 0;
    while k < |s| && s[k] <= from
      invariant k <= |s| && forall i :: 0 <= i < k ==> s[i] <= from
    {
      k := k + 1;
    }
  }

  lemma WindowIndices(log: seq<int>, n: nat, from: int) returns (lo: nat, hi: nat)
    requires Spread(log, n) && forall i, j :: 0 <= i < j < |log| ==> log[i] <= log[j]
    ensures lo <= hi <= |log| && hi - lo <= n + CAPACITY - 1
    ensures forall i :: 0 <= i < lo || hi <= i < |log| ==> !(from < log[i] <= from + WINDOW)
  {
    lo := FirstAfter(log, from);
    hi := FirstAfter(log, from + WINDOW);
    var d := n + CAPACITY - 1;
    assert lo > 0 ==> log[lo - 1] <= from;
    assert hi - 1 >= d ==> log[hi - 1 - d] <= log[hi - 1] - WINDOW;
  }

  lemma SpreadBoundsWindow(log: seq<int>, n: nat, from: int)
    requires Spread(log, n) && forall i, j :: 0 <= i < j < |log| ==> log[i] <= log[j]
    ensures CountIn(log, from) <= n + CAPACITY - 1
  {
    var p := Within(from);
    var lo, hi := WindowIndices(log, n, from);
    CountZero(p, log[..lo]);
    CountZero(p, log[hi..]);
    CountLength(p, log[lo..hi]);
    CountParts(p, log, lo, hi);
  }

  /** With at most `n` overlapping requests, no window of WINDOW holds more than 4 + n
      failures of an address since its last success or eviction; serially, at most five. */
  lemma LoginBound(worlds: seq<World>, actions: seq<Action>, ip: string, n: nat, from: int)
    requires Flow(worlds, actions) && Overlap(worlds, ip, n)
    ensures CountIn(SinceCleared(worlds[|actions|].events, ip), from) <= 4 + n
  {
    FlowBounded(worlds, actions, ip, n);
    var w := worlds[|actions|];
    var now := Latest(w.events);
    assert RateLimiter.Inv(w.table, w.events, now) && Tracks(w.table, w.events, now, ip);
    SpreadBoundsWindow(SinceCleared(w.events, ip), n, from);
  }

  /** Without evictions the record is the full log. */
  lemma {:induction false} NothingEvicted(worlds: seq<World>, actions: seq<Action>, ip: string)
    requires Flow(worlds, actions) && NeverEvicted(actions, ip)
    ensures SinceCleared(worlds[|actions|].events, ip) == Log(worlds[|actions|].events, ip)
  {
    if actions != [] {
      var k := |actions| - 1;
      NothingEvicted(worlds[..k + 1], actions[..k], ip);
      var w, a, w' := worlds[k], actions[k], worlds[k + 1];
      if w'.events != w.events {
        var e := w'.events[|w.events|];
        assert w'.events == w.events + [e];
        LogSnoc(w.events, e, ip);
        ClearedSnoc(w.events, e, ip);
      }
    }
  }

  /** So an address that was never evicted has at most 4 + n failures since its last
      success in any window. */
  lemma LoginBoundUnlessEvicted(worlds: seq<World>, actions: seq<Action>, ip: string, n: nat, from: int)
    requires Flow(worlds, actions) && Overlap(worlds, ip, n) && NeverEvicted(actions, ip)
    ensures CountIn(Log(worlds[|actions|].events, ip), from) <= 4 + n
  {
    LoginBound(worlds, actions, ip, n, from);
    NothingEvicted(worlds, actions, ip);
  }

  lemma Latest(events: seq<Event>) returns (now: int)
    ensures NotBefore(events, now)
  {
    now := 0;
    for i := 0 to |events|
      invariant forall k :: 0 <= k < i ==> events[k].now <= now
    {
      if events[i].now > now {
        now := events[i].now;
      }
    }
  }

  // ---------- The bound is reached ----------

  /** A flow whose last world shows `f` failures at time 0 and `p` undecided
      requests, all of one address, with never more than `n` undecided. */
  ghost predicate Shows(worlds: seq<World>, actions: seq<Action>, ip: string, f: nat, p: nat, n: nat) {
    && Flow(worlds, actions) && Overlap(worlds, ip, n) && NeverEvicted(actions, ip)
    && p <= n && Snapshot(worlds[|actions|], ip, f, p)
  }

  ghost predicate Snapshot(w: World, ip: string, f: nat, p: nat) {
    && NotBefore(w.events, 0)
    && w.table == (if f == 0 then map[] else map[ip := Zeros(f)])
    && Log(w.events, ip) == Zeros(f)
    && w.pending == Waiting(ip, p)
  }

  /** The first `p` request ids, all of one address. */
  function Waiting(ip: string, p: nat): map<nat, string> {
    if p == 0 then map[] else Waiting(ip, p - 1)[p - 1 := ip]
  }

  lemma {:induction false} WaitingCount(ip: string, p: nat)
    ensures forall id :: id in Waiting(ip, p) ==> id < p && Waiting(ip, p)[id] == ip
    ensures |Waiting(ip, p).Keys| == p
  {
    if p > 0 {
      WaitingCount(ip, p - 1);
      assert Waiting(ip, p).Keys == Waiting(ip, p - 1).Keys + {p - 1};
    }
  }

  lemma PendingCount(w: World, ip: string, p: nat)
    requires w.pending == Waiting(ip, p)
    ensures |InFlight(w, ip)| == p && p !in w.pending
    ensures p > 0 ==> w.pending - {p - 1} == Waiting(ip, p - 1) && p - 1 in w.pending && w.pending[p - 1] == ip
  {
    WaitingCount(ip, p);
    assert InFlight(w, ip) == Waiting(ip, p).Keys;
    if p > 0 {
      WaitingCount(ip, p - 1);
    }
  }

  lemma Extend(worlds: seq<World>, actions: seq<Action>, a: Action, w': World, ip: string, n: nat)
    requires Flow(worlds, actions) && Overlap(worlds, ip, n) && NeverEvicted(actions, ip)
    requires Next(worlds[|actions|], a, w') && |InFlight(w', ip)| <= n && (a.BadToken? ==> a.victim != Some(ip))
    ensures Flow(worlds + [w'], actions + [a]) && Overlap(worlds + [w'], ip, n) && NeverEvicted(actions + [a], ip)
  {
    var ws, as' := worlds + [w'], actions + [a];
    forall i | 0 <= i < |as'| ensures Next(ws[i], as'[i], ws[i + 1]) {
      assert i < |actions| ==> Next(worlds[i], actions[i], worlds[i + 1]);
    }
  }

  lemma ShowsNext(worlds: seq<World>, actions: seq<Action>, a: Action, w': World,
                  ip: string, f: nat, p: nat, f': nat, p': nat, n: nat)
    requires Shows(worlds, actions, ip, f, p, n) && p' <= n && (a.BadToken? ==> a.victim != Some(ip))
    requires Next(worlds[|actions|], a, w') && Snapshot(w', ip, f', p')
    ensures Shows(worlds + [w'], actions + [a], ip, f', p', n)
  {
    PendingCount(w', ip, p');
    Extend(worlds, actions, a, w', ip, n);
  }

  lemma ArriveOnce(w: World, ip: string, f: nat, p: nat, p': nat) returns (a: Action, w': World)
    requires Snapshot(w, ip, f, p) && f < CAPACITY && p' == p + 1
    ensures Next(w, a, w') && Snapshot(w', ip, f, p') && !a.BadToken?
  {
    ZerosLive(f, 0);
    a := Arrive(p, ip, 0);
    w' := World(Pruned(w.table, ip, 0), w.events + [Check(ip, 0)], w.pending[p := ip]);
    assert w'.table == w.table;
    LogSnoc(w.events, Check(ip, 0), ip);
    PendingCount(w, ip, p);
  }

  lemma OneArrives(worlds: seq<World>, actions: seq<Action>, ip: string, f: nat, p: nat, p': nat, n: nat)
    returns (worlds': seq<World>, actions': seq<Action>)
    requires Shows(worlds, actions, ip, f, p, n) && f < CAPACITY && p' == p + 1 && p' <= n
    ensures Shows(worlds', actions', ip, f, p', n)
  {
    var a, w' := ArriveOnce(worlds[|actions|], ip, f, p, p');
    ShowsNext(worlds, actions, a, w', ip, f, p, f, p', n);
    return worlds + [w'], actions + [a];
  }

  lemma FailOnce(w: World, ip: string, f: nat, p: nat, f': nat, p': nat) returns (a: Action, w': World)
    requires Snapshot(w, ip, f, p) && f' == f + 1 && p == p' + 1
    ensures Next(w, a, w') && Snapshot(w', ip, f', p') && (a.BadToken? ==> a.victim != Some(ip))
  {
    var e := Failure(ip, 0, None);
    a := BadToken(p', 0, None);
    w' := World(map[ip := Zeros(f')], w.events + [e], w.pending - {p'});
    ZerosRecorded(ip, f);
    ZerosLive(f, 0);
    LogSnoc(w.events, e, ip);
    PendingCount(w, ip, p);
  }

  lemma ZerosRecorded(ip: string, f: nat)
    ensures Records(if f == 0 then map[] else map[ip := Zeros(f)], ip, 0, None, map[ip := Zeros(f + 1)])
  {
    var m: Table := if f == 0 then map[] else map[ip := Zeros(f)];
    ZerosLive(f, 0);
    assert Pruned(m, ip, 0) == m;
  }

  lemma OneFails(worlds: seq<World>, actions: seq<Action>, ip: string, f: nat, p: nat, f': nat, p': nat, n: nat)
    returns (worlds': seq<World>, actions': seq<Action>)
    requires Shows(worlds, actions, ip, f, p, n) && f' == f + 1 && p == p' + 1
    ensures Shows(worlds', actions', ip, f', p', n)
  {
    var a, w' := FailOnce(worlds[|actions|], ip, f, p, f', p');
    ShowsNext(worlds, actions, a, w', ip, f, p, f', p', n);
    return worlds + [w'], actions + [a];
  }

  lemma {:induction false} SomeArrive(worlds: seq<World>, actions: seq<Action>, ip: string, f: nat, p: nat, n: nat)
    returns (worlds': seq<World>, actions': seq<Action>)
    requires Shows(worlds, actions, ip, f, p, n) && f < CAPACITY
    ensures Shows(worlds', actions', ip, f, n, n)
    decreases n - p
  {
    if p == n {
      return worlds, actions;
    }
    worlds', actions' := OneArrives(worlds, actions, ip, f, p, p + 1, n);
    worlds', actions' := SomeArrive(worlds', actions', ip, f, p + 1, n);
  }

  lemma {:induction false} AllFail(worlds: seq<World>, actions: seq<Action>, ip: string, f: nat, p: nat, n: nat)
    returns (worlds': seq<World>, actions': seq<Action>)
    requires Shows(worlds, actions, ip, f, p, n)
    ensures Shows(worlds', actions', ip, f + p, 0, n)
    decreases p
  {
    if p == 0 {
      return worlds, actions;
    }
    worlds', actions' := OneFails(worlds, actions, ip, f, p, f + 1, p - 1, n);
    worlds', actions' := AllFail(worlds', actions', ip, f + 1, p - 1, n);
  }

  lemma {:induction false} SerialFailures(ip: string, f: nat, n: nat)
    returns (worlds: seq<World>, actions: seq<Action>)
    requires f < CAPACITY && n >= 1
    ensures Shows(worlds, actions, ip, f, 0, n)
  {
    if f == 0 {
      worlds, actions := [START], [];
      assert InFlight(START, ip) == {};
    } else {
      worlds, actions := SerialFailures(ip, f - 1, n);
      worlds, actions := OneArrives(worlds, actions, ip, f - 1, 0, 1, n);
      worlds, actions := OneFails(worlds, actions, ip, f - 1, 1, f, 0, n);
    }
  }

  lemma {:induction false} ZerosCounted(f: nat)
    ensures CountIn(Zeros(f), -1) == f
  {
    if f > 0 {
      ZerosCounted(f - 1);
      assert Zeros(f)[1..] == Zeros(f - 1);
    }
  }

  /** The bound is sharp: for every overlap some flow records 4 + n failures in one
      window, so the advertised capacity of five holds exactly without overlap. */
  lemma BoundIsReached(ip: string, n: nat) returns (worlds: seq<World>, actions: seq<Action>)
    requires n >= 1
    ensures Flow(worlds, actions) && Overlap(worlds, ip, n) && NeverEvicted(actions, ip)
    ensures CountIn(Log(worlds[|actions|].events, ip), -1) == 4 + n
    ensures CountIn(SinceCleared(worlds[|actions|].events, ip), -1) == 4 + n
  {
    worlds, actions := SerialFailures(ip, 4, n);
    worlds, actions := SomeArrive(worlds, actions, ip, 4, 0, n);
    worlds, actions := AllFail(worlds, actions, ip, 4, n, n);
    ZerosCounted(4 + n);
    NothingEvicted(worlds, actions, ip);
  }

  /** The advertised limit of five failures per window, counted since the last success
      or eviction, holds for every flow with overlap `n` if and only if requests of an
      address never overlap. */
  lemma FiveExactlyWhenSerial(n: nat)
    ensures (forall worlds: seq<World>, actions: seq<Action>, ip: string, from: int ::
      Flow(worlds, actions) && Overlap(worlds, ip, n) ==>
        CountIn(SinceCleared(worlds[|actions|].events, ip), from) <= CAPACITY) <==> n <= 1
  {
    if n <= 1 {
      forall worlds: seq<World>, actions: seq<Action>, ip: string, from: int
        | Flow(worlds, actions) && Overlap(worlds, ip, n)
        ensures CountIn(SinceCleared(worlds[|actions|].events, ip), from) <= CAPACITY
      {
        LoginBound(worlds, actions, ip, n, from);
      }
    } else {
      var worlds, actions := BoundIsReached("ip", n);
      assert CountIn(SinceCleared(worlds[|actions|].events, "ip"), -1) > CAPACITY;
    }
  }

  /** Counted since the last success alone, the same holds unless evicted. */
  lemma FiveUnlessEvicted(n: nat)
    ensures (forall worlds: seq<World>, actions: seq<Action>, ip: string, from: int ::
      Flow(worlds, actions) && Overlap(worlds, ip, n) && NeverEvicted(actions, ip) ==>
        CountIn(Log(worlds[|actions|].events, ip), from) <= CAPACITY) <==> n <= 1
  {
    if n <= 1 {
      forall worlds: seq<World>, actions: seq<Action>, ip: string, from: int
        | Flow(worlds, actions) && Overlap(worlds, ip, n) && NeverEvicted(actions, ip)
        ensures CountIn(Log(worlds[|actions|].events, ip), from) <= CAPACITY
      {
        LoginBoundUnlessEvicted(worlds, actions, ip, n, from);
      }
    } else {
      var worlds, actions := BoundIsReached("ip", n);
      assert CountIn(Log(worlds[|actions|].events, "ip"), -1) > CAPACITY;
    }
  }
}
