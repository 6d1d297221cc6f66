/** The per-address login limiter. */
module RateLimiter {
  // A table that is pruned, swept and capped, against the plain rule "count the
  // failures in the full log".

  import opened Sequences

  /** Times and durations are nanoseconds. */
  const SECOND := 1_000_000_000
  const WINDOW := 900_000_000_000
  const CAPACITY := 5
  const MAX_IPS := 10000

  type Table = map<string, seq<int>>

  datatype Verdict = Allowed | Refused(retryAfter: int)

  // ---------- What the operations compute ----------

  /** The failures still inside the window that ends at `now`. */
  function Live(fails: seq<int>, now: int): seq<int> {
    if fails == [] then [] else (if fails[0] > now - WINDOW then [fails[0]] else []) + Live(fails[1..], now)
  }

  function Get(m: Table, ip: string): seq<int> {
    if ip in m then m[ip] else []
  }

  function Pruned(m: Table, ip: string, now: int): Table {
    if Get(m, ip) == [] then m
    else if Live(m[ip], now) == [] then m - {ip}
    else m[ip := Live(m[ip], now)]
  }

  function Swept(m: Table, now: int): Table {
    map ip | ip in m && m[ip] != [] && m[ip][|m[ip]| - 1] > now - WINDOW :: m[ip]
  }

  function NonEmpty(m: Table): Table {
    map ip | ip in m && m[ip] != [] :: m[ip]
  }

  function Judge(fails: seq<int>, now: int): Verdict {
    if |fails| < CAPACITY then Allowed
    else
      var wait := WINDOW - (now - fails[0]);
      Refused(if wait < 0 then 0 else wait)
  }

  function CheckVerdict(m: Table, ip: string, now: int): Verdict {
    Judge(Live(Get(m, ip), now), now)
  }

  /** `v` has a newest failure that is no later than anyone else's. */
  ghost predicate LeastRecent(m: Table, v: string) {
    && v in m && m[v] != []
    && forall ip :: ip in m && m[ip] != [] ==> m[v][|m[v]| - 1] <= m[ip][|m[ip]| - 1]
  }

  /** One recorded failure; `victim` is the address evicted to make room. */
  ghost predicate Records(m: Table, ip: string, now: int, victim: Option<string>, m': Table) {
    var p := Pruned(m, ip, now);
    var q := Swept(p, now);
    if ip in p || |p| < MAX_IPS then victim == None && m' == p[ip := Live(Get(m, ip), now) + [now]]
    else if |q| < MAX_IPS then victim == None && m' == q[ip := Live(Get(m, ip), now) + [now]]
    else victim.Some? && LeastRecent(q, victim.value) && m' == (q - {victim.value})[ip := Live(Get(m, ip), now) + [now]]
  }

  // ---------- The limiter ----------

  class Limiter {
    var failures: Table

    constructor ()
      ensures failures == map[]
    {
      failures := map[];
    }

    static method KeepLive(fails: seq<int>, now: int) returns (keep: seq<int>)
      ensures keep == Live(fails, now)
    {
      var cutoff := now - WINDOW;
      keep := [];
      for i := 0 to |fails|
        invariant keep == Live(fails[..i], now)
      {
        LiveConcat(fails[..i], [fails[i]], now);
        assert fails[..i + 1] == fails[..i] + [fails[i]];
        if fails[i] > cutoff {
          keep := keep + [fails[i]];
        }
      }
      assert fails[..|fails|] == fails;
    }

    method Prune(ip: string, now: int) returns (keep: seq<int>)
      modifies this
      ensures failures == Pruned(old(failures), ip, now) && keep == Live(Get(old(failures), ip), now)
    {
      var fails := if ip in failures then failures[ip] else [];
      if |fails| == 0 {
        return [];
      }
      keep := KeepLive(fails, now);
      if |keep| == 0 {
        failures := failures - {ip};
        return [];
      }
      failures := failures[ip := keep];
    }

    /** Walks the map in any order, deleting on the way. */
    method SweepExpired(now: int)
      modifies this
      ensures failures == Swept(old(failures), now)
    {
      var cutoff := now - WINDOW;
      ghost var before := failures;
      var rest := failures.Keys;
      while rest != {}
        invariant rest <= before.Keys
        invariant forall ip :: ip in failures <==> ip in before && (ip in rest || ip in Swept(before, now))
        invariant forall ip :: ip in failures ==> failures[ip] == before[ip]
        decreases |rest|
      {
        var ip :| ip in rest;
        rest := rest - {ip};
        var fails := failures[ip];
        if |fails| == 0 || !(fails[|fails| - 1] > cutoff) {
          failures := failures - {ip};
        }
      }
    }

    /** Walks the map in any order; entries without failures go as well. */
    method EvictOldest() returns (ghost victim: Option<string>)
      modifies this
      ensures victim.None? ==> NonEmpty(old(failures)) == map[] == failures
      ensures victim.Some? ==> LeastRecent(old(failures), victim.value)
      ensures victim.Some? ==> failures == NonEmpty(old(failures)) - {victim.value}
    {
      ghost var before := failures;
      var oldestIP, oldestTime, seen := "", 0, false;
      var rest := failures.Keys;
      while rest != {}
        invariant rest <= before.Keys
        invariant failures == map ip | ip in before && (ip in rest || before[ip] != []) :: before[ip]
        invariant seen ==> oldestIP in before && oldestIP !in rest && before[oldestIP] != []
        invariant seen ==> oldestTime == before[oldestIP][|before[oldestIP]| - 1]
        invariant forall ip :: ip in before && ip !in rest && before[ip] != [] ==>
          seen && oldestTime <= before[ip][|before[ip]| - 1]
        decreases |rest|
      {
        var ip :| ip in rest;
        rest := rest - {ip};
        var fails := failures[ip];
        if |fails| == 0 {
          failures := failures - {ip};
        } else {
          var newest := fails[|fails| - 1];
          if !seen || newest < oldestTime {
            oldestIP, oldestTime, seen := ip, newest, true;
          }
        }
      }
      assert failures == NonEmpty(before);
      if seen {
        failures := failures - {oldestIP};
        return Some(oldestIP);
      }
      return None;
    }

    method RateLimitCheck(ip: string, now: int) returns (v: Verdict)
      modifies this
      ensures v == CheckVerdict(old(failures), ip, now) && failures == Pruned(old(failures), ip, now)
    {
      var fails := Prune(ip, now);
      if |fails| >= CAPACITY {
        var wait := WINDOW - (now - fails[0]);
        if wait < 0 {
          wait := 0;
        }
        return Refused(wait);
      }
      return Allowed;
    }

    method RateLimitRecordFailure(ip: string, now: int) returns (ghost victim: Option<string>)
      modifies this
      ensures Records(old(failures), ip, now, victim, failures)
    {
      victim := None;
      var fails := Prune(ip, now);
      if ip !in failures && |failures| >= MAX_IPS {
        SweepExpired(now);
        if |failures| >= MAX_IPS {
          ghost var q := failures;
          victim := EvictOldest();
          assert NonEmpty(q) == q;
        }
      }
      failures := failures[ip := fails + [now]];
    }

    method RateLimitRecordSuccess(ip: string)
      modifies this
      ensures failures == old(failures) - {ip}
    {
      failures := failures - {ip};
    }
  }

  // ---------- Runs and their log ----------

  datatype Event =
    | Check(ip: string, now: int)
    | Failure(ip: string, now: int, victim: Option<string>)
    | Success(ip: string, now: int)

  ghost predicate Step(m: Table, e: Event, m': Table) {
    match e
    case Check(ip, now) => m' == Pruned(m, ip, now)
    case Failure(ip, now, victim) => Records(m, ip, now, victim, m')
    case Success(ip, now) => m' == m - {ip}
  }

  ghost predicate Run(tables: seq<Table>, events: seq<Event>) {
    && |tables| == |events| + 1
    && forall i :: 0 <= i < |events| ==> Step(tables[i], events[i], tables[i + 1])
  }

  /** The clock never goes back, and `now` is not before the last event. */
  ghost predicate ClockOk(events: seq<Event>, now: int) {
    && (forall i, j :: 0 <= i < j < |events| ==> events[i].now <= events[j].now)
    && (forall i :: 0 <= i < |events| ==> events[i].now <= now)
  }

  /** Every failure of `ip` since its last success, however long ago. */
  function Log(events: seq<Event>, ip: string): seq<int> {
    if events == [] then []
    else
      var n := |events| - 1;
      var e := events[n];
      if e.Success? && e.ip == ip then []
      else if e.Failure? && e.ip == ip then Log(events[..n], ip) + [e.now]
      else Log(events[..n], ip)
  }

  /** A success of `ip`, or a failure that makes room by evicting it. */
  predicate Clears(e: Event, ip: string) {
    (e.Success? && e.ip == ip) || (e.Failure? && e.victim == Some(ip))
  }

  /** Every failure of `ip` since it was last cleared. */
  function SinceCleared(events: seq<Event>, ip: string): seq<int> {
    if events == [] then []
    else
      var n := |events| - 1;
      var e := events[n];
      var before := if Clears(e, ip) then [] else SinceCleared(events[..n], ip);
      if e.Failure? && e.ip == ip then before + [e.now] else before
  }

  /** When `ip` was last evicted, if at all since its last success. */
  function Evicted(events: seq<Event>, ip: string): Option<int> {
    if events == [] then None
    else
      var n := |events| - 1;
      var e := events[n];
      if e.Success? && e.ip == ip then None
      else if e.Failure? && e.victim == Some(ip) then Some(e.now)
      else Evicted(events[..n], ip)
  }

  /** No eviction of `ip` can still matter at `now`. */
  ghost predicate Unaffected(events: seq<Event>, ip: string, now: int) {
    Evicted(events, ip).Some? ==> Evicted(events, ip).value <= now - WINDOW
  }

  // ---------- Facts about Live ----------

  ghost predicate SortedUpTo(s: seq<int>, now: int) {
    && (forall i, j :: 0 <= i < j < |s| ==> s[i] <= s[j])
    && (forall i :: 0 <= i < |s| ==> s[i] <= now)
  }

  lemma {:induction false} LiveConcat(a: seq<int>, b: seq<int>, now: int)
    ensures Live(a + b, now) == Live(a, now) + Live(b, now)
  {
    if a == [] {
      assert a + b == b;
    } else {
      assert (a + b)[1..] == a[1..] + b;
      LiveConcat(a[1..], b, now);
    }
  }

  lemma {:induction false} LiveOfOld(s: seq<int>, now: int)
    requires forall i :: 0 <= i < |s| ==> s[i] <= now - WINDOW
    ensures Live(s, now) == []
  {
    if s != [] {
      LiveOfOld(s[1..], now);
    }
  }

  lemma {:induction false} LiveOfFresh(s: seq<int>, now: int)
    requires forall i :: 0 <= i < |s| ==> s[i] > now - WINDOW
    ensures Live(s, now) == s
  {
    if s != [] {
      LiveOfFresh(s[1..], now);
    }
  }

  /** On a sorted list the live failures are the tail after the expired ones. */
  lemma {:induction false} LiveIsTail(s: seq<int>, now: int) returns (k: nat)
    requires forall i, j :: 0 <= i < j < |s| ==> s[i] <= s[j]
    ensures k <= |s| && Live(s, now) == s[k..]
    ensures forall i :: 0 <= i < k ==> s[i] <= now - WINDOW
    ensures forall i :: k <= i < |s| ==> s[i] > now - WINDOW
  {
    if s == [] || s[0] > now - WINDOW {
      LiveOfFresh(s, now);
      return 0;
    }
    var t := s[1..];
    k := LiveIsTail(t, now);
    TailShift(s, k, now - WINDOW);
    k := k + 1;
  }

  lemma TailShift(s: seq<int>, k: nat, cutoff: int)
    requires s != [] && k < |s| && s[0] <= cutoff
    requires forall i :: 0 <= i < k ==> s[1..][i] <= cutoff
    requires forall i :: k <= i < |s| - 1 ==> s[1..][i] > cutoff
    ensures s[1..][k..] == s[k + 1..]
    ensures forall i :: 0 <= i < k + 1 ==> s[i] <= cutoff
    ensures forall i :: k + 1 <= i < |s| ==> s[i] > cutoff
  {
    var t := s[1..];
    forall i | 0 < i < |s| ensures s[i] == t[i - 1] {}
  }

  // ---------- The table against the log ----------

  /** `fails` is the log without a head that lies at or before `cut`. */
  ghost predicate Covers(fails: seq<int>, log: seq<int>, cut: int) {
    IsSuffix(fails, log) && forall i :: 0 <= i < |log| - |fails| ==> log[i] <= cut
  }

  ghost predicate TableOk(m: Table, now: int) {
    |m| <= MAX_IPS && forall ip :: ip in m ==> m[ip] != [] && SortedUpTo(m[ip], now)
  }

  ghost predicate Tracks(m: Table, events: seq<Event>, now: int, ip: string) {
    && SortedUpTo(SinceCleared(events, ip), now)
    && Covers(Get(m, ip), SinceCleared(events, ip), now - WINDOW)
  }

  ghost predicate Inv(m: Table, events: seq<Event>, now: int) {
    TableOk(m, now) && forall ip :: Tracks(m, events, now, ip)
  }

  lemma LaterTracks(m: Table, events: seq<Event>, now: int, later: int)
    requires Inv(m, events, now) && now <= later
    ensures Inv(m, events, later)
  {
    forall ip ensures Tracks(m, events, later, ip) {
      assert Tracks(m, events, now, ip);
    }
  }

  /** Dropping `k` more entries that lie at or before the cut keeps the cover. */
  lemma CoversTail(fails: seq<int>, log: seq<int>, cut: int, k: nat)
    requires Covers(fails, log, cut) && k <= |fails|
    requires forall i :: 0 <= i < k ==> fails[i] <= cut
    ensures Covers(fails[k..], log, cut)
  {
    var d := |log| - |fails|;
    forall i | 0 <= i < d + k ensures log[i] <= cut {
      if i >= d {
        assert log[d..][i - d] == log[i];
      }
    }
    assert log[d + k..] == log[d..][k..];
  }

  lemma SuffixSorted(a: seq<int>, b: seq<int>, now: int)
    requires SortedUpTo(b, now) && IsSuffix(a, b)
    ensures SortedUpTo(a, now)
  {
    var d := |b| - |a|;
    assert forall i :: 0 <= i < |a| ==> a[i] == b[d + i];
  }

  lemma LiveCovers(fails: seq<int>, log: seq<int>, cut: int, now: int)
    requires SortedUpTo(log, now) && Covers(fails, log, cut) && cut >= now - WINDOW
    ensures Covers(Live(fails, now), log, cut) && SortedUpTo(Live(fails, now), now)
  {
    SuffixSorted(fails, log, now);
    var k := LiveIsTail(fails, now);
    CoversTail(fails, log, cut, k);
    SuffixSorted(fails[k..], log, now);
  }

  lemma MapSize(m: Table, ip: string, list: seq<int>)
    ensures |m[ip := list]| == if ip in m then |m| else |m| + 1
    ensures |m - {ip}| == if ip in m then |m| - 1 else |m|
  {
    assert m[ip := list].Keys == m.Keys + {ip};
    assert (m - {ip}).Keys == m.Keys - {ip};
  }

  lemma SweptSize(m: Table, now: int)
    ensures |Swept(m, now)| <= |m|
  {
    assert Swept(m, now).Keys <= m.Keys;
    SubsetSize(Swept(m, now).Keys, m.Keys);
  }

  lemma {:induction false} SubsetSize<T>(a: set<T>, b: set<T>)
    requires a <= b
    ensures |a| <= |b|
  {
    assert b == a + (b - a);
  }

  lemma SameGet(m: Table, m': Table, events: seq<Event>, now: int, ip: string)
    requires Tracks(m, events, now, ip) && Get(m, ip) == Get(m', ip)
    ensures Tracks(m', events, now, ip)
  {
  }

  lemma PrunedGet(m: Table, ip: string, now: int, other: string)
    ensures Get(Pruned(m, ip, now), other) == if other == ip then Live(Get(m, ip), now) else Get(m, other)
    ensures |Pruned(m, ip, now)| <= |m|
  {
    MapSize(m, ip, Live(Get(m, ip), now));
  }

  /** Pruning one address keeps every address on track. */
  lemma PruneTracks(m: Table, events: seq<Event>, ip: string, now: int)
    requires Inv(m, events, now)
    ensures Inv(Pruned(m, ip, now), events, now)
    ensures Get(Pruned(m, ip, now), ip) == Live(Get(m, ip), now)
  {
    var p := Pruned(m, ip, now);
    PrunedGet(m, ip, now, ip);
    assert Tracks(m, events, now, ip);
    LiveCovers(Get(m, ip), SinceCleared(events, ip), now - WINDOW, now);
    forall other ensures Tracks(p, events, now, other) {
      assert Tracks(m, events, now, other);
      if other != ip {
        PrunedGet(m, ip, now, other);
        SameGet(m, p, events, now, other);
      }
    }
  }

  lemma SweptGet(m: Table, now: int, ip: string)
    requires TableOk(m, now)
    ensures Get(Swept(m, now), ip) == Get(m, ip)
      || (Get(Swept(m, now), ip) == [] && forall i :: 0 <= i < |Get(m, ip)| ==> Get(m, ip)[i] <= now - WINDOW)
  {
    if ip in m && ip !in Swept(m, now) {
      assert forall i :: 0 <= i < |m[ip]| ==> m[ip][i] <= m[ip][|m[ip]| - 1];
    }
  }

  lemma SweepTracks(m: Table, events: seq<Event>, now: int)
    requires Inv(m, events, now)
    ensures Inv(Swept(m, now), events, now)
  {
    var q := Swept(m, now);
    SweptSize(m, now);
    forall ip ensures Tracks(q, events, now, ip) {
      assert Tracks(m, events, now, ip);
      SweptGet(m, now, ip);
      if Get(q, ip) == Get(m, ip) {
        SameGet(m, q, events, now, ip);
      } else {
        CoversTail(Get(m, ip), SinceCleared(events, ip), now - WINDOW, |Get(m, ip)|);
      }
    }
  }

  lemma LogSnoc(events: seq<Event>, e: Event, ip: string)
    ensures Log(events + [e], ip) ==
      if e.ip == ip && e.Success? then [] else if e.ip == ip && e.Failure? then Log(events, ip) + [e.now] else Log(events, ip)
    ensures Evicted(events + [e], ip) ==
      if e.ip == ip && e.Success? then None
      else if e.Failure? && e.victim == Some(ip) then Some(e.now) else Evicted(events, ip)
  {
    assert (events + [e])[..|events|] == events;
  }

  lemma ClearedSnoc(events: seq<Event>, e: Event, ip: string)
    ensures SinceCleared(events + [e], ip) ==
      (if Clears(e, ip) then [] else SinceCleared(events, ip)) + if e.Failure? && e.ip == ip then [e.now] else []
  {
    assert (events + [e])[..|events|] == events;
  }

  lemma AppendCovers(live: seq<int>, log: seq<int>, cut: int, now: int)
    requires Covers(live, log, cut) && SortedUpTo(log, now)
    ensures Covers(live + [now], log + [now], cut) && SortedUpTo(log + [now], now)
  {
    assert (log + [now])[|log| - |live|..] == log[|log| - |live|..] + [now];
  }

  /** An event leaves the record of a third address alone. */
  lemma OtherTracks(m: Table, events: seq<Event>, e: Event, ip: string)
    requires Tracks(m, events, e.now, ip) && e.ip != ip && !Clears(e, ip)
    ensures Tracks(m, events + [e], e.now, ip)
  {
    ClearedSnoc(events, e, ip);
  }

  /** The room made for a new address: pruned, then swept and evicted if full. */
  function Room(m: Table, e: Event): Table
    requires e.Failure?
  {
    var p := Pruned(m, e.ip, e.now);
    var q := Swept(p, e.now);
    if e.ip in p || |p| < MAX_IPS then p
    else if |q| < MAX_IPS || e.victim.None? then q
    else q - {e.victim.value}
  }

  lemma RoomOk(m: Table, events: seq<Event>, e: Event, m': Table)
    requires e.Failure? && Inv(m, events, e.now) && Step(m, e, m')
    ensures m' == Room(m, e)[e.ip := Live(Get(m, e.ip), e.now) + [e.now]]
    ensures TableOk(Room(m, e), e.now) && (e.ip in Room(m, e) || |Room(m, e)| < MAX_IPS)
    ensures e.victim != Some(e.ip)
  {
    var p := Pruned(m, e.ip, e.now);
    PruneTracks(m, events, e.ip, e.now);
    var q := Swept(p, e.now);
    SweepTracks(p, events, e.now);
    if e.victim.Some? {
      MapSize(q, e.victim.value, []);
    }
  }

  lemma RoomGet(m: Table, e: Event, other: string)
    requires e.Failure?
    ensures e.victim == Some(other) || Get(Room(m, e), other) == Get(Pruned(m, e.ip, e.now), other)
      || Get(Room(m, e), other) == Get(Swept(Pruned(m, e.ip, e.now), e.now), other)
  {
  }

  lemma VictimTracks(m: Table, events: seq<Event>, e: Event, m': Table)
    requires e.Failure? && e.victim.Some? && e.victim != Some(e.ip) && Step(m, e, m')
    ensures Tracks(m', events + [e], e.now, e.victim.value)
  {
    ClearedSnoc(events, e, e.victim.value);
  }

  lemma OthersTrack(m: Table, events: seq<Event>, e: Event, m': Table, other: string)
    requires e.Failure? && Inv(m, events, e.now) && Step(m, e, m') && other != e.ip
    ensures Tracks(m', events + [e], e.now, other)
  {
    var p := Pruned(m, e.ip, e.now);
    PruneTracks(m, events, e.ip, e.now);
    SweepTracks(p, events, e.now);
    RoomOk(m, events, e, m');
    assert Tracks(p, events, e.now, other) && Tracks(Swept(p, e.now), events, e.now, other);
    if e.victim == Some(other) {
      VictimTracks(m, events, e, m');
    } else {
      RoomGet(m, e, other);
      assert Get(m', other) == Get(Room(m, e), other);
      if Get(m', other) == Get(p, other) {
        SameGet(p, m', events, e.now, other);
      } else {
        SameGet(Swept(p, e.now), m', events, e.now, other);
      }
      OtherTracks(m', events, e, other);
    }
  }

  lemma SelfTracks(m: Table, events: seq<Event>, e: Event, m': Table)
    requires e.Failure? && Tracks(m, events, e.now, e.ip) && e.victim != Some(e.ip)
    requires Get(m', e.ip) == Live(Get(m, e.ip), e.now) + [e.now]
    ensures Tracks(m', events + [e], e.now, e.ip)
  {
    var since, live := SinceCleared(events, e.ip), Live(Get(m, e.ip), e.now);
    ClearedSnoc(events, e, e.ip);
    assert SinceCleared(events + [e], e.ip) == since + [e.now];
    LiveCovers(Get(m, e.ip), since, e.now - WINDOW, e.now);
    AppendCovers(live, since, e.now - WINDOW, e.now);
  }

  lemma FailureTracks(m: Table, events: seq<Event>, e: Event, m': Table)
    requires e.Failure? && Inv(m, events, e.now) && Step(m, e, m')
    ensures Inv(m', events + [e], e.now)
  {
    RoomOk(m, events, e, m');
    var live := Live(Get(m, e.ip), e.now);
    MapSize(Room(m, e), e.ip, live + [e.now]);
    assert Tracks(m, events, e.now, e.ip);
    SelfTracks(m, events, e, m');
    SuffixSorted(live + [e.now], SinceCleared(events + [e], e.ip), e.now);
    forall other ensures Tracks(m', events + [e], e.now, other) {
      if other != e.ip {
        OthersTrack(m, events, e, m', other);
      }
    }
  }

  lemma StepTracks(m: Table, events: seq<Event>, e: Event, m': Table)
    requires Inv(m, events, e.now) && Step(m, e, m')
    ensures Inv(m', events + [e], e.now)
  {
    if e.Failure? {
      FailureTracks(m, events, e, m');
    } else {
      if e.Check? {
        PruneTracks(m, events, e.ip, e.now);
      } else {
        MapSize(m, e.ip, []);
      }
      forall other ensures Tracks(m', events + [e], e.now, other) {
        ClearedSnoc(events, e, other);
        assert Tracks(m, events, e.now, other);
        assert e.Check? ==> Tracks(m', events, e.now, other);
      }
    }
  }

  /** In every reachable state the table is bounded, its lists are non-empty and
      sorted, and each is what was recorded since its address was last cleared,
      without a head that has left the window. */
  lemma {:induction false} RunTracks(tables: seq<Table>, events: seq<Event>, now: int)
    requires Run(tables, events) && tables[0] == map[] && ClockOk(events, now)
    ensures Inv(tables[|events|], events, now)
  {
    if events != [] {
      var n := |events| - 1;
      RunTracks(tables[..n + 1], events[..n], events[n].now);
      assert events == events[..n] + [events[n]];
      StepTracks(tables[n], events[..n], events[n], tables[n + 1]);
      LaterTracks(tables[n + 1], events, events[n].now, now);
    }
  }

  // ---------- Exactness and permissiveness ----------

  lemma CoverLive(fails: seq<int>, log: seq<int>, cut: int, now: int)
    requires Covers(fails, log, cut)
    ensures IsSuffix(Live(fails, now), Live(log, now))
    ensures cut <= now - WINDOW ==> Live(fails, now) == Live(log, now)
  {
    var d := |log| - |fails|;
    assert log == log[..d] + fails;
    LiveConcat(log[..d], fails, now);
    if cut <= now - WINDOW {
      LiveOfOld(log[..d], now);
    }
  }

  /** What tracking means for a verdict. */
  lemma VerdictOfInv(m: Table, events: seq<Event>, ip: string, now: int)
    requires Inv(m, events, now)
    ensures CheckVerdict(m, ip, now) == Judge(Live(SinceCleared(events, ip), now), now)
  {
    assert Tracks(m, events, now, ip);
    CoverLive(Get(m, ip), SinceCleared(events, ip), now - WINDOW, now);
  }

  /** In every run, for every address, a check decides exactly as counting the live
      failures since the last success or eviction does. */
  lemma CheckMatchesRecord(tables: seq<Table>, events: seq<Event>, ip: string, now: int)
    requires Run(tables, events) && tables[0] == map[] && ClockOk(events, now)
    ensures CheckVerdict(tables[|events|], ip, now) == Judge(Live(SinceCleared(events, ip), now), now)
    ensures CheckVerdict(tables[|events|], ip, now).Refused? <==> |Live(SinceCleared(events, ip), now)| >= CAPACITY
  {
    RunTracks(tables, events, now);
    VerdictOfInv(tables[|events|], events, ip, now);
  }

  /** `since` is the log, or what an eviction left of it. */
  ghost predicate CutBy(since: seq<int>, log: seq<int>, evicted: Option<int>) {
    if evicted.None? then since == log else Covers(since, log, evicted.value)
  }

  lemma CutByFailure(since: seq<int>, log: seq<int>, evicted: Option<int>, now: int)
    requires CutBy(since, log, evicted) && SortedUpTo(log, now)
    ensures CutBy(since + [now], log + [now], evicted) && SortedUpTo(log + [now], now)
    ensures CutBy([], log, Some(now)) && CutBy([now], log + [now], Some(now))
  {
    AppendCovers([], log, now, now);
    assert [] + [now] == [now];
    if evicted.Some? {
      AppendCovers(since, log, evicted.value, now);
    }
  }

  lemma CutByEvent(events: seq<Event>, e: Event, ip: string)
    requires CutBy(SinceCleared(events, ip), Log(events, ip), Evicted(events, ip)) && SortedUpTo(Log(events, ip), e.now)
    ensures CutBy(SinceCleared(events + [e], ip), Log(events + [e], ip), Evicted(events + [e], ip))
    ensures SortedUpTo(Log(events + [e], ip), e.now)
  {
    LogSnoc(events, e, ip);
    ClearedSnoc(events, e, ip);
    CutByFailure(SinceCleared(events, ip), Log(events, ip), Evicted(events, ip), e.now);
  }

  /** Evictions cut the log: what is left is the log without a head that is no later
      than the last of them. */
  lemma {:induction false} EvictionCutsLog(events: seq<Event>, ip: string, now: int)
    requires ClockOk(events, now)
    ensures SortedUpTo(Log(events, ip), now)
    ensures CutBy(SinceCleared(events, ip), Log(events, ip), Evicted(events, ip))
  {
    if events != [] {
      var n := |events| - 1;
      var e, before := events[n], events[..n];
      EvictionCutsLog(before, ip, e.now);
      assert events == before + [e];
      CutByEvent(before, e, ip);
    }
  }

  /** A check refuses only where the full log would: eviction can only help the caller. */
  lemma RefusalIsJustified(tables: seq<Table>, events: seq<Event>, ip: string, now: int)
    requires Run(tables, events) && tables[0] == map[] && ClockOk(events, now)
    requires CheckVerdict(tables[|events|], ip, now).Refused?
    ensures |Live(Log(events, ip), now)| >= CAPACITY
  {
    CheckMatchesRecord(tables, events, ip, now);
    EvictionCutsLog(events, ip, now);
    if Evicted(events, ip).Some? {
      CoverLive(SinceCleared(events, ip), Log(events, ip), Evicted(events, ip).value, now);
    }
  }

  /** Unless an eviction of this address still matters, that is counting the live
      failures of the full log. */
  lemma CheckMatchesLog(tables: seq<Table>, events: seq<Event>, ip: string, now: int)
    requires Run(tables, events) && tables[0] == map[] && ClockOk(events, now)
    requires Unaffected(events, ip, now)
    ensures CheckVerdict(tables[|events|], ip, now) == Judge(Live(Log(events, ip), now), now)
    ensures CheckVerdict(tables[|events|], ip, now).Refused? <==> |Live(Log(events, ip), now)| >= CAPACITY
  {
    CheckMatchesRecord(tables, events, ip, now);
    EvictionCutsLog(events, ip, now);
    if Evicted(events, ip).Some? {
      CoverLive(SinceCleared(events, ip), Log(events, ip), Evicted(events, ip).value, now);
    }
  }

  lemma ReachableTablesOk(tables: seq<Table>, events: seq<Event>, now: int)
    requires Run(tables, events) && tables[0] == map[] && ClockOk(events, now)
    ensures |tables[|events|]| <= 10000
    ensures forall ip :: ip in tables[|events|] ==> tables[|events|][ip] != [] && SortedUpTo(tables[|events|][ip], now)
  {
    RunTracks(tables, events, now);
  }

  /** Sweeping never changes a later answer. */
  lemma SweepIsInvisible(m: Table, swept: int, ip: string, now: int)
    requires TableOk(m, swept) && swept <= now
    ensures CheckVerdict(Swept(m, swept), ip, now) == CheckVerdict(m, ip, now)
  {
    if ip in m && ip !in Swept(m, swept) {
      assert forall i :: 0 <= i < |m[ip]| ==> m[ip][i] <= m[ip][|m[ip]| - 1];
      LiveOfOld(m[ip], now);
    }
  }

  // ---------- What making room costs the others ----------

  /** The other addresses with a failure in the window. */
  ghost function OthersLive(m: Table, ip: string, now: int): set<string> {
    set o | o in m && o != ip && Live(m[o], now) != []
  }

  lemma NewestDecides(list: seq<int>, now: int)
    requires SortedUpTo(list, now)
    ensures Live(list, now) != [] <==> list != [] && list[|list| - 1] > now - WINDOW
  {
    var k := LiveIsTail(list, now);
  }

  lemma SweptMember(m: Table, ip: string, now: int, o: string)
    requires TableOk(m, now) && ip !in Pruned(m, ip, now)
    ensures o in Swept(Pruned(m, ip, now), now) <==> o in m && o != ip && Live(m[o], now) != []
  {
    var p := Pruned(m, ip, now);
    PrunedGet(m, ip, now, o);
    if o in m && o != ip {
      assert o in p && p[o] == m[o];
      NewestDecides(m[o], now);
    }
  }

  lemma SweptIsOthers(m: Table, ip: string, now: int)
    requires TableOk(m, now) && ip !in Pruned(m, ip, now)
    ensures Swept(Pruned(m, ip, now), now).Keys == OthersLive(m, ip, now)
  {
    forall o ensures o in Swept(Pruned(m, ip, now), now).Keys <==> o in OthersLive(m, ip, now) {
      SweptMember(m, ip, now, o);
    }
  }

  lemma SweepSparesLive(m: Table, ip: string, now: int, other: string)
    requires TableOk(m, now) && other != ip
    ensures Live(Get(Swept(Pruned(m, ip, now), now), other), now) == Live(Get(m, other), now)
  {
    var p := Pruned(m, ip, now);
    PrunedGet(m, ip, now, other);
    assert other in p <==> other in m;
    if other in m {
      NewestDecides(m[other], now);
      assert p[other] == m[other];
    }
  }

  /** Recording a failure leaves the live failures of every other address alone if
      and only if its own address has live failures already or fewer than MAX_IPS
      others have. */
  lemma RecordingSparesOthers(m: Table, ip: string, now: int, victim: Option<string>, m': Table)
    requires TableOk(m, now) && Records(m, ip, now, victim, m')
    ensures (forall other :: other != ip ==> Live(Get(m', other), now) == Live(Get(m, other), now)) <==>
      Live(Get(m, ip), now) != [] || |OthersLive(m, ip, now)| < MAX_IPS
  {
    var p := Pruned(m, ip, now);
    if ip !in p {
      SweptIsOthers(m, ip, now);
      SweptSize(p, now);
    }
    assert |Swept(p, now)| == |Swept(p, now).Keys|;
    if victim.Some? {
      var v := victim.value;
      NewestDecides(m[v], now);
      assert v != ip && Live(Get(m, v), now) != [] && Get(m', v) == [];
    } else {
      forall other | other != ip ensures Live(Get(m', other), now) == Live(Get(m, other), now) {
        PrunedGet(m, ip, now, other);
        SweepSparesLive(m, ip, now, other);
      }
    }
  }

  // A run in which it does not: one address is locked out, then as many others fail
  // as the table can hold, and the next newcomer evicts the first.

  function Zeros(f: nat): seq<int> {
    seq(f, _ => 0)
  }

  lemma ZerosLive(f: nat, now: int)
    requires now < WINDOW
    ensures Live(Zeros(f), now) == Zeros(f) && Zeros(f) + [0] == Zeros(f + 1)
  {
    LiveOfFresh(Zeros(f), now);
  }

  /** A run up to `now` that leaves `table`, with the given failures of `ip`. */
  ghost predicate Reaches(tables: seq<Table>, events: seq<Event>, now: int, table: Table, ip: string, log: seq<int>) {
    && Run(tables, events) && tables[0] == map[] && ClockOk(events, now)
    && tables[|events|] == table && Log(events, ip) == log
  }

  lemma OneMore(tables: seq<Table>, events: seq<Event>, now: int, e: Event, table': Table)
    requires Run(tables, events) && ClockOk(events, now) && now <= e.now
    requires Step(tables[|events|], e, table')
    ensures Run(tables + [table'], events + [e]) && ClockOk(events + [e], e.now)
  {
    var ts, es := tables + [table'], events + [e];
    forall i | 0 <= i < |es| ensures Step(ts[i], es[i], ts[i + 1]) {
      assert i < |events| ==> Step(tables[i], events[i], tables[i + 1]);
    }
  }

  /** The table with these failures of one address. */
  function Only(ip: string, times: seq<int>): Table {
    if times == [] then map[] else map[ip := times]
  }

  lemma RecordOne(ip: string, before: seq<int>, now: int)
    requires forall i :: 0 <= i < |before| ==> before[i] > now - WINDOW
    ensures Records(Only(ip, before), ip, now, None, map[ip := before + [now]])
  {
    var m := Only(ip, before);
    LiveOfFresh(before, now);
    assert Get(m, ip) == before && Pruned(m, ip, now) == m;
    assert m[ip := before + [now]] == map[ip := before + [now]];
  }

  lemma OneMoreFailure(tables: seq<Table>, events: seq<Event>, last: int, ip: string, before: seq<int>, now: int)
    requires Reaches(tables, events, last, Only(ip, before), ip, before) && last <= now
    requires forall i :: 0 <= i < |before| ==> before[i] > now - WINDOW
    ensures Reaches(tables + [map[ip := before + [now]]], events + [Failure(ip, now, None)], now,
                    Only(ip, before + [now]), ip, before + [now])
  {
    RecordOne(ip, before, now);
    OneMore(tables, events, last, Failure(ip, now, None), map[ip := before + [now]]);
    LogSnoc(events, Failure(ip, now, None), ip);
  }

  /** Failures at any times within one window, up to `last`. */
  lemma {:induction false} SomeFailures(ip: string, times: seq<int>, last: int) returns (tables: seq<Table>, events: seq<Event>)
    requires forall i, j :: 0 <= i < j < |times| ==> times[i] <= times[j] < times[0] + WINDOW
    requires times == [] || last == times[|times| - 1]
    ensures Reaches(tables, events, last, Only(ip, times), ip, times)
  {
    if times == [] {
      return [map[]], [];
    }
    var before := times[..|times| - 1];
    var previous := if before == [] then last else before[|before| - 1];
    tables, events := SomeFailures(ip, before, previous);
    OneMoreFailure(tables, events, previous, ip, before, last);
    assert times == before + [last];
    tables, events := tables + [map[ip := times]], events + [Failure(ip, last, None)];
  }

  /** The address number `i`; they are told apart by their lengths. */
  function Name(i: nat): string {
    seq(i, _ => 'a')
  }

  /** `Name(0)` with its failures at time 0 and the others below `n` with one at 1. */
  function Crowd(n: nat): Table
    requires n > 0
  {
    if n == 1 then map[Name(0) := Zeros(CAPACITY)] else Crowd(n - 1)[Name(n - 1) := [1]]
  }

  lemma {:induction false} CrowdShape(n: nat)
    requires n > 0
    ensures |Crowd(n)| == n && Name(0) in Crowd(n) && Crowd(n)[Name(0)] == Zeros(CAPACITY)
    ensures forall k :: k in Crowd(n) ==> |k| < n && (k != Name(0) ==> Crowd(n)[k] == [1])
  {
    if n > 1 {
      CrowdShape(n - 1);
      MapSize(Crowd(n - 1), Name(n - 1), [1]);
      assert |Name(n - 1)| == n - 1;
    }
  }

  lemma {:induction false} CrowdArrives(n: nat) returns (tables: seq<Table>, events: seq<Event>)
    requires 0 < n <= MAX_IPS
    ensures Reaches(tables, events, 1, Crowd(n), Name(0), Zeros(CAPACITY))
  {
    if n == 1 {
      tables, events := SomeFailures(Name(0), Zeros(CAPACITY), 0);
    } else {
      tables, events := CrowdArrives(n - 1);
      CrowdShape(n - 1);
      var ip, m := Name(n - 1), Crowd(n - 1);
      assert |ip| == n - 1 && |Name(0)| == 0;
      var e := Failure(ip, 1, None);
      assert Pruned(m, ip, 1) == m && Live(Get(m, ip), 1) + [1] == [1];
      OneMore(tables, events, 1, e, Crowd(n));
      LogSnoc(events, e, Name(0));
      tables, events := tables + [Crowd(n)], events + [e];
    }
  }

  /** A full table in which `v` failed at time 0 and everyone else later. */
  ghost predicate FullExcept(m: Table, v: string) {
    && |m| == MAX_IPS && v in m && m[v] == Zeros(CAPACITY)
    && forall k :: k in m && k != v ==> m[k] == [1]
  }

  lemma NothingSwept(m: Table, v: string, ip: string)
    requires FullExcept(m, v) && ip !in m
    ensures Pruned(m, ip, 2) == m && Swept(m, 2) == m && Live(Get(m, ip), 2) + [2] == [2]
  {
    assert forall k :: k in m ==> m[k] != [] && m[k][|m[k]| - 1] >= 0;
  }

  lemma NewcomerEvicts(m: Table, v: string, ip: string)
    requires FullExcept(m, v) && ip !in m
    ensures Records(m, ip, 2, Some(v), (m - {v})[ip := [2]])
  {
    NothingSwept(m, v, ip);
    assert LeastRecent(m, v);
  }

  lemma VerdictFlips(m: Table, v: string, ip: string)
    requires FullExcept(m, v) && ip !in m
    ensures CheckVerdict(m, v, 2).Refused? && CheckVerdict((m - {v})[ip := [2]], v, 2).Allowed?
  {
    ZerosLive(CAPACITY, 2);
    assert v !in (m - {v})[ip := [2]];
  }

  lemma LastStepLifts(ts: seq<Table>, es: seq<Event>, v: string, ip: string)
    returns (tables: seq<Table>, events: seq<Event>)
    requires Run(ts, es) && ts[0] == map[] && ClockOk(es, 1) && Log(es, v) == Zeros(CAPACITY)
    requires FullExcept(ts[|es|], v) && ip !in ts[|es|]
    ensures LockoutLifted(tables, events, v)
  {
    var m := ts[|es|];
    var e, m' := Failure(ip, 2, Some(v)), (m - {v})[ip := [2]];
    NewcomerEvicts(m, v, ip);
    OneMore(ts, es, 1, e, m');
    VerdictFlips(m, v, ip);
    LogSnoc(es, e, v);
    ZerosLive(CAPACITY, 2);
    tables, events := ts + [m'], es + [e];
  }

  /** At time 2 the address `v` is refused just before the last event and allowed
      just after it, with five live failures in its log all the while. */
  ghost predicate LockoutLifted(tables: seq<Table>, events: seq<Event>, v: string) {
    && Run(tables, events) && tables[0] == map[] && ClockOk(events, 2) && events != []
    && var last := |events| - 1;
       && events[last].Failure? && events[last].victim == Some(v) && events[last].ip != v
       && CheckVerdict(tables[last], v, 2).Refused? && CheckVerdict(tables[last + 1], v, 2).Allowed?
       && |Live(Log(events, v), 2)| == CAPACITY
  }

  lemma CrowdLifts(n: nat) returns (tables: seq<Table>, events: seq<Event>)
    requires n == MAX_IPS
    ensures LockoutLifted(tables, events, Name(0))
  {
    var ts, es := CrowdArrives(n);
    CrowdShape(n);
    assert |Name(n)| == n && |Name(0)| == 0;
    tables, events := LastStepLifts(ts, es, Name(0), Name(n));
  }

  /** A locked-out address can be let in again by a crowd. */
  lemma EvictionLiftsLockout()
    ensures exists tables, events :: LockoutLifted(tables, events, "")
  {
    var tables, events := CrowdLifts(MAX_IPS);
    assert Name(0) == "";
  }

  // ---------- Lockout duration ----------

  /** The announced wait is positive, at most the window, and ends exactly when
      the oldest live failure leaves it. */
  lemma RefusalBounds(m: Table, ip: string, t: int, d: int)
    requires TableOk(m, t) && CheckVerdict(m, ip, t) == Refused(d)
    ensures var live := Live(Get(m, ip), t);
      |live| >= CAPACITY && t + d == live[0] + WINDOW && 0 < d <= WINDOW
      && forall i, j :: 0 <= i < j < |live| ==> live[i] <= live[j]
  {
    var list := Get(m, ip);
    var k := LiveIsTail(list, t);
    assert Live(list, t)[0] == list[k];
  }

  lemma {:induction false} LiveLive(s: seq<int>, a: int, b: int)
    requires a <= b
    ensures Live(Live(s, a), b) == Live(s, b)
  {
    if s != [] {
      LiveLive(s[1..], a, b);
      LiveConcat(if s[0] > a - WINDOW then [s[0]] else [], Live(s[1..], a), b);
    }
  }

  /** Only its own failures add to what is live of an address. */
  lemma StepAddsNothing(m: Table, e: Event, m': Table, ip: string, now: int)
    requires Step(m, e, m') && e.now <= now && !(e.Failure? && e.ip == ip)
    ensures |Live(Get(m', ip), now)| <= |Live(Get(m, ip), now)|
  {
    LiveLive(Get(m, ip), e.now, now);
  }

  lemma {:induction false} RunAddsNothing(tables: seq<Table>, events: seq<Event>, i: nat, n: nat, ip: string, now: int)
    requires Run(tables, events) && ClockOk(events, now) && i <= n <= |events|
    requires forall k :: i <= k < n ==> !(events[k].Failure? && events[k].ip == ip)
    ensures |Live(Get(tables[n], ip), now)| <= |Live(Get(tables[i], ip), now)|
  {
    if i < n {
      RunAddsNothing(tables, events, i, n - 1, ip, now);
      StepAddsNothing(tables[n - 1], events[n - 1], tables[n], ip, now);
    }
  }

  /** And only what clears it takes anything away. */
  lemma StepTakesNothing(m: Table, e: Event, m': Table, ip: string, now: int)
    requires Step(m, e, m') && TableOk(m, e.now) && e.now <= now && !Clears(e, ip)
    ensures |Live(Get(m', ip), now)| >= |Live(Get(m, ip), now)|
  {
    if !e.Failure? {
      LiveLive(Get(m, ip), e.now, now);
    } else if e.ip == ip {
      FailureTakesNothing(m, e, m', now);
    } else {
      OthersFailureTakesNothing(m, e, m', ip, now);
    }
  }

  lemma OthersFailureTakesNothing(m: Table, e: Event, m': Table, ip: string, now: int)
    requires e.Failure? && Step(m, e, m') && TableOk(m, e.now) && e.now <= now && e.ip != ip && e.victim != Some(ip)
    ensures Live(Get(m', ip), now) == Live(Get(m, ip), now)
  {
    PrunedGet(m, e.ip, e.now, ip);
    SweepKeepsLive(m, e.ip, e.now, ip, now);
  }

  lemma FailureTakesNothing(m: Table, e: Event, m': Table, now: int)
    requires e.Failure? && Step(m, e, m') && e.now <= now
    ensures |Live(Get(m', e.ip), now)| >= |Live(Get(m, e.ip), now)|
  {
    LiveLive(Get(m, e.ip), e.now, now);
    LiveConcat(Live(Get(m, e.ip), e.now), [e.now], now);
  }

  lemma SweepKeepsLive(m: Table, ip: string, swept: int, other: string, now: int)
    requires TableOk(m, swept) && other != ip && swept <= now
    ensures Live(Get(Swept(Pruned(m, ip, swept), swept), other), now) == Live(Get(m, other), now)
  {
    SweepSparesLive(m, ip, swept, other);
    LiveLive(Get(m, other), swept, now);
    LiveLive(Get(Swept(Pruned(m, ip, swept), swept), other), swept, now);
  }

  lemma {:induction false} RunTakesNothing(tables: seq<Table>, events: seq<Event>, i: nat, n: nat, ip: string, now: int)
    requires Run(tables, events) && tables[0] == map[] && ClockOk(events, now) && i <= n <= |events|
    requires forall k :: i <= k < n ==> !Clears(events[k], ip)
    ensures |Live(Get(tables[n], ip), now)| >= |Live(Get(tables[i], ip), now)|
  {
    if i < n {
      RunTakesNothing(tables, events, i, n - 1, ip, now);
      RunTracks(tables[..n], events[..n - 1], events[n - 1].now);
      StepTakesNothing(tables[n - 1], events[n - 1], tables[n], ip, now);
    }
  }

  /** A refusal with `d` to wait: `live` are the failures that count against `ip` at `t`. */
  ghost predicate RefusedAt(tables: seq<Table>, events: seq<Event>, i: nat, ip: string, t: int, d: int, live: seq<int>) {
    && Run(tables, events) && tables[0] == map[] && i <= |events| && ClockOk(events[..i], t)
    && CheckVerdict(tables[i], ip, t) == Refused(d) && live == Live(Get(tables[i], ip), t)
  }

  /** How many of the failures live at a refusal are live later. */
  lemma LaterLive(tables: seq<Table>, events: seq<Event>, i: nat, ip: string, t: int, d: int, live: seq<int>, now: int)
    requires RefusedAt(tables, events, i, ip, t, d, live) && t <= now
    ensures |live| >= CAPACITY && t + d == live[0] + WINDOW <= live[|live| - CAPACITY] + WINDOW && 0 < d <= WINDOW
    ensures |Live(Get(tables[i], ip), now)| >= CAPACITY <==> now < live[|live| - CAPACITY] + WINDOW
  {
    RunTracks(tables[..i + 1], events[..i], t);
    RefusalBounds(tables[i], ip, t, d);
    LiveLive(Get(tables[i], ip), t, now);
    FifthNewestDecides(live, now);
  }

  lemma FifthNewestDecides(live: seq<int>, now: int)
    requires |live| >= CAPACITY && forall i, j :: 0 <= i < j < |live| ==> live[i] <= live[j]
    ensures live[0] <= live[|live| - CAPACITY]
    ensures |Live(live, now)| >= CAPACITY <==> now < live[|live| - CAPACITY] + WINDOW
  {
    var k := LiveIsTail(live, now);
  }

  /** Every check before that instant, and so every one strictly before t + d, is
      refused, however many failures anyone records in between. */
  lemma LockoutLasts(tables: seq<Table>, events: seq<Event>, i: nat, ip: string, t: int, d: int, live: seq<int>, now: int)
    requires RefusedAt(tables, events, i, ip, t, d, live) && ClockOk(events, now) && t <= now
    requires forall k :: i <= k < |events| ==> !Clears(events[k], ip)
    ensures |live| >= CAPACITY && t + d <= live[|live| - CAPACITY] + WINDOW
    ensures now < live[|live| - CAPACITY] + WINDOW ==> CheckVerdict(tables[|events|], ip, now).Refused?
  {
    LaterLive(tables, events, i, ip, t, d, live, now);
    RunTakesNothing(tables, events, i, |events|, ip, now);
  }

  /** Once the address adds none, every check from the instant on at which the fifth
      newest failure leaves the window is allowed, whatever else happens. */
  lemma LockoutEnds(tables: seq<Table>, events: seq<Event>, i: nat, ip: string, t: int, d: int, live: seq<int>, now: int)
    requires RefusedAt(tables, events, i, ip, t, d, live) && ClockOk(events, now) && t <= now
    requires forall k :: i <= k < |events| ==> !(events[k].Failure? && events[k].ip == ip)
    ensures |live| >= CAPACITY
    ensures live[|live| - CAPACITY] + WINDOW <= now ==> CheckVerdict(tables[|events|], ip, now).Allowed?
  {
    LaterLive(tables, events, i, ip, t, d, live, now);
    RunAddsNothing(tables, events, i, |events|, ip, now);
  }

  /** That is the first allowed instant in every run that neither adds to the address
      nor clears it. */
  lemma FirstAllowedInstant(tables: seq<Table>, events: seq<Event>, i: nat, ip: string, t: int, d: int,
                            live: seq<int>, now: int)
    requires RefusedAt(tables, events, i, ip, t, d, live) && ClockOk(events, now) && t <= now
    requires forall k :: i <= k < |events| ==> !Clears(events[k], ip) && !(events[k].Failure? && events[k].ip == ip)
    ensures |live| >= CAPACITY
    ensures CheckVerdict(tables[|events|], ip, now).Refused? <==> now < live[|live| - CAPACITY] + WINDOW
  {
    LaterLive(tables, events, i, ip, t, d, live, now);
    RunAddsNothing(tables, events, i, |events|, ip, now);
    RunTakesNothing(tables, events, i, |events|, ip, now);
  }

  /** With exactly CAPACITY live failures it is the announced instant t + d. */
  lemma AnnouncedInstant(tables: seq<Table>, events: seq<Event>, i: nat, ip: string, t: int, d: int,
                         live: seq<int>, now: int)
    requires RefusedAt(tables, events, i, ip, t, d, live) && ClockOk(events, now) && t <= now
    requires forall k :: i <= k < |events| ==> !Clears(events[k], ip) && !(events[k].Failure? && events[k].ip == ip)
    requires |live| == CAPACITY
    ensures CheckVerdict(tables[|events|], ip, now).Refused? <==> now < t + d
  {
    LaterLive(tables, events, i, ip, t, d, live, now);
    FirstAllowedInstant(tables, events, i, ip, t, d, live, now);
  }

  lemma {:induction false} LiveBound(s: seq<int>, now: int)
    ensures |Live(s, now)| <= |s|
  {
    if s != [] {
      LiveBound(s[1..], now);
    }
  }

  // ---------- The Retry-After header ----------

  /** Whole seconds, at least one. */
  function RetryAfterSeconds(d: int): int {
    if d / SECOND < 1 then 1 else d / SECOND
  }

  /** The header is within a second of the wait. */
  lemma HeaderRounds(d: int)
    requires 0 < d <= WINDOW
    ensures -SECOND < RetryAfterSeconds(d) * SECOND - d < SECOND
    ensures RetryAfterSeconds(d) * SECOND < d <==> d > SECOND && d % SECOND != 0
  {
  }

  /** A client that waits exactly as told and adds no failure is refused once more if
      and only if the fifth newest failure is still live by then. */
  lemma RetryAsTold(tables: seq<Table>, events: seq<Event>, i: nat, ip: string, t: int, d: int, live: seq<int>)
    requires RefusedAt(tables, events, i, ip, t, d, live) && ClockOk(events, t + RetryAfterSeconds(d) * SECOND)
    requires forall k :: i <= k < |events| ==> !Clears(events[k], ip) && !(events[k].Failure? && events[k].ip == ip)
    ensures |live| >= CAPACITY && 0 < d <= WINDOW && -SECOND < RetryAfterSeconds(d) * SECOND - d < SECOND
    ensures var now := t + RetryAfterSeconds(d) * SECOND;
      CheckVerdict(tables[|events|], ip, now).Refused? <==> now < live[|live| - CAPACITY] + WINDOW
  {
    var now := t + RetryAfterSeconds(d) * SECOND;
    LaterLive(tables, events, i, ip, t, d, live, t);
    HeaderRounds(d);
    FirstAllowedInstant(tables, events, i, ip, t, d, live, now);
  }

  /** With exactly CAPACITY live failures: if and only if the wait was over a second
      and not whole. */
  lemma RetryAsToldAfterFive(tables: seq<Table>, events: seq<Event>, i: nat, ip: string, t: int, d: int, live: seq<int>)
    requires RefusedAt(tables, events, i, ip, t, d, live) && ClockOk(events, t + RetryAfterSeconds(d) * SECOND)
    requires forall k :: i <= k < |events| ==> !Clears(events[k], ip) && !(events[k].Failure? && events[k].ip == ip)
    requires |live| == CAPACITY
    ensures CheckVerdict(tables[|events|], ip, t + RetryAfterSeconds(d) * SECOND).Refused? <==> d > SECOND && d % SECOND != 0
  {
    LaterLive(tables, events, i, ip, t, d, live, t);
    HeaderRounds(d);
    AnnouncedInstant(tables, events, i, ip, t, d, live, t + RetryAfterSeconds(d) * SECOND);
  }

  /** Failures within one window and a check before it is over. */
  lemma FailedThenChecked(ip: string, times: seq<int>, t: int) returns (tables: seq<Table>, events: seq<Event>)
    requires |times| >= CAPACITY && times[|times| - 1] <= t < times[0] + WINDOW
    requires forall i, j :: 0 <= i < j < |times| ==> times[i] <= times[j]
    ensures RefusedAt(tables, events, |events|, ip, t, times[0] + WINDOW - t, times) && ClockOk(events, t)
  {
    tables, events := SomeFailures(ip, times, times[|times| - 1]);
    LiveOfFresh(times, t);
    assert events[..|events|] == events;
  }

  /** Refused again for the rounding: five failures at time 0, a check a nanosecond later. */
  lemma RefusedAgain() returns (tables: seq<Table>, events: seq<Event>)
    ensures RefusedAt(tables, events, |events|, "ip", 1, WINDOW - 1, Zeros(5)) && ClockOk(events, 1)
    ensures CheckVerdict(tables[|events|], "ip", 1 + RetryAfterSeconds(WINDOW - 1) * SECOND).Refused?
  {
    tables, events := FailedThenChecked("ip", Zeros(CAPACITY), 1);
    RetryAsToldAfterFive(tables, events, |events|, "ip", 1, WINDOW - 1, Zeros(CAPACITY));
  }

  /** Refused again after a whole wait: a sixth failure, a nanosecond younger than the
      first, is among the five newest. */
  lemma RefusedAgainAfterSix() returns (tables: seq<Table>, events: seq<Event>)
    ensures RefusedAt(tables, events, |events|, "ip", SECOND, 899 * SECOND, [0, 1, 1, 1, 1, 1]) && ClockOk(events, SECOND)
    ensures CheckVerdict(tables[|events|], "ip", SECOND + RetryAfterSeconds(899 * SECOND) * SECOND).Refused?
  {
    var six := [0, 1, 1, 1, 1, 1];
    tables, events := FailedThenChecked("ip", six, SECOND);
    RetryAsTold(tables, events, |events|, "ip", SECOND, 899 * SECOND, six);
  }
}
