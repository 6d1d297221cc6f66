/** Killing a listener. */
module KillProtocol {
  // The handler scans and inspects, the process manager checks and scans again,
  // signals, and escalates after a grace period, while any number of other requests
  // do the same.

  import opened Listeners
  import opened Sequences

  datatype Info = Info(command: seq<string>, cwd: string, env: seq<string>)

  // ---------- Searching a scan ----------

  function PidOnPort(listeners: seq<Listener>, port: int): Option<int> {
    if listeners == [] then None
    else if listeners[0].port == port then Some(listeners[0].pid)
    else PidOnPort(listeners[1..], port)
  }

  predicate HasPid(listeners: seq<Listener>, pid: int) {
    exists i :: 0 <= i < |listeners| && listeners[i].pid == pid
  }

  /** The handler's search; None inside Some stands for no listener, None for a failed scan. */
  method ResolvePidForPort(scan: Option<seq<Listener>>, port: int) returns (r: Option<Option<int>>)
    ensures r == if scan.None? then None else Some(PidOnPort(scan.value, port))
  {
    if scan.None? {
      return None;
    }
    var listeners := scan.value;
    for i := 0 to |listeners|
      invariant PidOnPort(listeners[i..], port) == PidOnPort(listeners, port)
    {
      assert listeners[i..][1..] == listeners[i + 1..];
      if listeners[i].port == port {
        return Some(Some(listeners[i].pid));
      }
    }
    return Some(None);
  }

  datatype Liveness = Confirmed | SelfPid | UnknownPid | ScanFailed

  /** The manager's second look at the process table. */
  method VerifyLive(scan: Option<seq<Listener>>, pid: int, self: int) returns (r: Liveness)
    ensures scan.None? ==> r == ScanFailed
    ensures scan.Some? ==> r == if !HasPid(scan.value, pid) then UnknownPid else if pid == self then SelfPid else Confirmed
  {
    if scan.None? {
      return ScanFailed;
    }
    for i := 0 to |scan.value|
      invariant forall k :: 0 <= k < i ==> scan.value[k].pid != pid
    {
      if scan.value[i].pid == pid {
        return if pid == self then SelfPid else Confirmed;
      }
    }
    return UnknownPid;
  }

  /** Values at or below zero fall back to three seconds, so escalation never vanishes. */
  function GraceMs(configured: int): (ms: nat)
    ensures ms > 0 && configured <= ms && (configured > 0 <==> ms == configured)
    ensures configured <= 0 ==> ms == 3000
  {
    if configured <= 0 then 3000 else configured
  }

  // ---------- The state ----------

  datatype Phase =
    | Resolving
    | Inspecting(pid: int)
    | Entering(pid: int, info: Option<Info>)
    | Verifying(pid: int, info: Option<Info>)
    | Signalling(pid: int, info: Option<Info>)
    | Terminated(pid: int, info: Option<Info>)
    | Done

  datatype Escalation = NotStarted | Sleeping(pid: int, wake: int) | Over

  datatype Call = Call(port: int, phase: Phase, escalation: Escalation)

  datatype Event =
    | HandlerScan(call: nat, listeners: seq<Listener>)
    | Inspected(call: nat, pid: int, info: Option<Info>)
    | KillScan(call: nat, listeners: seq<Listener>)
    | SigTerm(call: nat, pid: int, at: int, ok: bool)
    | SigKill(call: nat, pid: int, at: int)
    | Remembered(call: nat, port: int, entry: Info, kept: bool)

  datatype World = World(self: int, grace: nat, now: int, calls: map<nat, Call>, log: seq<Event>)

  /** No store is attached, or it keeps the entry or fails to. */
  datatype StoreReply = NoStore | Kept | Failed

  datatype Action =
    | Start(call: nat, port: int)
    | Resolve(call: nat, scan: Option<seq<Listener>>)
    | Inspect(call: nat, info: Option<Info>)
    | Enter(call: nat)
    | Verify(call: nat, scan: Option<seq<Listener>>)
    | Term(call: nat, ok: bool)
    | Remember(call: nat, store: StoreReply)
    | Wake(call: nat, alive: bool)
    | Tick(delta: nat)

  predicate Enabled(w: World, a: Action) {
    match a
    case Start(call, _) => call !in w.calls
    case Resolve(call, _) => call in w.calls && w.calls[call].phase.Resolving?
    case Inspect(call, _) => call in w.calls && w.calls[call].phase.Inspecting?
    case Enter(call) => call in w.calls && w.calls[call].phase.Entering?
    case Verify(call, _) => call in w.calls && w.calls[call].phase.Verifying?
    case Term(call, _) => call in w.calls && w.calls[call].phase.Signalling?
    case Remember(call, _) => call in w.calls && w.calls[call].phase.Terminated?
    case Wake(call, _) => call in w.calls && w.calls[call].escalation.Sleeping? && w.calls[call].escalation.wake <= w.now
    case Tick(_) => true
  }

  /** The entry reaches the store if there is one; its answer is only noted. */
  function HandedOver(call: nat, port: int, info: Option<Info>, store: StoreReply): seq<Event> {
    if info.None? || store == NoStore then [] else [Remembered(call, port, info.value, store == Kept)]
  }

  function Go(w: World, call: nat, phase: Phase, events: seq<Event>): World
    requires call in w.calls
  {
    w.(calls := w.calls[call := w.calls[call].(phase := phase)], log := w.log + events)
  }

  function Do(w: World, a: Action): World
    requires Enabled(w, a)
  {
    match a
    case Start(call, port) => w.(calls := w.calls[call := Call(port, Resolving, NotStarted)])
    case Resolve(call, scan) =>
      if scan.None? then Go(w, call, Done, [])
      else
        var pid := PidOnPort(scan.value, w.calls[call].port);
        var next := if pid.None? || pid.value == w.self then Done else Inspecting(pid.value);
        Go(w, call, next, [HandlerScan(call, scan.value)])
    case Inspect(call, info) =>
      var pid := w.calls[call].phase.pid;
      Go(w, call, Entering(pid, info), [Inspected(call, pid, info)])
    case Enter(call) =>
      var ph := w.calls[call].phase;
      Go(w, call, if ph.pid == w.self || ph.pid <= 1 then Done else Verifying(ph.pid, ph.info), [])
    case Verify(call, scan) =>
      var ph := w.calls[call].phase;
      if scan.None? then Go(w, call, Done, [])
      else
        var next := if HasPid(scan.value, ph.pid) && ph.pid != w.self then Signalling(ph.pid, ph.info) else Done;
        Go(w, call, next, [KillScan(call, scan.value)])
    case Term(call, ok) =>
      var ph := w.calls[call].phase;
      var sent := Go(w, call, if ok then Terminated(ph.pid, ph.info) else Done, [SigTerm(call, ph.pid, w.now, ok)]);
      if ok then sent.(calls := sent.calls[call := sent.calls[call].(escalation := Sleeping(ph.pid, w.now + w.grace))])
      else sent
    case Remember(call, store) =>
      var ph := w.calls[call].phase;
      Go(w, call, Done, HandedOver(call, w.calls[call].port, ph.info, store))
    case Wake(call, alive) =>
      var pid := w.calls[call].escalation.pid;
      w.(calls := w.calls[call := w.calls[call].(escalation := Over)],
         log := if alive then w.log + [SigKill(call, pid, w.now)] else w.log)
    case Tick(delta) => w.(now := w.now + delta)
  }

  // ---------- What every log entry must be preceded by ----------

  ghost predicate Target(w: World, pid: int) {
    pid > 1 && pid != w.self
  }

  ghost predicate ScannedInKill(log: seq<Event>, call: nat, pid: int) {
    exists j :: 0 <= j < |log| && log[j].KillScan? && log[j].call == call && HasPid(log[j].listeners, pid)
  }

  ghost predicate TermSent(log: seq<Event>, call: nat, pid: int, latest: int) {
    exists j :: 0 <= j < |log| && log[j].SigTerm? && log[j].call == call && log[j].pid == pid && log[j].ok && log[j].at <= latest
  }

  /** A scan by the handler that gives `pid` as the first listener on `port`. */
  ghost predicate ScanShows(e: Event, call: nat, port: int, pid: int) {
    e.HandlerScan? && e.call == call && PidOnPort(e.listeners, port) == Some(pid)
  }

  ghost predicate ResolvedOn(log: seq<Event>, call: nat, port: int, pid: int) {
    exists i :: 0 <= i < |log| && ScanShows(log[i], call, port, pid)
  }

  ghost predicate InspectedBefore(log: seq<Event>, call: nat, port: int, pid: int, info: Option<Info>) {
    exists i, j :: 0 <= i < j < |log| && ScanShows(log[i], call, port, pid) && log[j] == Inspected(call, pid, info)
  }

  /** In this order: the port resolves to a process, that process is inspected, and
      a SIGTERM reaches it. */
  ghost predicate TermFollowsInspect(log: seq<Event>, call: nat, port: int, info: Info) {
    exists i, j, k :: 0 <= i < j < k < |log|
      && log[j].Inspected? && log[j].call == call && log[j].info == Some(info)
      && ScanShows(log[i], call, port, log[j].pid)
      && log[k].SigTerm? && log[k].call == call && log[k].pid == log[j].pid && log[k].ok
  }

  /** The claim about one log entry, given everything before it. */
  ghost predicate Justified(w: World, before: seq<Event>, e: Event) {
    match e
    case SigTerm(call, pid, _, _) => Target(w, pid) && ScannedInKill(before, call, pid) && NoTerm(before, call)
    case SigKill(call, pid, at) => Target(w, pid) && TermSent(before, call, pid, at - w.grace) && NoKill(before, call)
    case Remembered(call, port, info, _) => TermFollowsInspect(before, call, port, info)
    case _ => true
  }

  ghost predicate NoTerm(log: seq<Event>, call: nat) {
    forall j :: 0 <= j < |log| && log[j].SigTerm? ==> log[j].call != call
  }

  ghost predicate NoKill(log: seq<Event>, call: nat) {
    forall j :: 0 <= j < |log| && log[j].SigKill? ==> log[j].call != call
  }

  ghost predicate PhaseOk(w: World, c: nat, port: int, ph: Phase) {
    match ph
    case Resolving => NoTerm(w.log, c)
    case Inspecting(pid) => NoTerm(w.log, c) && ResolvedOn(w.log, c, port, pid)
    case Entering(pid, info) => NoTerm(w.log, c) && InspectedBefore(w.log, c, port, pid, info)
    case Verifying(pid, info) => NoTerm(w.log, c) && InspectedBefore(w.log, c, port, pid, info) && Target(w, pid)
    case Signalling(pid, info) =>
      NoTerm(w.log, c) && InspectedBefore(w.log, c, port, pid, info) && Target(w, pid) && ScannedInKill(w.log, c, pid)
    case Terminated(pid, info) => info.Some? ==> TermFollowsInspect(w.log, c, port, info.value)
    case Done => true
  }

  ghost predicate EscalationOk(w: World, c: nat, e: Escalation) {
    match e
    case NotStarted => NoKill(w.log, c)
    case Sleeping(pid, wake) => NoKill(w.log, c) && Target(w, pid) && TermSent(w.log, c, pid, wake - w.grace)
    case Over => true
  }

  ghost predicate CallOk(w: World, c: nat) {
    if c in w.calls then PhaseOk(w, c, w.calls[c].port, w.calls[c].phase) && EscalationOk(w, c, w.calls[c].escalation)
    else NoTerm(w.log, c) && NoKill(w.log, c)
  }

  ghost predicate LogOk(w: World) {
    forall i :: 0 <= i < |w.log| ==> Justified(w, w.log[..i], w.log[i])
  }

  ghost predicate Inv(w: World) {
    LogOk(w) && forall c: nat :: CallOk(w, c)
  }

  // ---------- Every step keeps the invariant ----------

  ghost predicate About(events: seq<Event>, call: nat) {
    forall i :: 0 <= i < |events| ==> events[i].call == call
  }

  /** What holds of a log with events of other calls appended. */
  lemma LogGrows(w: World, w': World, events: seq<Event>, call: nat, c: nat)
    requires w'.log == w.log + events && w'.self == w.self && w'.grace == w.grace && About(events, call)
    requires CallOk(w, c) && c != call && (c in w'.calls <==> c in w.calls) && (c in w.calls ==> w'.calls[c] == w.calls[c])
    ensures CallOk(w', c)
  {
    NothingOfOthers(w.log, events, call, c);
    if c in w.calls {
      PhaseGrows(w, w', events, c, w.calls[c].port, w.calls[c].phase);
      EscalationGrows(w, w', events, c, w.calls[c].escalation);
    }
  }

  lemma NothingOfOthers(log: seq<Event>, events: seq<Event>, call: nat, c: nat)
    requires About(events, call) && c != call
    ensures NoTerm(log, c) ==> NoTerm(log + events, c)
    ensures NoKill(log, c) ==> NoKill(log + events, c)
  {
  }

  lemma PhaseGrows(w: World, w': World, events: seq<Event>, c: nat, port: int, ph: Phase)
    requires w'.log == w.log + events && w'.self == w.self && PhaseOk(w, c, port, ph)
    requires NoTerm(w.log, c) ==> NoTerm(w'.log, c)
    ensures PhaseOk(w', c, port, ph)
  {
    match ph {
      case Inspecting(pid) => ResolvedGrows(w.log, events, c, port, pid);
      case Entering(pid, info) => InspectedGrows(w.log, events, c, port, pid, info);
      case Verifying(pid, info) => InspectedGrows(w.log, events, c, port, pid, info);
      case Signalling(pid, info) =>
        InspectedGrows(w.log, events, c, port, pid, info);
        ScannedGrows(w.log, events, c, pid);
      case Terminated(pid, info) =>
        if info.Some? {
          FollowsGrows(w.log, events, c, port, info.value);
        }
      case _ =>
    }
  }

  lemma ResolvedGrows(log: seq<Event>, events: seq<Event>, c: nat, port: int, pid: int)
    requires ResolvedOn(log, c, port, pid)
    ensures ResolvedOn(log + events, c, port, pid)
  {
    var i :| 0 <= i < |log| && ScanShows(log[i], c, port, pid);
    assert (log + events)[i] == log[i];
  }

  lemma EscalationGrows(w: World, w': World, events: seq<Event>, c: nat, e: Escalation)
    requires w'.log == w.log + events && w'.self == w.self && w'.grace == w.grace && EscalationOk(w, c, e)
    requires NoKill(w.log, c) ==> NoKill(w'.log, c)
    ensures EscalationOk(w', c, e)
  {
    if e.Sleeping? {
      TermGrows(w.log, events, c, e.pid, e.wake - w.grace);
    }
  }

  lemma InspectedGrows(log: seq<Event>, events: seq<Event>, c: nat, port: int, pid: int, info: Option<Info>)
    requires InspectedBefore(log, c, port, pid, info)
    ensures InspectedBefore(log + events, c, port, pid, info)
  {
    var i, j :| 0 <= i < j < |log| && ScanShows(log[i], c, port, pid) && log[j] == Inspected(c, pid, info);
    assert (log + events)[i] == log[i] && (log + events)[j] == log[j];
  }

  lemma ScannedGrows(log: seq<Event>, events: seq<Event>, c: nat, pid: int)
    requires ScannedInKill(log, c, pid)
    ensures ScannedInKill(log + events, c, pid)
  {
    var j :| 0 <= j < |log| && log[j].KillScan? && log[j].call == c && HasPid(log[j].listeners, pid);
    assert (log + events)[j] == log[j];
  }

  lemma TermGrows(log: seq<Event>, events: seq<Event>, c: nat, pid: int, latest: int)
    requires TermSent(log, c, pid, latest)
    ensures TermSent(log + events, c, pid, latest)
  {
    var j :| 0 <= j < |log| && log[j].SigTerm? && log[j].call == c && log[j].pid == pid && log[j].ok && log[j].at <= latest;
    assert (log + events)[j] == log[j];
  }

  lemma FollowsGrows(log: seq<Event>, events: seq<Event>, c: nat, port: int, info: Info)
    requires TermFollowsInspect(log, c, port, info)
    ensures TermFollowsInspect(log + events, c, port, info)
  {
    var i, j, k :| 0 <= i < j < k < |log|
      && log[j].Inspected? && log[j].call == c && log[j].info == Some(info)
      && ScanShows(log[i], c, port, log[j].pid)
      && log[k].SigTerm? && log[k].call == c && log[k].pid == log[j].pid && log[k].ok;
    assert (log + events)[i] == log[i] && (log + events)[j] == log[j] && (log + events)[k] == log[k];
  }

  /** An error-free SIGTERM right after the inspection completes the chain. */
  lemma FollowsNow(log: seq<Event>, c: nat, port: int, pid: int, info: Option<Info>, at: int)
    requires InspectedBefore(log, c, port, pid, info)
    ensures info.Some? ==> TermFollowsInspect(log + [SigTerm(c, pid, at, true)], c, port, info.value)
  {
    var i, j :| 0 <= i < j < |log| && ScanShows(log[i], c, port, pid) && log[j] == Inspected(c, pid, info);
    var log' := log + [SigTerm(c, pid, at, true)];
    assert log'[i] == log[i] && log'[j] == log[j] && log'[|log|] == SigTerm(c, pid, at, true);
  }

  lemma LogOkGrows(w: World, w': World, events: seq<Event>)
    requires LogOk(w) && w'.log == w.log + events && w'.self == w.self && w'.grace == w.grace
    requires |events| <= 1 && (events != [] ==> Justified(w, w.log, events[0]))
    ensures LogOk(w')
  {
    forall i | 0 <= i < |w'.log| ensures Justified(w', w'.log[..i], w'.log[i]) {
      if i < |w.log| {
        assert w'.log[..i] == w.log[..i];
        assert Justified(w, w.log[..i], w.log[i]);
      } else {
        assert w'.log[..i] == w.log;
      }
    }
  }

  /** What one step adds to the log. */
  ghost function Added(w: World, a: Action): seq<Event>
    requires Enabled(w, a)
  {
    Do(w, a).log[|w.log|..]
  }

  ghost predicate OthersUntouched(w: World, w': World, call: nat) {
    forall c: nat :: c != call ==> (c in w'.calls <==> c in w.calls) && (c in w.calls ==> w'.calls[c] == w.calls[c])
  }

  lemma StepShape(w: World, a: Action)
    requires Enabled(w, a)
    ensures var w' := Do(w, a);
      && w'.log == w.log + Added(w, a) && |Added(w, a)| <= 1
      && w'.self == w.self && w'.grace == w.grace
      && (a.Tick? ==> Added(w, a) == [] && w'.calls == w.calls)
      && (!a.Tick? ==> About(Added(w, a), a.call) && OthersUntouched(w, w', a.call))
  {
  }

  lemma TermJustified(w: World, a: Action)
    requires Inv(w) && a.Term? && Enabled(w, a)
    ensures LogOk(Do(w, a)) && CallOk(Do(w, a), a.call)
  {
    var w', c := Do(w, a), a.call;
    var ph := w.calls[c].phase;
    var e := SigTerm(c, ph.pid, w.now, a.ok);
    assert CallOk(w, c);
    LogOkGrows(w, w', [e]);
    assert w'.log[|w.log|] == e;
    if a.ok {
      assert TermSent(w'.log, c, ph.pid, w.now);
      FollowsNow(w.log, c, w.calls[c].port, ph.pid, ph.info, w.now);
    } else {
      EscalationGrows(w, w', [e], c, w.calls[c].escalation);
    }
  }

  lemma WakeJustified(w: World, a: Action)
    requires Inv(w) && a.Wake? && Enabled(w, a)
    ensures LogOk(Do(w, a)) && CallOk(Do(w, a), a.call)
  {
    var w', c := Do(w, a), a.call;
    assert CallOk(w, c);
    var esc := w.calls[c].escalation;
    var events := if a.alive then [SigKill(c, esc.pid, w.now)] else [];
    assert w'.log == w.log + events;
    assert TermSent(w.log, c, esc.pid, w.now - w.grace);
    LogOkGrows(w, w', events);
    PhaseGrows(w, w', events, c, w.calls[c].port, w.calls[c].phase);
  }

  lemma InspectJustified(w: World, a: Action)
    requires Inv(w) && a.Inspect? && Enabled(w, a)
    ensures LogOk(Do(w, a)) && CallOk(Do(w, a), a.call)
  {
    var w', c := Do(w, a), a.call;
    assert CallOk(w, c);
    var pid := w.calls[c].phase.pid;
    LogOkGrows(w, w', [Inspected(c, pid, a.info)]);
    EscalationGrows(w, w', [Inspected(c, pid, a.info)], c, w.calls[c].escalation);
    var i :| 0 <= i < |w.log| && ScanShows(w.log[i], c, w.calls[c].port, pid);
    assert w'.log[i] == w.log[i] && w'.log[|w.log|] == Inspected(c, pid, a.info);
  }

  lemma VerifyCallOk(w: World, a: Action)
    requires Inv(w) && Enabled(w, a) && a.Verify?
    ensures CallOk(Do(w, a), a.call)
  {
    var w', c := Do(w, a), a.call;
    var ph := w.calls[c].phase;
    assert CallOk(w, c);
    var events := if a.scan.Some? then [KillScan(c, a.scan.value)] else [];
    assert w'.log == w.log + events;
    EscalationGrows(w, w', events, c, w.calls[c].escalation);
    InspectedGrows(w.log, events, c, w.calls[c].port, ph.pid, ph.info);
    if w'.calls[c].phase.Signalling? {
      assert w'.log[|w.log|] == KillScan(c, a.scan.value);
      assert ScannedInKill(w'.log, c, ph.pid);
    }
  }

  lemma ResolveCallOk(w: World, a: Action)
    requires Inv(w) && Enabled(w, a) && a.Resolve?
    ensures CallOk(Do(w, a), a.call)
  {
    var w', c := Do(w, a), a.call;
    assert CallOk(w, c);
    var events := if a.scan.Some? then [HandlerScan(c, a.scan.value)] else [];
    assert w'.log == w.log + events;
    EscalationGrows(w, w', events, c, w.calls[c].escalation);
    if a.scan.Some? {
      assert w'.log[|w.log|] == events[0];
    }
  }

  lemma RememberCallOk(w: World, a: Action)
    requires Inv(w) && Enabled(w, a) && a.Remember?
    ensures CallOk(Do(w, a), a.call)
  {
    var w', c := Do(w, a), a.call;
    assert CallOk(w, c);
    EscalationGrows(w, w', Added(w, a), c, w.calls[c].escalation);
  }

  lemma QuietCallOk(w: World, a: Action)
    requires Inv(w) && Enabled(w, a) && (a.Start? || a.Enter?)
    ensures CallOk(Do(w, a), a.call)
  {
    assert CallOk(w, a.call);
    assert Do(w, a).log == w.log;
  }

  lemma HandlerJustified(w: World, a: Action)
    requires Inv(w) && Enabled(w, a) && (a.Start? || a.Resolve? || a.Enter? || a.Verify? || a.Remember?)
    ensures LogOk(Do(w, a)) && CallOk(Do(w, a), a.call)
  {
    StepShape(w, a);
    assert CallOk(w, a.call);
    LogOkGrows(w, Do(w, a), Added(w, a));
    match a {
      case Verify(_, _) => VerifyCallOk(w, a);
      case Resolve(_, _) => ResolveCallOk(w, a);
      case Remember(_, _) => RememberCallOk(w, a);
      case _ => QuietCallOk(w, a);
    }
  }

  lemma StepKeepsInv(w: World, a: Action)
    requires Inv(w) && Enabled(w, a)
    ensures Inv(Do(w, a))
  {
    var w', events := Do(w, a), Added(w, a);
    StepShape(w, a);
    match a {
      case Term(_, _) => TermJustified(w, a);
      case Wake(_, _) => WakeJustified(w, a);
      case Inspect(_, _) => InspectJustified(w, a);
      case Tick(_) => LogOkGrows(w, w', []);
      case _ => HandlerJustified(w, a);
    }
    forall c: nat ensures CallOk(w', c) {
      assert CallOk(w, c);
      if !a.Tick? && c != a.call {
        LogGrows(w, w', events, a.call, c);
      }
    }
  }

  // ---------- Whole runs ----------

  ghost predicate Run(worlds: seq<World>, actions: seq<Action>) {
    && |worlds| == |actions| + 1
    && worlds[0].calls == map[] && worlds[0].log == []
    && forall i :: 0 <= i < |actions| ==> Enabled(worlds[i], actions[i]) && worlds[i + 1] == Do(worlds[i], actions[i])
  }

  lemma {:induction false} RunKeepsInv(worlds: seq<World>, actions: seq<Action>, n: nat)
    requires Run(worlds, actions) && n <= |actions|
    ensures Inv(worlds[n]) && worlds[n].self == worlds[0].self && worlds[n].grace == worlds[0].grace
  {
    if n > 0 {
      RunKeepsInv(worlds, actions, n - 1);
      StepKeepsInv(worlds[n - 1], actions[n - 1]);
    }
  }

  /** Over all interleavings: no signal reaches the dashboard itself or a PID up to
      one; a SIGTERM goes only to a process found in a scan made inside that very
      call, at most once; a SIGKILL only to one that the same call sent an
      error-free SIGTERM at least the grace period before, at most once; and an
      entry is remembered only after an error-free SIGTERM to the process it was
      inspected from, which held the call's port. */
  lemma KillSafety(worlds: seq<World>, actions: seq<Action>, i: nat)
    requires Run(worlds, actions) && i < |worlds[|actions|].log|
    ensures var log := worlds[|actions|].log;
      match log[i]
      case SigTerm(call, pid, _, _) =>
        pid > 1 && pid != worlds[0].self && ScannedInKill(log[..i], call, pid) && NoTerm(log[..i], call)
      case SigKill(call, pid, at) =>
        pid > 1 && pid != worlds[0].self && TermSent(log[..i], call, pid, at - worlds[0].grace) && NoKill(log[..i], call)
      case Remembered(call, port, info, _) => TermFollowsInspect(log[..i], call, port, info)
      case _ => true
  {
    RunKeepsInv(worlds, actions, |actions|);
    var w := worlds[|actions|];
    assert Justified(w, w.log[..i], w.log[i]);
  }

  // ---------- One request on its own ----------

  datatype KillResult = Killed | RefusedSelf | Unknown | CannotScan | CannotSignal

  const HTTP_OK := 200
  const HTTP_FORBIDDEN := 403
  const HTTP_NOT_FOUND := 404
  const HTTP_SERVER_ERROR := 500
  const HTTP_BAD_GATEWAY := 502

  function KillOutcome(pid: int, self: int, rescan: Option<seq<Listener>>, termOk: bool): KillResult {
    if pid == self then RefusedSelf
    else if pid <= 1 then Unknown
    else if rescan.None? then CannotScan
    else if !HasPid(rescan.value, pid) then Unknown
    else if termOk then Killed else CannotSignal
  }

  /** What a kill leaves in the log. */
  function KillTrace(call: nat, pid: int, self: int, now: int, rescan: Option<seq<Listener>>, termOk: bool): seq<Event> {
    if pid == self || pid <= 1 || rescan.None? then []
    else if !HasPid(rescan.value, pid) then [KillScan(call, rescan.value)]
    else [KillScan(call, rescan.value), SigTerm(call, pid, now, termOk)]
  }

  /** The handler and the manager as the code writes them, each statement a step of
      the machine. */
  class Dashboard {
    var world: World

    constructor (self: int, configuredMs: int, now: int)
      ensures world == World(self, GraceMs(configuredMs), now, map[], []) && Inv(world)
    {
      world := World(self, GraceMs(configuredMs), now, map[], []);
    }

    method Act(a: Action)
      requires Inv(world) && Enabled(world, a)
      modifies this
      ensures world == Do(old(world), a) && Inv(world)
    {
      StepKeepsInv(world, a);
      world := Do(world, a);
    }

    /** Refuses itself and the special PIDs, looks again, and only then signals. */
    method Kill(call: nat, rescan: Option<seq<Listener>>, termOk: bool) returns (r: KillResult)
      requires Inv(world) && call in world.calls && world.calls[call].phase.Entering?
      modifies this
      ensures Inv(world) && world.self == old(world.self) && world.now == old(world.now) && world.grace == old(world.grace)
      ensures var ph := old(world.calls[call].phase);
        && r == KillOutcome(ph.pid, world.self, rescan, termOk)
        && world.log == old(world.log) + KillTrace(call, ph.pid, world.self, world.now, rescan, termOk)
        && call in world.calls && world.calls[call].port == old(world.calls[call].port)
        && (if r == Killed then world.calls[call].phase == Terminated(ph.pid, ph.info)
              && world.calls[call].escalation == Sleeping(ph.pid, world.now + world.grace)
            else world.calls[call].phase == Done && world.calls[call].escalation == old(world.calls[call].escalation))
    {
      var pid := world.calls[call].phase.pid;
      Act(Enter(call));
      if pid == world.self {
        return RefusedSelf;
      }
      if pid <= 1 {
        return Unknown;
      }
      Act(Verify(call, rescan));
      var live := VerifyLive(rescan, pid, world.self);
      if live == ScanFailed {
        return CannotScan;
      } else if live == UnknownPid {
        return Unknown;
      }
      Act(Term(call, termOk));
      return if termOk then Killed else CannotSignal;
    }

    /** Resolves the port, inspects before the kill, and remembers only after it; the
        store's answer does not change the status. */
    method HandleKillMutation(call: nat, port: int, scan: Option<seq<Listener>>, info: Option<Info>,
                              rescan: Option<seq<Listener>>, termOk: bool, store: StoreReply) returns (status: nat)
      requires Inv(world) && call !in world.calls
      modifies this
      ensures Inv(world)
      ensures status == HTTP_BAD_GATEWAY <==> scan.None?
      ensures scan.None? ==> world.log == old(world.log)
      ensures status == HTTP_NOT_FOUND <==> scan.Some? && PidOnPort(scan.value, port) == None
      ensures status == HTTP_NOT_FOUND ==> world.log == old(world.log) + [HandlerScan(call, scan.value)]
      ensures scan.Some? && PidOnPort(scan.value, port).Some? ==>
        var pid := PidOnPort(scan.value, port).value;
        && status == (match KillOutcome(pid, world.self, rescan, termOk)
                      case Killed => HTTP_OK case RefusedSelf => HTTP_FORBIDDEN case _ => HTTP_SERVER_ERROR)
        && world.log == old(world.log) + [HandlerScan(call, scan.value)]
             + (if pid == world.self then [] else [Inspected(call, pid, info)])
             + KillTrace(call, pid, world.self, world.now, rescan, termOk)
             + if status == HTTP_OK then HandedOver(call, port, info, store) else []
    {
      Act(Start(call, port));
      var found := ResolvePidForPort(scan, port);
      Act(Resolve(call, scan));
      if found.None? {
        return HTTP_BAD_GATEWAY;
      }
      if found.value.None? {
        return HTTP_NOT_FOUND;
      }
      if found.value.value == world.self {
        return HTTP_FORBIDDEN;
      }
      Act(Inspect(call, info));
      var r := Kill(call, rescan, termOk);
      if r != Killed {
        return if r == RefusedSelf then HTTP_FORBIDDEN else HTTP_SERVER_ERROR;
      }
      Act(Remember(call, store));
      return HTTP_OK;
    }

    /** The escalation goroutine after its sleep. */
    method Escalate(call: nat, alive: bool)
      requires Inv(world) && Enabled(world, Wake(call, alive))
      modifies this
      ensures Inv(world)
      ensures world.log == old(world.log) + if alive then [SigKill(call, old(world.calls[call].escalation.pid), world.now)] else []
      ensures call in world.calls && world.calls[call].escalation == Over
    {
      Act(Wake(call, alive));
    }
  }
}
