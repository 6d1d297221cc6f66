/** Building the dashboard rows, one worker per listener under a semaphore. */
module ViewModels {
  import opened Listeners
  import opened Sequences

  datatype Info = Info(command: seq<string>, cwd: string, startTime: Option<int>)

  datatype PortVM = PortVM(
    port: int, pid: int, text: string, cmd: string, cwd: string, uptimeS: int, uptime: string,
    source: string, addrs: seq<string>, alive: bool)

  /** What a slot holds before its worker writes it. */
  const BLANK := PortVM(0, 0, "", "", "", 0, "", "", [], false)

  const MAX_PARALLEL := 8
  const SECOND := 1_000_000_000

  /** Inspector, label store and clock as functions; None models an error, a
      vanished process, or a missing collaborator. */
  datatype Sources = Sources(
    inspect: int -> Option<Info>, lookup: (string, seq<string>) -> Option<string>,
    formatUptime: int -> string, now: int)

  /** One row; it depends on its listener only. */
  function BuildOne(src: Sources, l: Listener): PortVM {
    var bare := PortVM(l.port, l.pid, "", "", "", 0, "", "external", l.addrs, true);
    match src.inspect(l.pid)
    case None => bare
    case Some(info) =>
      var named := bare.(cmd := Join(info.command, ' '), cwd := info.cwd);
      var timed :=
        if info.startTime.None? then named
        else
          var dur := if src.now - info.startTime.value < 0 then 0 else src.now - info.startTime.value;
          named.(uptimeS := dur / SECOND, uptime := src.formatUptime(dur));
      var text := src.lookup(info.cwd, info.command);
      if text.Some? then timed.(text := text.value) else timed
  }

  /** The rows a plain loop would produce, in listener order. */
  function Rows(src: Sources, listeners: seq<Listener>, self: int): seq<PortVM> {
    if listeners == [] then []
    else
      var l := listeners[0];
      (if l.pid == self || (l.port == 0 && l.pid == 0) then [] else [BuildOne(src, l)]) + Rows(src, listeners[1..], self)
  }

  /** Dropping the blank slots. */
  function Kept(results: seq<PortVM>): seq<PortVM> {
    if results == [] then []
    else (if results[0].port == 0 && results[0].pid == 0 then [] else [results[0]]) + Kept(results[1..])
  }

  predicate ByPort(a: PortVM, b: PortVM) {
    a.port <= b.port
  }

  // ---------- The schedule ----------

  datatype Worker = Unstarted | Skipped | Running | Written | Released | Finished

  datatype Main = Loop(next: nat) | Acquiring(at: nat) | Waiting | Returned

  datatype State = State(main: Main, sem: int, wg: int, workers: seq<Worker>, results: seq<PortVM>)

  datatype Action = MainStep | WorkerStep(j: nat)

  datatype Job = Job(src: Sources, listeners: seq<Listener>, self: int)

  function Init(job: Job): State {
    State(Loop(0), 0, 0, seq(|job.listeners|, _ => Unstarted), seq(|job.listeners|, _ => BLANK))
  }

  /** Sending on a full semaphore and waiting on a busy group both block. */
  predicate Enabled(s: State, a: Action) {
    match a
    case MainStep =>
      (match s.main
       case Loop(_) => true
       case Acquiring(_) => s.sem < MAX_PARALLEL
       case Waiting => s.wg == 0
       case Returned => false)
    case WorkerStep(j) => j < |s.workers| && (s.workers[j].Running? || s.workers[j].Written? || s.workers[j].Released?)
  }

  /** The slots match the listeners and the loop is within them. */
  predicate Shaped(job: Job, s: State) {
    && |s.workers| == |job.listeners| == |s.results|
    && (s.main.Loop? ==> s.main.next <= |job.listeners|)
    && (s.main.Acquiring? ==> s.main.at < |job.listeners|)
  }

  function Do(job: Job, s: State, a: Action): State
    requires Shaped(job, s) && Enabled(s, a)
  {
    match a
    case MainStep =>
      (match s.main
       case Loop(i) =>
         if i == |job.listeners| then s.(main := Waiting)
         else if job.listeners[i].pid == job.self then s.(main := Loop(i + 1), workers := s.workers[i := Skipped])
         else s.(main := Acquiring(i), wg := s.wg + 1)
       case Acquiring(i) => s.(main := Loop(i + 1), sem := s.sem + 1, workers := s.workers[i := Running])
       case Waiting => s.(main := Returned)
       case Returned => s)
    case WorkerStep(j) =>
      (match s.workers[j]
       case Running => s.(workers := s.workers[j := Written], results := s.results[j := BuildOne(job.src, job.listeners[j])])
       case Written => s.(workers := s.workers[j := Released], sem := s.sem - 1)
       case Released => s.(workers := s.workers[j := Finished], wg := s.wg - 1)
       case _ => s)
  }

  // ---------- Counting workers ----------

  predicate Inspecting(w: Worker) { w.Running? }
  predicate HoldsSem(w: Worker) { w.Running? || w.Written? }
  predicate InGroup(w: Worker) { w.Running? || w.Written? || w.Released? }

  lemma {:induction false} CountUpdate(p: Worker -> bool, ws: seq<Worker>, j: nat, w: Worker)
    requires j < |ws|
    ensures Count(p, ws[j := w]) == Count(p, ws) - (if p(ws[j]) then 1 else 0) + (if p(w) then 1 else 0)
  {
    if j == 0 {
      assert ws[j := w][1..] == ws[1..];
    } else {
      assert ws[j := w][1..] == ws[1..][j - 1 := w];
      CountUpdate(p, ws[1..], j - 1, w);
    }
  }

  lemma {:induction false} CountPositive(p: Worker -> bool, ws: seq<Worker>, j: nat)
    requires j < |ws| && p(ws[j])
    ensures Count(p, ws) > 0
  {
    if j > 0 {
      CountPositive(p, ws[1..], j - 1);
    }
  }

  lemma {:induction false} CountWitness(p: Worker -> bool, ws: seq<Worker>) returns (j: nat)
    requires Count(p, ws) > 0
    ensures j < |ws| && p(ws[j])
  {
    if p(ws[0]) {
      return 0;
    }
    j := CountWitness(p, ws[1..]);
    j := j + 1;
  }

  lemma {:induction false} CountMonotone(p: Worker -> bool, q: Worker -> bool, ws: seq<Worker>)
    requires forall w :: p(w) ==> q(w)
    ensures Count(p, ws) <= Count(q, ws)
  {
    if ws != [] {
      CountMonotone(p, q, ws[1..]);
    }
  }

  lemma WorkersPositive(ws: seq<Worker>, j: nat)
    requires j < |ws|
    ensures HoldsSem(ws[j]) ==> Count(HoldsSem, ws) > 0
    ensures InGroup(ws[j]) ==> Count(InGroup, ws) > 0
  {
    if HoldsSem(ws[j]) {
      CountPositive(HoldsSem, ws, j);
    }
    if InGroup(ws[j]) {
      CountPositive(InGroup, ws, j);
    }
  }

  // ---------- The invariant ----------

  /** How many listeners the loop has dealt with. */
  function Reached(job: Job, s: State): nat {
    match s.main
    case Loop(i) => i
    case Acquiring(i) => i
    case _ => |job.listeners|
  }

  ghost predicate SlotOk(job: Job, s: State, j: nat)
    requires j < |job.listeners| && |s.workers| == |job.listeners| == |s.results|
  {
    var w := s.workers[j];
    && (w.Unstarted? <==> j >= Reached(job, s))
    && (w.Skipped? ==> job.listeners[j].pid == job.self)
    && (!w.Unstarted? && !w.Skipped? ==> job.listeners[j].pid != job.self)
    && s.results[j] == if w.Unstarted? || w.Skipped? || w.Running? then BLANK else BuildOne(job.src, job.listeners[j])
  }

  ghost predicate Inv(job: Job, s: State) {
    && Shaped(job, s)
    && (s.main.Acquiring? ==> job.listeners[s.main.at].pid != job.self)
    && (forall j :: 0 <= j < |job.listeners| ==> SlotOk(job, s, j))
    && s.sem == Count(HoldsSem, s.workers) <= MAX_PARALLEL
    && s.wg == Count(InGroup, s.workers) + (if s.main.Acquiring? then 1 else 0)
    && (s.main.Returned? ==> s.wg == 0)
  }

  lemma InitInv(job: Job)
    ensures Inv(job, Init(job))
  {
    CountZero(HoldsSem, Init(job).workers);
    CountZero(InGroup, Init(job).workers);
  }

  lemma CountsAfter(ws: seq<Worker>, j: nat, w: Worker)
    requires j < |ws|
    ensures Count(HoldsSem, ws[j := w]) == Count(HoldsSem, ws) - (if HoldsSem(ws[j]) then 1 else 0) + (if HoldsSem(w) then 1 else 0)
    ensures Count(InGroup, ws[j := w]) == Count(InGroup, ws) - (if InGroup(ws[j]) then 1 else 0) + (if InGroup(w) then 1 else 0)
  {
    CountUpdate(HoldsSem, ws, j, w);
    CountUpdate(InGroup, ws, j, w);
  }

  lemma MainKeepsInv(job: Job, s: State)
    requires Inv(job, s) && Enabled(s, MainStep)
    ensures Inv(job, Do(job, s, MainStep))
  {
    var i, s' := Reached(job, s), Do(job, s, MainStep);
    if i < |job.listeners| {
      assert SlotOk(job, s, i);
      CountsAfter(s.workers, i, Skipped);
      CountsAfter(s.workers, i, Running);
    }
    forall j | 0 <= j < |job.listeners| ensures SlotOk(job, s', j) {
      assert SlotOk(job, s, j);
    }
  }

  lemma WorkerKeepsInv(job: Job, s: State, j: nat)
    requires Inv(job, s) && Enabled(s, WorkerStep(j))
    ensures Inv(job, Do(job, s, WorkerStep(j)))
  {
    var s' := Do(job, s, WorkerStep(j));
    WorkersPositive(s.workers, j);
    CountsAfter(s.workers, j, s'.workers[j]);
    forall k | 0 <= k < |job.listeners| ensures SlotOk(job, s', k) {
      assert SlotOk(job, s, k);
    }
  }

  /** Every step of main and workers keeps the invariant. */
  lemma StepKeepsInv(job: Job, s: State, a: Action)
    requires Inv(job, s) && Enabled(s, a)
    ensures Inv(job, Do(job, s, a))
  {
    match a {
      case MainStep => MainKeepsInv(job, s);
      case WorkerStep(j) => WorkerKeepsInv(job, s, j);
    }
  }

  // ---------- Bounded, live, terminating ----------

  /** At most MAX_PARALLEL inspections are in flight. */
  lemma InspectionsBounded(job: Job, s: State)
    requires Inv(job, s)
    ensures Count(Inspecting, s.workers) <= 8
  {
    CountMonotone(Inspecting, HoldsSem, s.workers);
  }

  /** Until the function returns, some step is possible. */
  lemma NoDeadlock(job: Job, s: State) returns (a: Action)
    requires Inv(job, s) && !s.main.Returned?
    ensures Enabled(s, a)
  {
    if Enabled(s, MainStep) {
      return MainStep;
    }
    if s.main.Waiting? {
      var j := CountWitness(InGroup, s.workers);
      return WorkerStep(j);
    }
    var j := CountWitness(HoldsSem, s.workers);
    return WorkerStep(j);
  }

  function WorkLeft(ws: seq<Worker>): nat {
    if ws == [] then 0
    else (match ws[0] case Running => 3 case Written => 2 case Released => 1 case _ => 0) + WorkLeft(ws[1..])
  }

  lemma {:induction false} WorkUpdate(ws: seq<Worker>, j: nat, w: Worker)
    requires j < |ws|
    ensures WorkLeft(ws[j := w]) == WorkLeft(ws) - WorkLeft([ws[j]]) + WorkLeft([w])
  {
    if j == 0 {
      assert ws[j := w][1..] == ws[1..];
    } else {
      assert ws[j := w][1..] == ws[1..][j - 1 := w];
      WorkUpdate(ws[1..], j - 1, w);
    }
  }

  /** Steps still to come. */
  function Measure(job: Job, s: State): nat
    requires Shaped(job, s)
  {
    WorkLeft(s.workers) + match s.main
    case Loop(i) => (|job.listeners| - i) * 5 + 2
    case Acquiring(i) => (|job.listeners| - i) * 5 + 1
    case Waiting => 1
    case Returned => 0
  }

  lemma StepDecreases(job: Job, s: State, a: Action)
    requires Inv(job, s) && Enabled(s, a)
    ensures Inv(job, Do(job, s, a)) && Measure(job, Do(job, s, a)) < Measure(job, s)
  {
    StepKeepsInv(job, s, a);
    var s' := Do(job, s, a);
    var at := if a.WorkerStep? then a.j else Reached(job, s);
    if s'.workers != s.workers {
      assert at < |job.listeners| && SlotOk(job, s, at);
      WorkUpdate(s.workers, at, s'.workers[at]);
    }
  }

  // ---------- The result ----------

  lemma {:induction false} KeptRows(job: Job, results: seq<PortVM>, n: nat)
    requires n <= |job.listeners| == |results|
    requires forall j :: n <= j < |results| ==>
      results[j] == if job.listeners[j].pid == job.self then BLANK else BuildOne(job.src, job.listeners[j])
    ensures Kept(results[n..]) == Rows(job.src, job.listeners[n..], job.self)
    decreases |results| - n
  {
    if n < |results| {
      KeptRows(job, results, n + 1);
      assert results[n..][1..] == results[n + 1..] && job.listeners[n..][1..] == job.listeners[n + 1..];
    }
  }

  /** When the function returns, whatever the schedule was, the kept slots are the
      rows of the plain loop, in its order. */
  lemma ParallelIsSequential(job: Job, s: State)
    requires Inv(job, s) && s.main.Returned?
    ensures Kept(s.results) == Rows(job.src, job.listeners, job.self)
  {
    forall j | 0 <= j < |job.listeners|
      ensures s.results[j] == if job.listeners[j].pid == job.self then BLANK else BuildOne(job.src, job.listeners[j])
    {
      assert SlotOk(job, s, j);
      WorkersPositive(s.workers, j);
    }
    KeptRows(job, s.results, 0);
    assert s.results[0..] == s.results && job.listeners[0..] == job.listeners;
  }

  // ---------- Whole schedules ----------

  ghost predicate Schedule(job: Job, states: seq<State>, actions: seq<Action>) {
    && |states| == |actions| + 1 && states[0] == Init(job)
    && forall i :: 0 <= i < |actions| ==>
         Shaped(job, states[i]) && Enabled(states[i], actions[i]) && states[i + 1] == Do(job, states[i], actions[i])
  }

  /** Every schedule is short, keeps to the bound, and ends, if it cannot go on,
      with the sequential rows. */
  lemma {:induction false} EverySchedule(job: Job, states: seq<State>, actions: seq<Action>)
    requires Schedule(job, states, actions)
    ensures var s := states[|actions|];
      && Inv(job, s) && Count(Inspecting, s.workers) <= 8
      && |actions| + Measure(job, s) <= 5 * |job.listeners| + 2
      && ((forall a :: !Enabled(s, a)) ==> s.main.Returned? && Kept(s.results) == Rows(job.src, job.listeners, job.self))
  {
    var s := states[|actions|];
    if actions == [] {
      InitInv(job);
      NoWork(s.workers);
    } else {
      var k := |actions| - 1;
      EverySchedule(job, states[..k + 1], actions[..k]);
      StepDecreases(job, states[k], actions[k]);
    }
    InspectionsBounded(job, s);
    if s.main.Returned? {
      ParallelIsSequential(job, s);
    } else {
      var a := NoDeadlock(job, s);
    }
  }

  lemma {:induction false} NoWork(ws: seq<Worker>)
    requires forall j :: 0 <= j < |ws| ==> ws[j].Unstarted?
    ensures WorkLeft(ws) == 0
  {
    if ws != [] {
      NoWork(ws[1..]);
    }
  }

  // ---------- The function ----------

  predicate SortedRows(rows: seq<PortVM>, out: seq<PortVM>) {
    && (forall i, j :: 0 <= i < j < |out| ==> ByPort(out[i], out[j]))
    && multiset(out) == multiset(rows)
  }

  lemma SortedRowsExist(rows: seq<PortVM>)
    ensures exists out :: SortedRows(rows, out)
  {
    assert TotalOrder(ByPort);
    SortSorts(ByPort, rows);
    assert SortedRows(rows, Sort(ByPort, rows));
  }

  /** Picks any schedule, and any order among rows of equal port. */
  method BuildViewModels(job: Job) returns (out: seq<PortVM>)
    ensures SortedBy(ByPort, out)
    ensures multiset(out) == multiset(Rows(job.src, job.listeners, job.self))
  {
    if |job.listeners| == 0 {
      return [];
    }
    var s := Init(job);
    InitInv(job);
    while !s.main.Returned?
      invariant Inv(job, s)
      decreases Measure(job, s)
    {
      ghost var possible := NoDeadlock(job, s);
      var a :| Enabled(s, a);
      StepDecreases(job, s, a);
      s := Do(job, s, a);
    }
    ParallelIsSequential(job, s);
    var kept := Kept(s.results);
    SortedRowsExist(kept);
    out :| SortedRows(kept, out);
  }

  /** With distinct ports the result does not depend on anything but the input. */
  lemma ResultUnique(rows: seq<PortVM>, out: seq<PortVM>, out': seq<PortVM>)
    requires SortedRows(rows, out) && SortedRows(rows, out')
    requires forall i, j :: 0 <= i < j < |rows| ==> rows[i].port != rows[j].port
    ensures out == out'
  {
    forall x, y | x in out && y in out && ByPort(x, y) && ByPort(y, x) ensures x == y {
      assert x in multiset(out) && y in multiset(out);
      assert x in rows && y in rows;
    }
    SortedUnique(ByPort, out, out');
  }
}
