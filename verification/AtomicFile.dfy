/** Replacing a file through a temporary. */
module AtomicFile {
  // Write, fsync, rename, and for the configuration file also an fsync of the
  // directory, as steps over a page cache, a directory with a journal of pending
  // changes, and crashes.

  import opened Sequences

  type Bytes = seq<byte>
  type Ino = nat

  /** `clean` says the medium holds `bytes`; a crash scrambles what is not clean. */
  datatype Inode = Inode(bytes: Bytes, clean: bool)

  /** The two names in play: the file itself and its temporary. */
  datatype Dir = Dir(target: Option<Ino>, tmp: Option<Ino>)

  datatype DirOp = LinkTmp(ino: Ino) | RenameTmp | UnlinkTmp

  datatype Phase =
    | Idle
    | Writing(ino: Ino, data: Bytes, written: nat)
    | Synced(ino: Ino, data: Bytes)
    | Closed(ino: Ino, data: Bytes)
    | Renamed
    | Failing

  /** `medium` is the directory a crash falls back to and `pending` the changes
      made since, which reach the medium in order. `commits` lists every content
      the file has had, and commits[durable] is the one named by `medium`. */
  datatype Disk = Disk(
    inodes: map<Ino, Inode>, medium: Dir, pending: seq<DirOp>, phase: Phase,
    commits: seq<Option<Bytes>>, durable: nat)

  function ApplyOp(d: Dir, op: DirOp): Dir {
    match op
    case LinkTmp(ino) => d.(tmp := Some(ino))
    case RenameTmp => if d.tmp.Some? then Dir(d.tmp, None) else d
    case UnlinkTmp => d.(tmp := None)
  }

  function Apply(d: Dir, ops: seq<DirOp>): Dir {
    if ops == [] then d else ApplyOp(Apply(d, ops[..|ops| - 1]), ops[|ops| - 1])
  }

  function Renames(ops: seq<DirOp>): nat {
    if ops == [] then 0 else Renames(ops[..|ops| - 1]) + if ops[|ops| - 1].RenameTmp? then 1 else 0
  }

  /** The directory the running system sees. */
  function Live(s: Disk): Dir {
    Apply(s.medium, s.pending)
  }

  function Content(s: Disk, d: Dir): Option<Bytes> {
    if d.target.Some? && d.target.value in s.inodes then Some(s.inodes[d.target.value].bytes) else None
  }

  /** What opening the file by name reads. */
  function Read(s: Disk): Option<Bytes> {
    Content(s, Live(s))
  }

  // ---------- Steps ----------

  datatype Action =
    | Open(data: Bytes, newIno: Ino)
    | Write(upTo: nat)
    | Sync
    | Close
    | Rename
    | SyncDir
    | Finish
    | Fail
    | Remove
    | LeaveTmp
    | Writeback(ino: Ino)
    | Flush(count: nat)
    | Crash(count: nat, garbage: Ino -> Bytes)

  predicate Enabled(s: Disk, a: Action) {
    match a
    case Open(_, newIno) => s.phase.Idle? && newIno !in s.inodes
    case Write(upTo) => s.phase.Writing? && s.phase.written < upTo <= |s.phase.data|
    case Sync => s.phase.Writing? && s.phase.written == |s.phase.data|
    case Close => s.phase.Synced?
    case Rename => s.phase.Closed?
    case SyncDir => s.phase.Renamed?
    case Finish => s.phase.Renamed?
    case Fail => s.phase.Writing? || s.phase.Synced? || s.phase.Closed?
    case Remove => s.phase.Failing?
    case LeaveTmp => s.phase.Failing?
    case Writeback(ino) => ino in s.inodes
    case Flush(count) => count <= |s.pending|
    case Crash(count, _) => count <= |s.pending|
  }

  /** The first `count` pending changes reach the medium. */
  function FlushDir(s: Disk, count: nat): Disk
    requires count <= |s.pending|
  {
    s.(medium := Apply(s.medium, s.pending[..count]), pending := s.pending[count..],
       durable := s.durable + Renames(s.pending[..count]))
  }

  function SetInode(s: Disk, ino: Ino, bytes: Bytes, clean: bool): Disk {
    s.(inodes := s.inodes[ino := Inode(bytes, clean)])
  }

  function Do(s: Disk, a: Action): Disk
    requires Enabled(s, a)
  {
    match a
    case Open(data, newIno) =>
      var live := Live(s);
      if live.tmp.Some? then
        SetInode(s, live.tmp.value, [], false).(phase := Writing(live.tmp.value, data, 0))
      else
        SetInode(s, newIno, [], false).(pending := s.pending + [LinkTmp(newIno)], phase := Writing(newIno, data, 0))
    case Write(upTo) =>
      SetInode(s, s.phase.ino, s.phase.data[..upTo], false).(phase := s.phase.(written := upTo))
    case Sync => SetInode(s, s.phase.ino, s.phase.data, true).(phase := Synced(s.phase.ino, s.phase.data))
    case Close => s.(phase := Closed(s.phase.ino, s.phase.data))
    case Rename => s.(pending := s.pending + [RenameTmp], commits := s.commits + [Some(s.phase.data)], phase := Renamed)
    case SyncDir => FlushDir(s, |s.pending|)
    case Finish => s.(phase := Idle)
    case Fail => s.(phase := Failing)
    case Remove => s.(pending := s.pending + [UnlinkTmp], phase := Idle)
    case LeaveTmp => s.(phase := Idle)
    case Writeback(ino) => SetInode(s, ino, s.inodes[ino].bytes, true)
    case Flush(count) => FlushDir(s, count)
    case Crash(count, garbage) =>
      var f := FlushDir(s, count);
      f.(inodes := map i | i in s.inodes :: if s.inodes[i].clean then s.inodes[i] else Inode(garbage(i), true),
         pending := [], phase := Idle,
         commits := if f.durable < |s.commits| then s.commits[..f.durable + 1] else s.commits)
  }

  // ---------- Invariant ----------

  /** The directory a crash falls back to when `k` pending changes got through. */
  function Candidate(s: Disk, k: nat): Dir
    requires k <= |s.pending|
  {
    Apply(s.medium, s.pending[..k])
  }

  /** Which content that directory names. */
  function Version(s: Disk, k: nat): nat
    requires k <= |s.pending|
  {
    s.durable + Renames(s.pending[..k])
  }

  /** The directory's file is complete and on the medium; its temporary, if any,
      is another inode. */
  ghost predicate Sound(inodes: map<Ino, Inode>, d: Dir, content: Option<Bytes>) {
    && (d.tmp.Some? ==> d.tmp.value in inodes && d.tmp != d.target)
    && (d.target.Some? ==> d.target.value in inodes && inodes[d.target.value].clean)
    && content == (if d.target.Some? then Some(inodes[d.target.value].bytes) else None)
  }

  ghost predicate SoundAt(s: Disk, k: nat)
    requires k <= |s.pending|
  {
    && Version(s, k) < |s.commits|
    && Sound(s.inodes, Candidate(s, k), s.commits[Version(s, k)])
    && (Live(s).tmp.Some? ==> Candidate(s, k).target != Live(s).tmp)
  }

  ghost predicate PhaseOk(s: Disk) {
    match s.phase
    case Writing(ino, data, written) =>
      Live(s).tmp == Some(ino) && written <= |data| && ino in s.inodes && s.inodes[ino].bytes == data[..written]
    case Synced(ino, data) => Live(s).tmp == Some(ino) && ino in s.inodes && s.inodes[ino] == Inode(data, true)
    case Closed(ino, data) => Live(s).tmp == Some(ino) && ino in s.inodes && s.inodes[ino] == Inode(data, true)
    case _ => true
  }

  ghost predicate Inv(s: Disk) {
    && |s.commits| == s.durable + Renames(s.pending) + 1
    && (forall k :: 0 <= k <= |s.pending| ==> SoundAt(s, k))
    && PhaseOk(s)
  }

  lemma LiveIsLast(s: Disk)
    ensures Candidate(s, |s.pending|) == Live(s) && Version(s, |s.pending|) == s.durable + Renames(s.pending)
  {
    assert s.pending[..|s.pending|] == s.pending;
  }

  lemma {:induction false} ApplyConcat(d: Dir, a: seq<DirOp>, b: seq<DirOp>)
    ensures Apply(d, a + b) == Apply(Apply(d, a), b)
    ensures Renames(a + b) == Renames(a) + Renames(b)
  {
    if b == [] {
      assert a + b == a;
    } else {
      var n := |b| - 1;
      ApplyConcat(d, a, b[..n]);
      assert (a + b)[..|a + b| - 1] == a + b[..n];
    }
  }

  lemma FlushCandidates(s: Disk, count: nat, k: nat)
    requires count + k <= |s.pending|
    ensures Candidate(FlushDir(s, count), k) == Candidate(s, count + k)
    ensures Version(FlushDir(s, count), k) == Version(s, count + k)
  {
    ApplyConcat(s.medium, s.pending[..count], s.pending[count..][..k]);
    assert s.pending[..count] + s.pending[count..][..k] == s.pending[..count + k];
  }

  lemma FlushKeeps(s: Disk, count: nat)
    requires Inv(s) && count <= |s.pending|
    ensures Inv(FlushDir(s, count)) && Live(FlushDir(s, count)) == Live(s)
    ensures FlushDir(s, count).durable < |s.commits|
  {
    var f := FlushDir(s, count);
    ApplyConcat(s.medium, s.pending[..count], s.pending[count..]);
    assert s.pending == s.pending[..count] + s.pending[count..];
    forall k | 0 <= k <= |f.pending| ensures SoundAt(f, k) {
      FlushCandidates(s, count, k);
      assert SoundAt(s, count + k);
    }
  }

  /** Rewriting the live temporary, or a fresh inode, disturbs no version. */
  lemma SetInodeKeeps(s: Disk, ino: Ino, bytes: Bytes, clean: bool)
    requires Inv(s) && (Live(s).tmp == Some(ino) || ino !in s.inodes)
    ensures Inv(SetInode(s, ino, bytes, clean).(phase := Idle))
  {
    var t := SetInode(s, ino, bytes, clean).(phase := Idle);
    forall k | 0 <= k <= |t.pending| ensures SoundAt(t, k) {
      assert SoundAt(s, k) && Candidate(t, k) == Candidate(s, k) && Version(t, k) == Version(s, k);
    }
  }

  /** Changing only the phase keeps every version sound. */
  lemma PhaseKeeps(s: Disk, phase: Phase)
    requires Inv(s) && PhaseOk(s.(phase := phase))
    ensures Inv(s.(phase := phase))
  {
    var t := s.(phase := phase);
    forall k | 0 <= k <= |t.pending| ensures SoundAt(t, k) {
      assert SoundAt(s, k) && Candidate(t, k) == Candidate(s, k) && Version(t, k) == Version(s, k);
    }
  }

  /** The effect of one more directory change, before any check. */
  function Queue(s: Disk, op: DirOp, commits: seq<Option<Bytes>>): Disk {
    s.(pending := s.pending + [op], commits := commits, phase := Idle)
  }

  lemma QueueCandidates(s: Disk, op: DirOp, commits: seq<Option<Bytes>>)
    ensures var t := Queue(s, op, commits);
      && Live(t) == ApplyOp(Live(s), op)
      && Renames(t.pending) == Renames(s.pending) + (if op.RenameTmp? then 1 else 0)
      && forall k :: 0 <= k <= |s.pending| ==> Candidate(t, k) == Candidate(s, k) && Version(t, k) == Version(s, k)
  {
    var t := Queue(s, op, commits);
    assert t.pending[..|s.pending|] == s.pending;
    forall k | 0 <= k <= |s.pending|
      ensures Candidate(t, k) == Candidate(s, k) && Version(t, k) == Version(s, k)
    {
      assert t.pending[..k] == s.pending[..k];
    }
  }

  /** One more directory change is safe if the directory it leads to is sound and
      its temporary is not the file of any earlier candidate. */
  lemma QueueKeeps(s: Disk, op: DirOp, added: seq<Option<Bytes>>)
    requires Inv(s) && |added| == if op.RenameTmp? then 1 else 0
    requires Sound(s.inodes, ApplyOp(Live(s), op), (s.commits + added)[|s.commits + added| - 1])
    requires var tmp := ApplyOp(Live(s), op).tmp;
      tmp.Some? ==> forall k :: 0 <= k <= |s.pending| ==> Candidate(s, k).target != tmp
    ensures Inv(Queue(s, op, s.commits + added))
  {
    var t := Queue(s, op, s.commits + added);
    QueueCandidates(s, op, s.commits + added);
    LiveIsLast(t);
    forall k | 0 <= k <= |t.pending| ensures SoundAt(t, k) {
      if k <= |s.pending| {
        assert SoundAt(s, k);
      }
    }
  }

  lemma OpenKeeps(s: Disk, data: Bytes, newIno: Ino)
    requires Inv(s) && Enabled(s, Open(data, newIno))
    ensures Inv(Do(s, Open(data, newIno)))
  {
    LiveIsLast(s);
    assert SoundAt(s, |s.pending|);
    var ino := if Live(s).tmp.Some? then Live(s).tmp.value else newIno;
    SetInodeKeeps(s, ino, [], false);
    var t := SetInode(s, ino, [], false).(phase := Idle);
    if Live(s).tmp.None? {
      forall k | 0 <= k <= |t.pending| ensures Candidate(t, k).target != Some(newIno) {
        assert SoundAt(s, k) && Candidate(t, k) == Candidate(s, k);
      }
      QueueKeeps(t, LinkTmp(newIno), []);
      QueueCandidates(t, LinkTmp(newIno), t.commits);
      assert t.commits + [] == t.commits;
      t := Queue(t, LinkTmp(newIno), t.commits);
    }
    PhaseKeeps(t, Writing(ino, data, 0));
  }

  lemma RenameKeeps(s: Disk)
    requires Inv(s) && Enabled(s, Rename)
    ensures Inv(Do(s, Rename))
  {
    QueueKeeps(s, RenameTmp, [Some(s.phase.data)]);
    PhaseKeeps(Queue(s, RenameTmp, s.commits + [Some(s.phase.data)]), Renamed);
  }

  lemma RemoveKeeps(s: Disk)
    requires Inv(s) && Enabled(s, Remove)
    ensures Inv(Do(s, Remove))
  {
    LiveIsLast(s);
    assert SoundAt(s, |s.pending|);
    assert s.commits + [] == s.commits;
    QueueKeeps(s, UnlinkTmp, []);
  }

  lemma CrashKeeps(s: Disk, count: nat, garbage: Ino -> Bytes)
    requires Inv(s) && Enabled(s, Crash(count, garbage))
    ensures Inv(Do(s, Crash(count, garbage)))
    ensures Read(Do(s, Crash(count, garbage))) == s.commits[Version(s, count)]
  {
    var t := Do(s, Crash(count, garbage));
    FlushKeeps(s, count);
    FlushCandidates(s, count, 0);
    assert SoundAt(s, count);
    LiveIsLast(t);
    assert SoundAt(t, 0);
  }

  lemma WritebackKeeps(s: Disk, ino: Ino)
    requires Inv(s) && Enabled(s, Writeback(ino))
    ensures Inv(Do(s, Writeback(ino)))
  {
    var t := Do(s, Writeback(ino));
    forall k | 0 <= k <= |t.pending| ensures SoundAt(t, k) {
      assert SoundAt(s, k) && Candidate(t, k) == Candidate(s, k) && Version(t, k) == Version(s, k);
    }
  }

  /** Every step, crashes included, keeps the invariant. */
  lemma StepKeepsInv(s: Disk, a: Action)
    requires Inv(s) && Enabled(s, a)
    ensures Inv(Do(s, a))
  {
    match a {
      case Open(data, newIno) => OpenKeeps(s, data, newIno);
      case Write(upTo) =>
        SetInodeKeeps(s, s.phase.ino, s.phase.data[..upTo], false);
        PhaseKeeps(SetInode(s, s.phase.ino, s.phase.data[..upTo], false).(phase := Idle), s.phase.(written := upTo));
      case Sync =>
        SetInodeKeeps(s, s.phase.ino, s.phase.data, true);
        PhaseKeeps(SetInode(s, s.phase.ino, s.phase.data, true).(phase := Idle), Synced(s.phase.ino, s.phase.data));
      case Close => PhaseKeeps(s, Closed(s.phase.ino, s.phase.data));
      case Rename => RenameKeeps(s);
      case SyncDir => FlushKeeps(s, |s.pending|);
      case Finish => PhaseKeeps(s, Idle);
      case Fail => PhaseKeeps(s, Failing);
      case Remove => RemoveKeeps(s);
      case LeaveTmp => PhaseKeeps(s, Idle);
      case Writeback(ino) => WritebackKeeps(s, ino);
      case Flush(count) => FlushKeeps(s, count);
      case Crash(count, garbage) => CrashKeeps(s, count, garbage);
    }
  }

  // ---------- Whole runs ----------

  /** A disk at start-up: the file as found, and perhaps a stale temporary. */
  function Start(content: Option<Bytes>, stale: Option<Bytes>): Disk {
    var withFile := if content.Some? then map[0 := Inode(content.value, true)] else map[];
    var withTmp := if stale.Some? then map[1 := Inode(stale.value, false)] else map[];
    Disk(withFile + withTmp,
         Dir(if content.Some? then Some(0) else None, if stale.Some? then Some(1) else None),
         [], Idle, [content], 0)
  }

  lemma StartInv(content: Option<Bytes>, stale: Option<Bytes>)
    ensures Inv(Start(content, stale))
  {
    var s := Start(content, stale);
    LiveIsLast(s);
    assert SoundAt(s, 0);
  }

  ghost predicate Run(states: seq<Disk>, actions: seq<Action>) {
    && |states| == |actions| + 1
    && forall i :: 0 <= i < |actions| ==> Enabled(states[i], actions[i]) && states[i + 1] == Do(states[i], actions[i])
  }

  lemma {:induction false} RunKeepsInv(states: seq<Disk>, actions: seq<Action>, n: nat)
    requires Run(states, actions) && Inv(states[0]) && n <= |actions|
    ensures Inv(states[n])
  {
    if n > 0 {
      RunKeepsInv(states, actions, n - 1);
      StepKeepsInv(states[n - 1], actions[n - 1]);
    }
  }

  /** The content is one the file had at the start or one that was asked for. */
  ghost predicate Requested(content: Option<Bytes>, actions: seq<Action>, c: Option<Bytes>) {
    c == content || exists i :: 0 <= i < |actions| && actions[i].Open? && c == Some(actions[i].data)
  }

  ghost predicate AllRequested(s: Disk, content: Option<Bytes>, actions: seq<Action>) {
    && (forall v :: 0 <= v < |s.commits| ==> Requested(content, actions, s.commits[v]))
    && (s.phase.Writing? || s.phase.Synced? || s.phase.Closed? ==> Requested(content, actions, Some(s.phase.data)))
  }

  lemma {:induction false} CommitsRequested(states: seq<Disk>, actions: seq<Action>, content: Option<Bytes>, n: nat)
    requires Run(states, actions) && n <= |actions|
    requires states[0].commits == [content] && states[0].phase.Idle?
    ensures AllRequested(states[n], content, actions)
  {
    if n > 0 {
      CommitsRequested(states, actions, content, n - 1);
      var a := actions[n - 1];
      assert a.Open? ==> Requested(content, actions, Some(a.data));
    }
  }

  /** Whatever was written, however it failed, and wherever a crash strikes, the
      file afterwards is whole: one of the contents asked for, no older than the
      last one whose directory entry was forced out. */
  lemma CrashConsistency(states: seq<Disk>, actions: seq<Action>, content: Option<Bytes>, stale: Option<Bytes>,
                         count: nat, garbage: Ino -> Bytes)
    requires Run(states, actions) && states[0] == Start(content, stale)
    requires count <= |states[|actions|].pending|
    ensures var s := states[|actions|];
      var after := Read(Do(s, Crash(count, garbage)));
      && Requested(content, actions, after)
      && exists v :: s.durable <= v < |s.commits| && after == s.commits[v]
  {
    StartInv(content, stale);
    RunKeepsInv(states, actions, |actions|);
    CommitsRequested(states, actions, content, |actions|);
    var s := states[|actions|];
    CrashKeeps(s, count, garbage);
    assert SoundAt(s, count);
  }

  /** Without a crash, the file reads as the last content committed. */
  lemma ReadsLatest(s: Disk)
    requires Inv(s)
    ensures Read(s) == s.commits[|s.commits| - 1]
  {
    LiveIsLast(s);
    assert SoundAt(s, |s.pending|);
  }

  /** The inode being written is never the one the file names, now or after a crash. */
  lemma NeverWritesTarget(s: Disk, k: nat)
    requires Inv(s) && k <= |s.pending| && (s.phase.Writing? || s.phase.Synced? || s.phase.Closed?)
    ensures Candidate(s, k).target != Some(s.phase.ino)
  {
    assert SoundAt(s, k);
  }

  lemma RenamesPrefix(ops: seq<DirOp>, n: nat)
    requires n <= |ops|
    ensures Renames(ops[..n]) <= Renames(ops)
  {
    ApplyConcat(Dir(None, None), ops[..n], ops[n..]);
    assert ops == ops[..n] + ops[n..];
  }

  /** Later states extend the forced-out past of earlier ones. */
  ghost predicate Extends(s: Disk, t: Disk) {
    s.durable <= t.durable < |t.commits| && s.durable < |s.commits|
    && t.commits[..s.durable + 1] == s.commits[..s.durable + 1]
  }

  lemma StepExtends(s: Disk, a: Action)
    requires Inv(s) && Enabled(s, a)
    ensures Extends(s, Do(s, a))
  {
    StepKeepsInv(s, a);
    if a.Flush? || a.Crash? {
      RenamesPrefix(s.pending, a.count);
    }
  }

  lemma ExtendsTransitive(s: Disk, t: Disk, u: Disk)
    requires Extends(s, t) && Extends(t, u)
    ensures Extends(s, u)
  {
    var n := s.durable + 1;
    assert u.commits[..n] == u.commits[..t.durable + 1][..n] == t.commits[..t.durable + 1][..n] == t.commits[..n];
  }

  lemma {:induction false} ChainExtends(states: seq<Disk>, i: nat, n: nat)
    requires i <= n < |states|
    requires Extends(states[i], states[i])
    requires forall k :: i <= k < n ==> Extends(states[k], states[k + 1])
    ensures Extends(states[i], states[n])
  {
    if i < n {
      ChainExtends(states, i, n - 1);
      ExtendsTransitive(states[i], states[n - 1], states[n - 1 + 1]);
    }
  }

  /** What has been forced to the medium stays in the past of every later state. */
  lemma DurableGrows(states: seq<Disk>, actions: seq<Action>, i: nat, n: nat)
    requires Run(states, actions) && Inv(states[0]) && i <= n <= |actions|
    ensures Extends(states[i], states[n])
  {
    RunKeepsInv(states, actions, i);
    assert Extends(states[i], states[i]);
    forall k | i <= k < n ensures Extends(states[k], states[k + 1]) {
      RunKeepsInv(states, actions, k);
      StepExtends(states[k], actions[k]);
    }
    ChainExtends(states, i, n);
  }

  /** Once the directory has been fsynced after a rename, that content or a newer
      one is what every later crash leaves behind. */
  lemma SyncedVersionSurvives(states: seq<Disk>, actions: seq<Action>, i: nat, count: nat, garbage: Ino -> Bytes)
    requires Run(states, actions) && Inv(states[0]) && i < |actions| && actions[i].SyncDir?
    requires count <= |states[|actions|].pending|
    ensures var s, t := states[i], states[|actions|];
      && 0 < |s.commits| <= |t.commits| && t.commits[|s.commits| - 1] == s.commits[|s.commits| - 1]
      && exists v :: |s.commits| - 1 <= v < |t.commits| && Read(Do(t, Crash(count, garbage))) == t.commits[v]
  {
    var s, t := states[i], states[|actions|];
    RunKeepsInv(states, actions, i);
    RunKeepsInv(states, actions, |actions|);
    DurableGrows(states, actions, i + 1, |actions|);
    assert s.pending[..|s.pending|] == s.pending;
    CrashKeeps(t, count, garbage);
    assert SoundAt(t, count);
    assert t.commits[..|s.commits|][|s.commits| - 1] == s.commits[..|s.commits|][|s.commits| - 1];
  }

  // ---------- When a crash loses nothing ----------

  lemma {:induction false} RenamesReach(ops: seq<DirOp>, r: nat) returns (k: nat)
    requires r <= Renames(ops)
    ensures k <= |ops| && Renames(ops[..k]) == r
  {
    k := |ops|;
    assert ops[..k] == ops;
    if r < Renames(ops) {
      k := RenamesReach(ops[..|ops| - 1], r);
      assert ops[..|ops| - 1][..k] == ops[..k];
    }
  }

  /** Some crash falls back to each content since the last one forced out. */
  lemma EveryVersionReachable(s: Disk, v: nat, garbage: Ino -> Bytes) returns (count: nat)
    requires Inv(s) && s.durable <= v < |s.commits|
    ensures Enabled(s, Crash(count, garbage)) && Read(Do(s, Crash(count, garbage))) == s.commits[v]
  {
    count := RenamesReach(s.pending, v - s.durable);
    CrashKeeps(s, count, garbage);
  }

  /** Every crash leaves the file reading as it does now. */
  ghost predicate SafeFromCrashes(s: Disk) {
    forall count: nat, garbage: Ino -> Bytes ::
      Enabled(s, Crash(count, garbage)) ==> Read(Do(s, Crash(count, garbage))) == Read(s)
  }

  /** A crash loses nothing if and only if every content since the last one forced
      out equals the current one; in particular when the last one is forced out. */
  lemma SafeExactlyWhenForcedOut(s: Disk)
    requires Inv(s)
    ensures SafeFromCrashes(s) <==>
      forall v :: s.durable <= v < |s.commits| ==> s.commits[v] == s.commits[|s.commits| - 1]
  {
    ReadsLatest(s);
    if SafeFromCrashes(s) {
      forall v | s.durable <= v < |s.commits| ensures s.commits[v] == s.commits[|s.commits| - 1] {
        var garbage := (i: Ino) => [];
        var count := EveryVersionReachable(s, v, garbage);
      }
    }
    if forall v :: s.durable <= v < |s.commits| ==> s.commits[v] == s.commits[|s.commits| - 1] {
      forall count: nat, garbage: Ino -> Bytes | Enabled(s, Crash(count, garbage))
        ensures Read(Do(s, Crash(count, garbage))) == Read(s)
      {
        CrashKeeps(s, count, garbage);
        assert SoundAt(s, count);
      }
    }
  }

  lemma AllCurrent(commits: seq<Option<Bytes>>, c: Option<Bytes>, from: nat)
    ensures var all := commits + [c];
      (forall v :: from <= v < |all| ==> all[v] == all[|all| - 1]) <==>
      (forall v :: from <= v < |commits| ==> commits[v] == c)
  {
    var all := commits + [c];
    assert forall v :: 0 <= v < |commits| ==> all[v] == commits[v];
  }

  // ---------- The two writers ----------

  /** Which calls fail; `write` is the number of bytes that got out before an error. */
  datatype Faults = Faults(open: bool, write: Option<nat>, sync: bool, close: bool, rename: bool, remove: bool)

  class Writer {
    var disk: Disk

    constructor (disk: Disk)
      ensures this.disk == disk
    {
      this.disk := disk;
    }

    method Act(a: Action)
      requires Inv(disk) && Enabled(disk, a)
      modifies this
      ensures disk == Do(old(disk), a) && Inv(disk)
    {
      StepKeepsInv(disk, a);
      disk := Do(disk, a);
    }

    /** The error path: best-effort removal of the temporary. */
    method GiveUp(removeFails: bool)
      requires Inv(disk) && Enabled(disk, Fail)
      modifies this
      ensures Inv(disk) && disk.phase.Idle? && disk.commits == old(disk.commits) && disk.durable == old(disk.durable)
    {
      Act(Fail);
      if removeFails {
        Act(LeaveTmp);
      } else {
        Act(Remove);
      }
    }

    /** Opens the temporary and writes; `full` says that everything got out. */
    method Fill(data: Bytes, newIno: Ino, write: Option<nat>) returns (full: bool)
      requires Inv(disk) && disk.phase.Idle? && newIno !in disk.inodes
      modifies this
      ensures Inv(disk) && disk.durable == old(disk.durable) && disk.commits == old(disk.commits)
      ensures disk.phase.Writing? && disk.phase.data == data
      ensures full <==> write.None?
      ensures full ==> disk.phase.written == |data|
    {
      Act(Open(data, newIno));
      var upTo := if write.Some? && write.value < |data| then write.value else |data|;
      if upTo > 0 {
        Act(Write(upTo));
      }
      return write.None?;
    }

    /** Everything up to and including the rename, shared by both writers. */
    method Replace(data: Bytes, newIno: Ino, f: Faults) returns (ok: bool)
      requires Inv(disk) && disk.phase.Idle? && newIno !in disk.inodes
      modifies this
      ensures Inv(disk) && disk.durable == old(disk.durable)
      ensures ok ==> disk.phase.Renamed? && disk.commits == old(disk.commits) + [Some(data)]
      ensures !ok ==> disk.phase.Idle? && disk.commits == old(disk.commits)
    {
      if f.open {
        return false;
      }
      var full := Fill(data, newIno, f.write);
      if !full || f.sync {
        GiveUp(f.remove);
        return false;
      }
      Act(Sync);
      if f.close {
        GiveUp(f.remove);
        return false;
      }
      Act(Close);
      if f.rename {
        GiveUp(f.remove);
        return false;
      }
      Act(Rename);
      return true;
    }

    /** The store's writer: no directory fsync. */
    method WriteAtomic(data: Bytes, newIno: Ino, f: Faults) returns (ok: bool)
      requires Inv(disk) && disk.phase.Idle? && newIno !in disk.inodes
      modifies this
      ensures Inv(disk) && disk.phase.Idle?
      ensures Read(disk) == if ok then Some(data) else old(Read(disk))
      ensures disk.commits == if ok then old(disk.commits) + [Some(data)] else old(disk.commits)
      ensures ok ==> (SafeFromCrashes(disk) <==>
        forall v :: old(disk.durable) <= v < |old(disk.commits)| ==> old(disk.commits)[v] == Some(data))
    {
      ReadsLatest(disk);
      ok := Replace(data, newIno, f);
      if ok {
        Act(Finish);
        SafeExactlyWhenForcedOut(disk);
        AllCurrent(old(disk.commits), Some(data), old(disk.durable));
      }
      ReadsLatest(disk);
    }

    /** The configuration's writer: the directory fsync is best effort. */
    method AtomicWriteFile(data: Bytes, newIno: Ino, f: Faults, dirSynced: bool) returns (ok: bool)
      requires Inv(disk) && disk.phase.Idle? && newIno !in disk.inodes
      modifies this
      ensures Inv(disk) && disk.phase.Idle?
      ensures Read(disk) == if ok then Some(data) else old(Read(disk))
      ensures disk.commits == if ok then old(disk.commits) + [Some(data)] else old(disk.commits)
      ensures ok && dirSynced ==> disk.durable == |disk.commits| - 1
      ensures ok ==> (SafeFromCrashes(disk) <==>
        (dirSynced || forall v :: old(disk.durable) <= v < |old(disk.commits)| ==> old(disk.commits)[v] == Some(data)))
    {
      ReadsLatest(disk);
      ok := Replace(data, newIno, f);
      if ok {
        if dirSynced {
          ghost var before := disk;
          Act(SyncDir);
          assert before.pending[..|before.pending|] == before.pending;
        }
        Act(Finish);
        SafeExactlyWhenForcedOut(disk);
        AllCurrent(old(disk.commits), Some(data), old(disk.durable));
      }
      ReadsLatest(disk);
    }
  }

  /** Success of the store's writer does not mean the content survives a crash:
      while the rename is only in the journal, the previous file can come back. */
  lemma WithoutDirSyncAWriteCanBeLost(s: Disk, garbage: Ino -> Bytes)
    requires Inv(s) && s.phase.Closed?
    ensures var done := Do(Do(s, Rename), Finish);
      && Read(done) == Some(s.phase.data)
      && Enabled(done, Crash(|s.pending|, garbage))
      && Read(Do(done, Crash(|s.pending|, garbage))) == Read(s)
  {
    var renamed := Do(s, Rename);
    var done := Do(renamed, Finish);
    StepKeepsInv(s, Rename);
    StepKeepsInv(renamed, Finish);
    ReadsLatest(s);
    ReadsLatest(done);
    CrashKeeps(done, |s.pending|, garbage);
    assert done.pending[..|s.pending|] == s.pending;
  }
}
