/** The store and its file writer together: opening again after a crash. */
module Recovery {
  import opened Sequences
  import AtomicFile
  import Store

  /** What opening finds where the name has this content. */
  function Found(content: Option<seq<byte>>): Store.FileRead {
    if content.None? then Store.Missing else Store.Contents(content.value)
  }

  /** After how many of the first n events each version of the file was written, the
      first being the one the run started from. */
  ghost function Writes(states: seq<Store.State>, events: seq<Store.Event>, n: nat): (w: seq<nat>)
    requires |states| == |events| + 1 && n <= |events|
    ensures |w| > 0 && w[0] == 0
    ensures forall v :: 0 < v < |w| ==> 0 < w[v] <= n && Store.Wrote(states[w[v] - 1], events[w[v] - 1])
  {
    if n == 0 then [0]
    else Writes(states, events, n - 1) + if Store.Wrote(states[n - 1], events[n - 1]) then [n] else []
  }

  /** In order, and none left out. */
  lemma {:induction false} WritesInOrder(states: seq<Store.State>, events: seq<Store.Event>, n: nat)
    requires |states| == |events| + 1 && n <= |events|
    ensures var w := Writes(states, events, n);
      && (forall u, v :: 0 <= u < v < |w| ==> w[u] < w[v])
      && forall i :: w[|w| - 1] <= i < n ==> !Store.Wrote(states[i], events[i])
  {
    if n > 0 {
      WritesInOrder(states, events, n - 1);
    }
  }

  lemma LastIsLastWritten(states: seq<Store.State>, events: seq<Store.Event>)
    requires |states| == |events| + 1
    ensures var w := Writes(states, events, |events|); w[|w| - 1] == Store.LastWritten(states, events)
  {
    WritesInOrder(states, events, |events|);
  }

  /** The writer renamed into place exactly what the store says it wrote. */
  ghost predicate Served(c: Store.Codec, content: Option<seq<byte>>, states: seq<Store.State>,
                         events: seq<Store.Event>, commits: seq<Option<seq<byte>>>)
    requires |states| == |events| + 1
  {
    var w := Writes(states, events, |events|);
    |commits| == |w| && commits[0] == content && forall v :: 0 < v < |w| ==> commits[v] == c.encode(states[w[v]])
  }

  lemma VersionReads(c: Store.Codec, content: Option<seq<byte>>, states: seq<Store.State>,
                     events: seq<Store.Event>, commits: seq<Option<seq<byte>>>, v: nat)
    requires Store.Lawful(c) && Store.Run(c, states, events) && Store.Hydrate(c, Found(content)) == Some(states[0])
    requires Served(c, content, states, events, commits) && v < |commits|
    ensures Store.Hydrate(c, Found(commits[v])) == Some(states[Writes(states, events, |events|)[v]])
  {
    if v > 0 {
      var k := Writes(states, events, |events|)[v];
      assert Store.Step(c, states[k - 1], events[k - 1].op, states[k], events[k - 1].status);
      Store.ReopenSeesState(c, Store.Edit(states[k - 1], events[k - 1].op), states[k]);
    }
  }

  /** Opening gives the state of one of the writes from version `durable` on; of the
      last one, if that is the version. */
  ghost predicate Recovers(c: Store.Codec, states: seq<Store.State>, events: seq<Store.Event>,
                           durable: nat, after: Option<seq<byte>>)
    requires |states| == |events| + 1
  {
    var w, found := Writes(states, events, |events|), Store.Hydrate(c, Found(after));
    && (exists v :: durable <= v < |w| && found == Some(states[w[v]]))
    && (durable == |w| - 1 ==> found == Some(states[Store.LastWritten(states, events)]))
  }

  lemma VersionRecovers(c: Store.Codec, states: seq<Store.State>, events: seq<Store.Event>,
                        durable: nat, after: Option<seq<byte>>, v: nat)
    requires |states| == |events| + 1 && durable <= v < |Writes(states, events, |events|)|
    requires Store.Hydrate(c, Found(after)) == Some(states[Writes(states, events, |events|)[v]])
    ensures Recovers(c, states, events, durable, after)
  {
    LastIsLastWritten(states, events);
  }

  /** Wherever a crash strikes, opening the file again succeeds, with the state of one
      of the writes from the last one forced out on; of the last write, if that was
      forced out. */
  lemma ReopenAfterCrash(c: Store.Codec, states: seq<Store.State>, events: seq<Store.Event>,
                         content: Option<seq<byte>>, stale: Option<seq<byte>>,
                         disks: seq<AtomicFile.Disk>, actions: seq<AtomicFile.Action>,
                         count: nat, garbage: AtomicFile.Ino -> seq<byte>)
    requires Store.Lawful(c) && Store.Run(c, states, events) && Store.Hydrate(c, Found(content)) == Some(states[0])
    requires AtomicFile.Run(disks, actions) && disks[0] == AtomicFile.Start(content, stale)
    requires Served(c, content, states, events, disks[|actions|].commits) && count <= |disks[|actions|].pending|
    ensures var s := disks[|actions|];
      Recovers(c, states, events, s.durable, AtomicFile.Read(AtomicFile.Do(s, AtomicFile.Crash(count, garbage))))
  {
    AtomicFile.CrashConsistency(disks, actions, content, stale, count, garbage);
    var s := disks[|actions|];
    var after := AtomicFile.Read(AtomicFile.Do(s, AtomicFile.Crash(count, garbage)));
    var v :| s.durable <= v < |s.commits| && after == s.commits[v];
    VersionReads(c, content, states, events, s.commits, v);
    VersionRecovers(c, states, events, s.durable, after, v);
  }
}
