/** Restarting a remembered listener from what the store kept. */
module Restart {
  import opened Sequences
  import opened Retention
  import Store
  import KillProtocol

  datatype Outcome =
    | Spawned(command: seq<string>, cwd: string, env: seq<string>)
    | StoreRequired
    | NotFound
    | EmptyCommand
    | StartFailed

  /** Starting a process: an empty environment means the dashboard's own. */
  function Spawn(command: seq<string>, cwd: string, env: seq<string>, ownEnv: seq<string>, startOk: bool): Outcome {
    if command == [] then EmptyCommand
    else if !startOk then StartFailed
    else Spawned(command, cwd, if env == [] then ownEnv else env)
  }

  class Manager {
    const store: Store.Store?
    const ownEnv: seq<string>

    constructor (store: Store.Store?, ownEnv: seq<string>)
      ensures this.store == store && this.ownEnv == ownEnv
    {
      this.store, this.ownEnv := store, ownEnv;
    }

    method Restart(id: string, startOk: bool) returns (r: Outcome)
      ensures r == StoreRequired <==> store == null
      ensures store != null ==> r == match Store.Find(store.remembered, id)
        case None => NotFound
        case Some(e) => Spawn(e.command, e.cwd, e.env, ownEnv, startOk)
    {
      if store == null {
        return StoreRequired;
      }
      var found := store.FindRemembered(id);
      if found.None? {
        return NotFound;
      }
      var e := found.value;
      return Spawn(e.command, e.cwd, e.env, ownEnv, startOk);
    }
  }

  /** The snapshot the kill handler hands to the store. */
  function Pending(port: int, info: KillProtocol.Info): Remembered {
    Remembered("", port, info.command, info.cwd, info.env, Store.ZERO_TIME, "")
  }

  /** Event `j` of a run appended the snapshot of a kill, under an id that nothing else
      carries. */
  ghost predicate KillRemembered(c: Store.Codec, hash: string -> string, states: seq<Store.State>, events: seq<Store.Event>,
                                 j: nat, port: int, info: KillProtocol.Info, stored: Remembered) {
    && Store.Run(c, states, events) && WithinCaps(states[0].remembered)
    && j < |events| && events[j].op == Store.Remember(stored)
    && (exists now, entropy :: Store.Filled(hash, now, entropy, Pending(port, info), stored))
    && (forall r :: r in states[0].remembered ==> r.id != stored.id)
    && (forall i :: 0 <= i < |events| && i != j && events[i].op.Remember? ==> events[i].op.r.id != stored.id)
  }

  /** From kill to restart: at any later time, looking the id up gives the entry
      itself, or nothing once it is gone; and restarting it runs what was inspected
      before the kill, if that had a command. The environment is the inspected one
      exactly when that was not empty or the dashboard's is. */
  lemma KillThenRestart(c: Store.Codec, hash: string -> string, states: seq<Store.State>, events: seq<Store.Event>,
                        j: nat, port: int, info: KillProtocol.Info, stored: Remembered, ownEnv: seq<string>)
    requires KillRemembered(c, hash, states, events, j, port, info, stored)
    ensures var list := states[|events|].remembered;
      Store.Find(list, stored.id) == if stored in list then Some(stored) else None
    ensures stored.port == port
    ensures var r := Spawn(stored.command, stored.cwd, stored.env, ownEnv, true);
      && (r.Spawned? <==> info.command != [])
      && (r.Spawned? ==> r.command == info.command && r.cwd == info.cwd
                         && (r.env == info.env <==> info.env != [] || ownEnv == []))
  {
    var list := states[|events|].remembered;
    var found := Store.Find(list, stored.id);
    Store.FindMember(list, stored.id);
    if found.Some? {
      Store.StoredAsAppended(c, states, events, found.value);
    }
  }

  /** A kill of a process with an empty environment, remembered by an empty store:
      restarting it gives the new process the dashboard's environment instead. */
  lemma EmptyEnvironmentNotReplayed(c: Store.Codec, hash: string -> string, now: int, entropy: Option<seq<byte>>,
                                    port: int, info: KillProtocol.Info, stored: Remembered, ownEnv: seq<string>)
    requires Store.Filled(hash, now, entropy, Pending(port, info), stored)
    requires Store.Fits(c, Store.State(map[], [stored]))
    requires info.command != [] && info.env == [] && ownEnv != []
    ensures var states, events := [Store.EMPTY, Store.State(map[], [stored])],
        [Store.Event(Store.Remember(stored), Store.Ok)];
      && KillRemembered(c, hash, states, events, 0, port, info, stored)
      && Store.Find(states[1].remembered, stored.id) == Some(stored)
      && Spawn(stored.command, stored.cwd, stored.env, ownEnv, true) == Spawned(info.command, info.cwd, ownEnv)
      && ownEnv != info.env
  {
    var t := Store.State(map[], [stored]);
    assert Append([], stored) == [stored] by {
      AppendEnds([], stored);
      KeepNewestIsSubsequence([] + [stored], stored.labelKey);
      CountSubsequence(KeepNewest([] + [stored], stored.labelKey), [] + [stored], stored.labelKey);
    }
    Store.StepFits(c, Store.EMPTY, Store.Remember(stored), t);
    assert WithinCaps(Store.EMPTY.remembered);
  }
}
