/** The state file's owner. */
module Store {
  // Labels and remembered listeners are edited in memory, then shrunk until the
  // serialised form fits and written out. Serialisation is left open as a codec; the
  // clock, the random source and the outcome of each file write are parameters.

  import opened Sequences
  import opened Retention
  import opened LabelKeys
  import Ulid

  const MAX_LABEL_LEN := 64
  const MAX_STATE_BYTES := 256 * 1024
  const NS_PER_MS := 1_000_000
  /** The zero value of a time stamp, in nanoseconds from the Unix epoch. */
  const ZERO_TIME := -62135596800_000_000_000

  datatype LabelEntry = LabelEntry(cwd: string, command: seq<string>, text: string, updatedAt: int)

  datatype State = State(labels: map<string, LabelEntry>, remembered: seq<Remembered>)

  const EMPTY := State(map[], [])

  /** Serialisation: encoding may fail, and decoding undoes it. */
  datatype Codec = Codec(encode: State -> Option<seq<byte>>, decode: seq<byte> -> Option<State>)

  ghost predicate Lawful(c: Codec) {
    && (forall s :: c.encode(s).Some? ==> c.decode(c.encode(s).value) == Some(s))
    && Fits(c, EMPTY)
  }

  predicate Fits(c: Codec, s: State) {
    c.encode(s).Some? && |c.encode(s).value| <= MAX_STATE_BYTES
  }

  predicate TooBig(c: Codec, s: State) {
    c.encode(s).Some? && |c.encode(s).value| > MAX_STATE_BYTES
  }

  datatype Status = Ok | MarshalFailed | WriteFailed | SizeExceeded | LabelTooLong | UlidFailed

  // ---------- Shrinking until the state fits ----------

  ghost predicate Submap(a: map<string, LabelEntry>, b: map<string, LabelEntry>) {
    forall k :: k in a ==> k in b && a[k] == b[k]
  }

  /** Every label in `pre` but not in `post` is at most as new as every label kept. */
  ghost predicate OldestGone(pre: map<string, LabelEntry>, post: map<string, LabelEntry>) {
    forall gone, kept :: gone in pre && gone !in post && kept in pre && kept in post ==>
      pre[gone].updatedAt <= pre[kept].updatedAt
  }

  ghost predicate DistinctTimes(labels: map<string, LabelEntry>) {
    forall j, k :: j in labels && k in labels && j != k ==> labels[j].updatedAt != labels[k].updatedAt
  }

  /** What remains of `pre` after dropping labels oldest first. */
  ghost predicate NewestPart(part: map<string, LabelEntry>, pre: map<string, LabelEntry>) {
    Submap(part, pre) && OldestGone(pre, part)
  }

  ghost predicate IsOldest(labels: map<string, LabelEntry>, k: string) {
    k in labels && forall j :: j in labels ==> labels[k].updatedAt <= labels[j].updatedAt
  }

  /** How far `pre` was cut down to `post`: the remembered list loses its head as
      long as it is too big, then the oldest labels go while it still is. Without
      ties among the times, no larger set of newest labels would have done. */
  ghost predicate Shrunk(c: Codec, pre: State, post: State) {
    && IsSuffix(post.remembered, pre.remembered)
    && (forall n :: 0 <= n < |pre.remembered| - |post.remembered| ==> TooBig(c, State(pre.labels, pre.remembered[n..])))
    && Submap(post.labels, pre.labels)
    && OldestGone(pre.labels, post.labels)
    && (post.labels != pre.labels ==>
      && post.remembered == []
      && TooBig(c, State(pre.labels, []))
      && exists last :: last in pre.labels && last !in post.labels
           && TooBig(c, State(post.labels[last := pre.labels[last]], [])))
    && (DistinctTimes(pre.labels) ==> forall part ::
         NewestPart(part, pre.labels) && Submap(post.labels, part) && part != post.labels ==> TooBig(c, State(part, [])))
  }

  /** What one persist does to memory, by outcome. */
  ghost predicate Persisted(c: Codec, pre: State, post: State, status: Status) {
    && Shrunk(c, pre, post)
    && match status
       case Ok => Fits(c, post)
       case WriteFailed => Fits(c, post)
       case MarshalFailed => c.encode(post).None?
       case SizeExceeded => post == EMPTY && TooBig(c, post)
       case _ => false
  }

  // ---------- Operations as edits ----------

  /** A mutation that reaches the persist step. */
  datatype Op =
    | SetLabel(key: string, entry: LabelEntry)
    | ClearLabel(key: string)
    | Remember(r: Remembered)
    | Delete(id: string)

  function Edit(s: State, op: Op): State {
    match op
    case SetLabel(key, entry) => s.(labels := s.labels[key := entry])
    case ClearLabel(key) => s.(labels := s.labels - {key})
    case Remember(r) => s.(remembered := Append(s.remembered, r))
    case Delete(id) => s.(remembered := Without(s.remembered, id))
  }

  /** One mutation: edit, then persist. Deleting an unknown id does neither. */
  ghost predicate Step(c: Codec, pre: State, op: Op, post: State, status: Status) {
    if op.Delete? && Without(pre.remembered, op.id) == pre.remembered then post == pre && status == Ok
    else Persisted(c, Edit(pre, op), post, status)
  }

  /** The caller's snapshot with id, stamp and key filled in. */
  ghost predicate Filled(hash: string -> string, now: int, entropy: Option<seq<byte>>, r: Remembered, stored: Remembered) {
    && stored.port == r.port && stored.command == r.command && stored.cwd == r.cwd && stored.env == r.env
    && stored.labelKey == (if r.labelKey == "" then LabelKey(hash, r.cwd, r.command) else r.labelKey)
    && stored.killedAt == (if r.killedAt == ZERO_TIME then now else r.killedAt)
    && (if r.id == "" then entropy.Some? && Ulid.IdFor(stored.killedAt / NS_PER_MS, entropy.value, stored.id)
        else stored.id == r.id)
  }

  // ---------- The store ----------

  /** What opening the file finds. */
  datatype FileRead = Missing | Unreadable | Contents(bytes: seq<byte>)

  /** The state after opening; None when the file cannot be read or parsed. */
  function Hydrate(codec: Codec, file: FileRead): Option<State> {
    match file
    case Missing => Some(EMPTY)
    case Unreadable => None
    case Contents(bytes) => codec.decode(bytes)
  }

  class Store {
    const codec: Codec
    const hash: string -> string
    var labels: map<string, LabelEntry>
    var remembered: seq<Remembered>
    var disk: Option<seq<byte>>

    function Snapshot(): State
      reads this
    {
      State(labels, remembered)
    }

    constructor (codec: Codec, hash: string -> string, s: State, disk: Option<seq<byte>>)
      ensures this.codec == codec && this.hash == hash && this.disk == disk && Snapshot() == s
    {
      this.codec, this.hash, this.disk := codec, hash, disk;
      labels, remembered := s.labels, s.remembered;
    }

    /** Opening fails without a home directory, when the state directory cannot be
        made, and when the file is there but cannot be read or parsed. */
    static method Open(homeDir: string, madeDir: bool, codec: Codec, hash: string -> string, file: FileRead)
      returns (store: Store?)
      ensures store == null <==> homeDir == "" || !madeDir || Hydrate(codec, file).None?
      ensures store != null ==> fresh(store) && store.codec == codec && store.hash == hash
      ensures store != null ==> Some(store.Snapshot()) == Hydrate(codec, file)
      ensures store != null ==> store.disk == if file.Contents? then Some(file.bytes) else None
    {
      if homeDir == "" || !madeDir {
        return null;
      }
      match file {
        case Missing => store := new Store(codec, hash, EMPTY, None);
        case Unreadable => return null;
        case Contents(bytes) =>
          var s := codec.decode(bytes);
          if s.None? {
            return null;
          }
          store := new Store(codec, hash, s.value, Some(bytes));
      }
    }

    // ----- Eviction -----

    static method CountKey(list: seq<Remembered>, key: string) returns (matches: nat)
      ensures matches == CountFor(list, key)
    {
      matches := 0;
      for i := 0 to |list|
        invariant matches == CountFor(list[..i], key)
      {
        CountAt(list, i, key);
        if list[i].labelKey == key {
          matches := matches + 1;
        }
      }
      assert list[..|list|] == list;
    }

    static method DropOldest(list: seq<Remembered>, key: string, excess: nat) returns (kept: seq<Remembered>)
      requires excess == Excess(list, key)
      ensures kept == KeepNewest(list, key)
    {
      var toDrop := excess;
      kept := [];
      assert list[0..] == list;
      for i := 0 to |list|
        invariant toDrop == Excess(list[i..], key)
        invariant kept + KeepNewest(list[i..], key) == KeepNewest(list, key)
      {
        KeepNewestAt(list, i, key);
        if list[i].labelKey == key && toDrop > 0 {
          toDrop := toDrop - 1;
        } else {
          kept := kept + [list[i]];
        }
      }
    }

    method EvictPerKey(key: string)
      modifies this`remembered
      ensures remembered == KeepNewest(old(remembered), key)
    {
      var matches := CountKey(remembered, key);
      if matches <= PER_KEY_CAP {
        KeepNewestKeepsAll(remembered, key);
        return;
      }
      remembered := DropOldest(remembered, key, matches - PER_KEY_CAP);
    }

    method EvictGlobal()
      modifies this`remembered
      ensures remembered == LastN(old(remembered), GLOBAL_CAP)
    {
      if |remembered| <= GLOBAL_CAP {
        return;
      }
      var excess := |remembered| - GLOBAL_CAP;
      remembered := remembered[excess..];
    }

    /** Removes one label that no other predates; the map is walked in any order. */
    method EvictOldestLabel() returns (removed: bool)
      modifies this`labels
      ensures removed <==> old(labels) != map[]
      ensures !removed ==> labels == old(labels)
      ensures removed ==> exists k :: IsOldest(old(labels), k) && labels == old(labels) - {k}
    {
      if labels == map[] {
        return false;
      }
      var oldestKey, oldestAt, first := "", 0, true;
      var rest := labels.Keys;
      while rest != {}
        invariant rest <= labels.Keys
        invariant first ==> rest == labels.Keys
        invariant !first ==> oldestKey in labels && oldestAt == labels[oldestKey].updatedAt
        invariant !first ==> forall j :: j in labels && j !in rest ==> oldestAt <= labels[j].updatedAt
        decreases |rest|
      {
        var k :| k in rest;
        rest := rest - {k};
        if first || labels[k].updatedAt < oldestAt {
          oldestKey, oldestAt, first := k, labels[k].updatedAt, false;
        }
      }
      labels := labels - {oldestKey};
      return true;
    }

    // ----- Persist -----

    /** One eviction: the oldest remembered entry, or else the oldest label. */
    method EvictOne(ghost pre: State) returns (evicted: bool)
      requires Shrunk(codec, pre, Snapshot()) && TooBig(codec, Snapshot())
      modifies this`labels, this`remembered
      ensures Shrunk(codec, pre, Snapshot())
      ensures evicted ==> |remembered| + |labels| < old(|remembered| + |labels|)
      ensures !evicted ==> Snapshot() == old(Snapshot()) == EMPTY
    {
      if |remembered| > 0 {
        ShrunkPop(codec, pre, Snapshot());
        remembered := remembered[1..];
        return true;
      }
      ghost var before := Snapshot();
      evicted := EvictOldestLabel();
      if evicted {
        ghost var k :| IsOldest(before.labels, k) && labels == before.labels - {k};
        ShrunkEvict(codec, pre, before, k);
        assert (before.labels - {k}).Keys == before.labels.Keys - {k};
      }
    }

    method Persist(writeOk: bool) returns (status: Status)
      requires Lawful(codec)
      modifies this`labels, this`remembered, this`disk
      ensures Persisted(codec, old(Snapshot()), Snapshot(), status)
      ensures disk == if status == Ok then codec.encode(Snapshot()) else old(disk)
      ensures status == WriteFailed ==> !writeOk
    {
      ghost var pre := Snapshot();
      ShrunkNothing(codec, pre);
      while true
        invariant Shrunk(codec, pre, Snapshot()) && disk == old(disk)
        decreases |remembered| + |labels|
      {
        var buf := codec.encode(Snapshot());
        if buf.None? {
          return MarshalFailed;
        }
        if |buf.value| <= MAX_STATE_BYTES {
          if !writeOk {
            return WriteFailed;
          }
          disk := buf;
          return Ok;
        }
        var evicted := EvictOne(pre);
        if !evicted {
          return SizeExceeded;
        }
      }
    }

    // ----- Mutations -----

    /** An empty text clears the label. */
    method SetLabel(cwd: string, command: seq<string>, text: string, now: int, writeOk: bool) returns (status: Status)
      requires Lawful(codec)
      modifies this`labels, this`remembered, this`disk
      ensures status == LabelTooLong <==> |text| > MAX_LABEL_LEN
      ensures |text| > MAX_LABEL_LEN ==> unchanged(this)
      ensures |text| <= MAX_LABEL_LEN ==>
        Step(codec, old(Snapshot()), LabelOp(LabelKey(hash, cwd, command), cwd, command, text, now), Snapshot(), status)
      ensures disk == if status == Ok then codec.encode(Snapshot()) else old(disk)
      ensures writeOk ==> status != WriteFailed
    {
      if |text| > MAX_LABEL_LEN {
        return LabelTooLong;
      }
      var key := LabelKey(hash, cwd, command);
      if text == "" {
        labels := labels - {key};
      } else {
        labels := labels[key := LabelEntry(cwd, command, text, now)];
      }
      status := Persist(writeOk);
    }

    /** Appends a snapshot. `stored` is the entry as kept; it is meaningful unless
        the random source failed. */
    method Remember(r: Remembered, now: int, entropy: Option<seq<byte>>, writeOk: bool)
      returns (status: Status, ghost stored: Remembered)
      requires Lawful(codec)
      requires entropy.Some? ==> |entropy.value| == 10
      modifies this`labels, this`remembered, this`disk
      ensures status == UlidFailed <==> r.id == "" && entropy.None?
      ensures status == UlidFailed ==> unchanged(this)
      ensures status != UlidFailed ==> Filled(hash, now, entropy, r, stored)
      ensures status != UlidFailed ==> Step(codec, old(Snapshot()), Op.Remember(stored), Snapshot(), status)
      ensures disk == if status == Ok then codec.encode(Snapshot()) else old(disk)
      ensures writeOk ==> status != WriteFailed
    {
      var filled := Fill(hash, r, now, entropy);
      if filled.None? {
        return UlidFailed, r;
      }
      stored := filled.value;
      remembered := remembered + [filled.value];
      EvictPerKey(filled.value.labelKey);
      EvictGlobal();
      status := Persist(writeOk);
    }

    static method DropId(list: seq<Remembered>, id: string) returns (kept: seq<Remembered>, changed: bool)
      ensures kept == Without(list, id) && (changed <==> kept != list)
    {
      kept, changed := [], false;
      assert list[0..] == list;
      for i := 0 to |list|
        invariant kept + Without(list[i..], id) == Without(list, id)
        invariant |kept| <= i && (changed <==> |kept| < i)
      {
        WithoutAt(list, i, id);
        Regroup(kept, [list[i]], Without(list[i + 1..], id));
        if list[i].id == id {
          changed := true;
        } else {
          kept := kept + [list[i]];
        }
      }
      WithoutLength(list, id);
    }

    /** An unknown id changes nothing and writes nothing. */
    method DeleteRemembered(id: string, writeOk: bool) returns (status: Status)
      requires Lawful(codec)
      modifies this`labels, this`remembered, this`disk
      ensures Step(codec, old(Snapshot()), Delete(id), Snapshot(), status)
      ensures Without(old(remembered), id) == old(remembered) ==> unchanged(this)
      ensures Without(old(remembered), id) != old(remembered) ==>
        disk == if status == Ok then codec.encode(Snapshot()) else old(disk)
      ensures writeOk ==> status != WriteFailed
    {
      var kept, changed := DropId(remembered, id);
      if !changed {
        return Ok;
      }
      remembered := kept;
      status := Persist(writeOk);
    }

    // ----- Readers -----

    method Label(cwd: string, command: seq<string>) returns (text: string)
      ensures text == LabelOf(Snapshot(), LabelKey(hash, cwd, command))
    {
      var key := LabelKey(hash, cwd, command);
      if key !in labels {
        return "";
      }
      return labels[key].text;
    }

    method FindRemembered(id: string) returns (r: Option<Remembered>)
      ensures r == Find(remembered, id)
    {
      for i := 0 to |remembered|
        invariant Find(remembered[i..], id) == Find(remembered, id)
      {
        assert remembered[i..][1..] == remembered[i + 1..];
        if remembered[i].id == id {
          return Some(remembered[i]);
        }
      }
      return None;
    }
  }

  function LabelOp(key: string, cwd: string, command: seq<string>, text: string, now: int): Op {
    if text == "" then ClearLabel(key) else SetLabel(key, LabelEntry(cwd, command, text, now))
  }

  /** The text of a key's label, empty without one. */
  function LabelOf(s: State, key: string): string {
    if key in s.labels then s.labels[key].text else ""
  }

  /** The first entry with the given id. */
  function Find(s: seq<Remembered>, id: string): Option<Remembered> {
    if s == [] then None else if s[0].id == id then Some(s[0]) else Find(s[1..], id)
  }

  ghost function Excess(s: seq<Remembered>, key: string): nat {
    if CountFor(s, key) > PER_KEY_CAP then CountFor(s, key) - PER_KEY_CAP else 0
  }

  lemma CountAt(s: seq<Remembered>, i: nat, key: string)
    requires i < |s|
    ensures CountFor(s[..i + 1], key) == CountFor(s[..i], key) + if s[i].labelKey == key then 1 else 0
  {
    CountConcat(Carries(key), s[..i], [s[i]]);
    assert s[..i + 1] == s[..i] + [s[i]];
  }

  lemma KeepNewestAt(s: seq<Remembered>, i: nat, key: string)
    requires i < |s|
    ensures Excess(s[i..], key) == Excess(s[i + 1..], key) + if s[i].labelKey == key && Excess(s[i..], key) > 0 then 1 else 0
    ensures KeepNewest(s[i..], key) ==
      (if s[i].labelKey == key && Excess(s[i..], key) > 0 then [] else [s[i]]) + KeepNewest(s[i + 1..], key)
  {
    assert s[i..][0] == s[i] && s[i..][1..] == s[i + 1..];
  }

  lemma Regroup<T>(a: seq<T>, b: seq<T>, c: seq<T>)
    ensures a + (b + c) == (a + b) + c && a + ([] + c) == a + c
  {
  }

  lemma WithoutAt(s: seq<Remembered>, i: nat, id: string)
    requires i < |s|
    ensures Without(s[i..], id) == (if s[i].id == id then [] else [s[i]]) + Without(s[i + 1..], id)
  {
    assert s[i..][0] == s[i] && s[i..][1..] == s[i + 1..];
  }

  lemma {:induction false} WithoutLength(s: seq<Remembered>, id: string)
    ensures |Without(s, id)| <= |s| && (|Without(s, id)| == |s| ==> Without(s, id) == s)
  {
    if s != [] {
      WithoutLength(s[1..], id);
    }
  }

  lemma {:induction false} KeepNewestKeepsAll(s: seq<Remembered>, key: string)
    requires CountFor(s, key) <= PER_KEY_CAP
    ensures KeepNewest(s, key) == s
  {
    if s != [] {
      KeepNewestKeepsAll(s[1..], key);
    }
  }

  lemma ShrunkNothing(c: Codec, s: State)
    ensures Shrunk(c, s, s)
  {
    forall part | Submap(s.labels, part) && Submap(part, s.labels) ensures part == s.labels {
    }
  }

  lemma ShrunkPop(c: Codec, pre: State, mid: State)
    requires Shrunk(c, pre, mid) && TooBig(c, mid) && mid.remembered != []
    ensures Shrunk(c, pre, mid.(remembered := mid.remembered[1..]))
  {
    var n := |pre.remembered| - |mid.remembered|;
    assert pre.remembered[n..] == mid.remembered;
    assert pre.remembered[n + 1..] == mid.remembered[1..];
  }

  lemma ShrunkEvict(c: Codec, pre: State, mid: State, k: string)
    requires Shrunk(c, pre, mid) && TooBig(c, mid) && mid.remembered == [] && IsOldest(mid.labels, k)
    ensures Shrunk(c, pre, mid.(labels := mid.labels - {k}))
  {
    var post := mid.labels - {k};
    assert post[k := pre.labels[k]] == mid.labels;
    assert mid == State(mid.labels, []);
    if DistinctTimes(pre.labels) {
      forall part | NewestPart(part, pre.labels) && Submap(post, part) && part != post
        ensures TooBig(c, State(part, []))
      {
        NothingBetween(pre.labels, mid.labels, k, part);
      }
    }
  }

  /** Between a newest part and the same without its oldest label lies no other. */
  lemma NothingBetween(pre: map<string, LabelEntry>, mid: map<string, LabelEntry>, k: string, part: map<string, LabelEntry>)
    requires DistinctTimes(pre) && NewestPart(mid, pre) && IsOldest(mid, k)
    requires NewestPart(part, pre) && Submap(mid - {k}, part) && part != mid - {k}
    ensures Submap(mid, part)
  {
  }

  // ---------- Properties of one mutation ----------

  lemma ShrunkIdentity(c: Codec, pre: State, post: State)
    requires Shrunk(c, pre, post) && !TooBig(c, pre)
    ensures post == pre
  {
    assert pre.remembered[0..] == pre.remembered;
    assert State(pre.labels, pre.remembered) == pre;
  }

  /** The defensive error never surfaces: the empty document fits. */
  lemma NeverSizeExceeded(c: Codec, pre: State, op: Op, post: State, status: Status)
    requires Lawful(c) && Step(c, pre, op, post, status)
    ensures status != SizeExceeded
  {
  }

  /** A successful write is within the limit and reads back as the state in memory. */
  lemma ReopenSeesState(c: Codec, pre: State, post: State)
    requires Lawful(c) && Persisted(c, pre, post, Ok)
    ensures |c.encode(post).value| <= 262144
    ensures Hydrate(c, Contents(c.encode(post).value)) == Some(post)
  {
  }

  /** The longest suffix of `list` that is not too big beside `labels`, or none. */
  ghost function LongestFitting(c: Codec, labels: map<string, LabelEntry>, list: seq<Remembered>): seq<Remembered> {
    if list == [] || !TooBig(c, State(labels, list)) then list else LongestFitting(c, labels, list[1..])
  }

  /** The list that is kept is that suffix, whatever becomes of the labels. */
  lemma LongestListKept(c: Codec, pre: State, post: State, status: Status)
    requires Persisted(c, pre, post, status)
    ensures post.remembered == LongestFitting(c, pre.labels, pre.remembered)
  {
    KeptFrom(c, pre, post, status, 0);
    assert pre.remembered[0..] == pre.remembered;
  }

  lemma {:induction false} KeptFrom(c: Codec, pre: State, post: State, status: Status, n: nat)
    requires Persisted(c, pre, post, status) && n <= |pre.remembered| - |post.remembered|
    ensures post.remembered == LongestFitting(c, pre.labels, pre.remembered[n..])
    decreases |pre.remembered| - n
  {
    var list := pre.remembered[n..];
    if n < |pre.remembered| - |post.remembered| {
      assert list[1..] == pre.remembered[n + 1..];
      KeptFrom(c, pre, post, status, n + 1);
    } else {
      assert list == post.remembered;
    }
  }

  /** Two newest parts are nested when no two labels are equally old. */
  lemma NewestPartsNested(pre: map<string, LabelEntry>, a: map<string, LabelEntry>, b: map<string, LabelEntry>)
    requires DistinctTimes(pre) && NewestPart(a, pre) && NewestPart(b, pre)
    ensures Submap(a, b) || Submap(b, a)
  {
  }

  /** Labels are dropped no further than needed: without ties among their times, any
      newest part that would do beside the kept list is among the labels kept. */
  lemma LargestPartKept(c: Codec, pre: State, post: State, part: map<string, LabelEntry>)
    requires Persisted(c, pre, post, Ok) && DistinctTimes(pre.labels)
    requires NewestPart(part, pre.labels) && !TooBig(c, State(part, post.remembered))
    ensures Submap(part, post.labels)
  {
    NewestPartsNested(pre.labels, part, post.labels);
  }

  /** So a successful persist leaves exactly one possible state, although the labels
      are walked in any order: the longest list, then the largest newest part. */
  lemma PersistDetermined(c: Codec, pre: State, post: State, post': State)
    requires Persisted(c, pre, post, Ok) && Persisted(c, pre, post', Ok) && DistinctTimes(pre.labels)
    ensures post == post'
    ensures post.remembered == LongestFitting(c, pre.labels, pre.remembered)
    ensures forall part :: NewestPart(part, pre.labels) && Fits(c, State(part, post.remembered)) ==>
      Submap(part, post.labels)
  {
    LongestListKept(c, pre, post, Ok);
    LongestListKept(c, pre, post', Ok);
    LargestPartKept(c, pre, post, post'.labels);
    LargestPartKept(c, pre, post', post.labels);
    forall part | NewestPart(part, pre.labels) && Fits(c, State(part, post.remembered))
      ensures Submap(part, post.labels)
    {
      LargestPartKept(c, pre, post, part);
    }
  }

  /** A new entry survives all three evictions, or nothing does; and nothing does
      only if not even the entry on its own fits beside the labels. */
  lemma RememberFresh(c: Codec, pre: State, r: Remembered, post: State)
    requires Step(c, pre, Op.Remember(r), post, Ok)
    ensures post.remembered == [] || post.remembered[|post.remembered| - 1] == r
    ensures post.remembered == [] ==> TooBig(c, State(pre.labels, [r]))
  {
    var mid := Edit(pre, Op.Remember(r)).remembered;
    AppendEnds(pre.remembered, r);
    assert IsSuffix(post.remembered, mid) && mid[|mid| - 1] == r;
    if post.remembered == [] {
      assert mid[|mid| - 1..] == [r];
    } else {
      assert mid[|mid| - |post.remembered|..][|post.remembered| - 1] == mid[|mid| - 1];
    }
  }

  /** A label newer than every other survives and is what readers get, or the whole
      store is empty. */
  lemma LabelFresh(c: Codec, pre: State, key: string, entry: LabelEntry, post: State)
    requires Step(c, pre, SetLabel(key, entry), post, Ok)
    requires forall k :: k in pre.labels && k != key ==> pre.labels[k].updatedAt < entry.updatedAt
    ensures (key in post.labels && post.labels[key] == entry && LabelOf(post, key) == entry.text) || post == EMPTY
  {
    var mid := Edit(pre, SetLabel(key, entry)).labels;
    assert mid[key] == entry;
    if k :| k in post.labels {
      assert k in mid;
      assert mid[key].updatedAt <= mid[k].updatedAt ==> k == key;
      assert key in post.labels;
    } else {
      assert post.labels == map[];
    }
  }

  // ---------- Runs ----------

  datatype Event = Event(op: Op, status: Status)

  ghost predicate Run(c: Codec, states: seq<State>, events: seq<Event>) {
    && |states| == |events| + 1
    && forall i :: 0 <= i < |events| ==> Step(c, states[i], events[i].op, states[i + 1], events[i].status)
  }

  /** The file was replaced: a success, other than deleting what is not there. */
  ghost predicate Wrote(pre: State, e: Event) {
    e.status == Ok && !(e.op.Delete? && Without(pre.remembered, e.op.id) == pre.remembered)
  }

  /** The file after a run that found `file`. */
  ghost function FileAfter(c: Codec, file: FileRead, states: seq<State>, events: seq<Event>): FileRead
    requires |states| == |events| + 1
  {
    if events == [] then file
    else
      var n := |events| - 1;
      var bytes := c.encode(states[n + 1]);
      if Wrote(states[n], events[n]) && bytes.Some? then Contents(bytes.value)
      else FileAfter(c, file, states[..n + 1], events[..n])
  }

  /** How many events it took to the last one that wrote. */
  ghost function LastWritten(states: seq<State>, events: seq<Event>): (k: nat)
    requires |states| == |events| + 1
    ensures k <= |events| && (k > 0 ==> Wrote(states[k - 1], events[k - 1]))
    ensures forall i :: k <= i < |events| ==> !Wrote(states[i], events[i])
  {
    if events == [] then 0
    else
      var n := |events| - 1;
      if Wrote(states[n], events[n]) then n + 1 else LastWritten(states[..n + 1], events[..n])
  }

  /** After any run, failed writes included, reopening gives the state after the last
      event that wrote, or the one the run started from; what was written fits. */
  lemma {:induction false} ReopenSeesLastWritten(c: Codec, file: FileRead, states: seq<State>, events: seq<Event>)
    requires Lawful(c) && Run(c, states, events) && Hydrate(c, file) == Some(states[0])
    ensures Hydrate(c, FileAfter(c, file, states, events)) == Some(states[LastWritten(states, events)])
    ensures LastWritten(states, events) > 0 ==>
      FileAfter(c, file, states, events).Contents? && |FileAfter(c, file, states, events).bytes| <= 262144
  {
    if events != [] {
      var n := |events| - 1;
      if Wrote(states[n], events[n]) {
        ReopenSeesState(c, Edit(states[n], events[n].op), states[n + 1]);
      } else {
        RunPrefix(c, states, events);
        ReopenSeesLastWritten(c, file, states[..n + 1], events[..n]);
      }
    }
  }

  /** Everything ever appended, oldest first. */
  function History(events: seq<Event>): seq<Remembered> {
    if events == [] then []
    else
      var n := |events| - 1;
      History(events[..n]) + if events[n].op.Remember? then [events[n].op.r] else []
  }

  ghost predicate NoDeletes(events: seq<Event>) {
    forall i :: 0 <= i < |events| ==> !events[i].op.Delete?
  }

  lemma RunPrefix(c: Codec, states: seq<State>, events: seq<Event>)
    requires Run(c, states, events) && events != []
    ensures Run(c, states[..|events|], events[..|events| - 1])
    ensures states[..|events|][|events| - 1] == states[|events| - 1]
  {
  }

  /** From an empty store, without deletions, the list is always a suffix of the
      whole history trimmed per key. */
  lemma HistoryRefinement(c: Codec, states: seq<State>, events: seq<Event>)
    requires Run(c, states, events) && states[0] == EMPTY && NoDeletes(events)
    ensures IsSuffix(states[|events|].remembered, Retained(History(events)))
  {
    RefinesUpTo(c, states, events, |events|);
    assert events[..|events|] == events;
  }

  /** If no edit ever outgrows the file limit, iterated trimming equals one batch
      trim of the unbounded history. */
  lemma {:induction false} HistoryExact(c: Codec, states: seq<State>, events: seq<Event>)
    requires Run(c, states, events) && states[0] == EMPTY && NoDeletes(events)
    requires forall i :: 0 <= i < |events| ==> !TooBig(c, Edit(states[i], events[i].op))
    ensures states[|events|].remembered == LastN(Retained(History(events)), GLOBAL_CAP)
  {
    if events != [] {
      var n := |events| - 1;
      RunPrefix(c, states, events);
      HistoryExact(c, states[..n + 1], events[..n]);
      ShrunkIdentity(c, Edit(states[n], events[n].op), states[n + 1]);
      if events[n].op.Remember? {
        AppendExact(History(events[..n]), events[n].op.r);
      } else {
        assert History(events) == History(events[..n]);
      }
    }
  }

  /** The text last set for a key, empty once cleared. */
  function LastSet(events: seq<Event>, key: string): string {
    if events == [] then ""
    else
      var n := |events| - 1;
      match events[n].op
      case SetLabel(k, entry) => if k == key then entry.text else LastSet(events[..n], key)
      case ClearLabel(k) => if k == key then "" else LastSet(events[..n], key)
      case _ => LastSet(events[..n], key)
  }

  lemma EditLabels(s: State, op: Op, key: string)
    ensures LabelOf(Edit(s, op), key) ==
      match op
      case SetLabel(k, entry) => if k == key then entry.text else LabelOf(s, key)
      case ClearLabel(k) => if k == key then "" else LabelOf(s, key)
      case _ => LabelOf(s, key)
  {
  }

  lemma StepKeepsLabel(c: Codec, pre: State, e: Event, post: State, key: string)
    requires Step(c, pre, e.op, post, e.status)
    ensures LabelOf(post, key) == "" || LabelOf(post, key) == LabelOf(Edit(pre, e.op), key)
    ensures !TooBig(c, Edit(pre, e.op)) ==> LabelOf(post, key) == LabelOf(Edit(pre, e.op), key)
  {
    if !TooBig(c, Edit(pre, e.op)) && !(e.op.Delete? && Without(pre.remembered, e.op.id) == pre.remembered) {
      ShrunkIdentity(c, Edit(pre, e.op), post);
    }
  }

  /** In every run from an empty store a reader gets the text last set for its key or
      none, never an older one; and exactly the text last set, if no edit ever
      outgrew the file limit. */
  lemma {:induction false} LabelReadsLastSet(c: Codec, states: seq<State>, events: seq<Event>, key: string)
    requires Run(c, states, events) && states[0] == EMPTY
    ensures LabelOf(states[|events|], key) == "" || LabelOf(states[|events|], key) == LastSet(events, key)
    ensures (forall i :: 0 <= i < |events| ==> !TooBig(c, Edit(states[i], events[i].op))) ==>
      LabelOf(states[|events|], key) == LastSet(events, key)
  {
    if events != [] {
      var n := |events| - 1;
      RunPrefix(c, states, events);
      LabelReadsLastSet(c, states[..n + 1], events[..n], key);
      EditLabels(states[n], events[n].op, key);
      StepKeepsLabel(c, states[n], events[n], states[n + 1], key);
    }
  }

  // ---------- What a deletion leaves of the suffix ----------

  /** The entries with the id, if any, come before all others. */
  predicate HeadsList(s: seq<Remembered>, id: string) {
    forall i, j :: 0 <= i < j < |s| && s[j].id == id ==> s[i].id == id
  }

  lemma {:induction false} HeadsTail(s: seq<Remembered>, id: string)
    requires s != []
    ensures HeadsList(s, id) <==> if s[0].id == id then HeadsList(s[1..], id) else forall r :: r in s ==> r.id != id
  {
    var t := s[1..];
    assert forall i :: 0 <= i < |t| ==> t[i] == s[i + 1];
    assert s == [s[0]] + t;
    if s[0].id != id && HeadsList(s, id) {
      forall r | r in s ensures r.id != id {
        var j :| 0 <= j < |s| && s[j] == r;
        assert j > 0 ==> s[j].id != id;
      }
    }
    if s[0].id == id && HeadsList(s, id) {
      forall i, j | 0 <= i < j < |t| && t[j].id == id ensures t[i].id == id {
        assert s[j + 1].id == id;
      }
    }
    if s[0].id == id && HeadsList(t, id) {
      forall i, j | 0 <= i < j < |s| && s[j].id == id ensures s[i].id == id {
        if i > 0 {
          assert t[j - 1].id == id;
        }
      }
    }
  }

  lemma {:induction false} WithoutAbsent(s: seq<Remembered>, id: string)
    ensures Without(s, id) == s <==> forall r :: r in s ==> r.id != id
  {
    if s != [] {
      WithoutAbsent(s[1..], id);
      WithoutLength(s[1..], id);
      assert s == [s[0]] + s[1..];
    }
  }

  /** Deleting leaves a suffix of the list exactly when nothing kept precedes what goes. */
  lemma {:induction false} DeletionLeavesSuffix(s: seq<Remembered>, id: string)
    ensures IsSuffix(Without(s, id), s) <==> HeadsList(s, id)
  {
    if s != [] {
      var t, w := s[1..], Without(s[1..], id);
      HeadsTail(s, id);
      WithoutLength(t, id);
      if s[0].id == id {
        DeletionLeavesSuffix(t, id);
        SuffixOfTail(w, s);
      } else {
        WithoutAbsent(s, id);
        KeptHeadNoSuffix(s, id);
      }
    }
  }

  lemma SuffixOfTail(a: seq<Remembered>, s: seq<Remembered>)
    requires s != [] && |a| < |s|
    ensures IsSuffix(a, s) <==> IsSuffix(a, s[1..])
  {
    assert s[|s| - |a|..] == s[1..][|s| - 1 - |a|..];
  }

  /** If the first entry stays, what is left is a suffix only if everything stays. */
  lemma KeptHeadNoSuffix(s: seq<Remembered>, id: string)
    requires s != [] && s[0].id != id
    ensures IsSuffix(Without(s, id), s) <==> Without(s, id) == s
  {
    var w := Without(s, id);
    WithoutLength(s, id);
    if IsSuffix(w, s) && |w| < |s| {
      var k := |s| - |w|;
      WithoutConcat(s[..k], s[k..], id);
      assert s == s[..k] + s[k..] && s[k..] == w;
      WithoutTwice(s, id);
    }
  }

  lemma {:induction false} WithoutConcat(a: seq<Remembered>, b: seq<Remembered>, id: string)
    ensures Without(a + b, id) == Without(a, id) + Without(b, id)
  {
    if a == [] {
      assert a + b == b;
    } else {
      assert (a + b)[1..] == a[1..] + b;
      WithoutConcat(a[1..], b, id);
    }
  }

  lemma {:induction false} WithoutTwice(s: seq<Remembered>, id: string)
    ensures Without(Without(s, id), id) == Without(s, id)
  {
    if s != [] {
      WithoutTwice(s[1..], id);
      WithoutConcat(if s[0].id == id then [] else [s[0]], Without(s[1..], id), id);
    }
  }

  /** A deletion keeps the list a suffix of the trimmed history if and only if nothing
      it keeps precedes what it removes. */
  lemma DeletionKeepsRefinement(s: seq<Remembered>, h: seq<Remembered>, id: string)
    requires IsSuffix(s, Retained(h))
    ensures IsSuffix(Without(s, id), Retained(h)) <==> HeadsList(s, id)
  {
    var w, p := Without(s, id), Retained(h);
    WithoutLength(s, id);
    DeletionLeavesSuffix(s, id);
    if IsSuffix(w, s) {
      SuffixTransitive(w, s, p);
    }
    if IsSuffix(w, p) {
      assert s[|s| - |w|..] == p[|p| - |s|..][|s| - |w|..] == p[|p| - |w|..];
    }
  }

  /** The list after `n` events is a suffix of the history so far, trimmed per key. */
  ghost predicate Refines(states: seq<State>, events: seq<Event>, n: nat)
    requires n <= |events| < |states|
  {
    IsSuffix(states[n].remembered, Retained(History(events[..n])))
  }

  ghost predicate HeadDeletion(s: State, op: Op) {
    op.Delete? ==> HeadsList(s.remembered, op.id)
  }

  lemma DeletionStep(c: Codec, pre: State, e: Event, post: State)
    requires Step(c, pre, e.op, post, e.status) && e.op.Delete? && !TooBig(c, Edit(pre, e.op))
    ensures post.remembered == Without(pre.remembered, e.op.id)
  {
    if Without(pre.remembered, e.op.id) != pre.remembered {
      ShrunkIdentity(c, Edit(pre, e.op), post);
    }
  }

  lemma RefinesStep(c: Codec, states: seq<State>, events: seq<Event>, n: nat)
    requires Run(c, states, events) && n < |events| && Refines(states, events, n)
    requires events[n].op.Delete? ==> !TooBig(c, Edit(states[n], events[n].op))
    ensures Refines(states, events, n + 1) <==> HeadDeletion(states[n], events[n].op)
  {
    var pre, e, post, h := states[n], events[n], states[n + 1], History(events[..n]);
    assert events[..n + 1] == events[..n] + [e];
    HistorySnoc(events[..n], e);
    if e.op.Delete? {
      DeletionStep(c, pre, e, post);
      DeletionKeepsRefinement(pre.remembered, h, e.op.id);
      assert h + [] == h;
    } else {
      AppendStepRefines(c, pre, e, post, h);
    }
  }

  lemma StepKeepsNewest(c: Codec, pre: State, op: Op, post: State, status: Status)
    requires Step(c, pre, op, post, status)
    ensures IsSuffix(post.remembered, Edit(pre, op).remembered)
  {
  }

  lemma AppendStepRefines(c: Codec, pre: State, e: Event, post: State, h: seq<Remembered>)
    requires Step(c, pre, e.op, post, e.status) && !e.op.Delete? && IsSuffix(pre.remembered, Retained(h))
    ensures IsSuffix(post.remembered, Retained(h + if e.op.Remember? then [e.op.r] else []))
  {
    StepKeepsNewest(c, pre, e.op, post, e.status);
    if e.op.Remember? {
      AppendRefines(pre.remembered, h, e.op.r);
      SuffixTransitive(post.remembered, Append(pre.remembered, e.op.r), Retained(h + [e.op.r]));
    } else {
      assert h + [] == h;
      SuffixTransitive(post.remembered, pre.remembered, Retained(h));
    }
  }

  lemma {:induction false} RefinesUpTo(c: Codec, states: seq<State>, events: seq<Event>, n: nat)
    requires Run(c, states, events) && states[0] == EMPTY && n <= |events|
    requires forall i :: 0 <= i < n && events[i].op.Delete? ==> !TooBig(c, Edit(states[i], events[i].op))
    requires forall i :: 0 <= i < n ==> HeadDeletion(states[i], events[i].op)
    ensures Refines(states, events, n)
  {
    if n > 0 {
      RefinesUpTo(c, states, events, n - 1);
      RefinesStep(c, states, events, n - 1);
    }
  }

  /** In a run from an empty store whose deletions do not outgrow the file limit, every
      state is a suffix of its trimmed history if and only if every deletion removes
      entries from the head of the list. */
  lemma RefinementWithDeletions(c: Codec, states: seq<State>, events: seq<Event>)
    requires Run(c, states, events) && states[0] == EMPTY
    requires forall i :: 0 <= i < |events| && events[i].op.Delete? ==> !TooBig(c, Edit(states[i], events[i].op))
    ensures (forall n :: 0 <= n <= |events| ==> Refines(states, events, n)) <==>
      forall i :: 0 <= i < |events| ==> HeadDeletion(states[i], events[i].op)
  {
    if forall n :: 0 <= n <= |events| ==> Refines(states, events, n) {
      forall i | 0 <= i < |events| ensures HeadDeletion(states[i], events[i].op) {
        assert Refines(states, events, i) && Refines(states, events, i + 1);
        RefinesStep(c, states, events, i);
      }
    }
    if forall i :: 0 <= i < |events| ==> HeadDeletion(states[i], events[i].op) {
      forall n | 0 <= n <= |events| ensures Refines(states, events, n) {
        RefinesUpTo(c, states, events, n);
      }
    }
  }

  lemma TwoAppends(a: Remembered, b: Remembered)
    requires a.labelKey != b.labelKey
    ensures Append([], a) == [a] && Append([a], b) == [a, b] && Retained([a, b]) == [a, b]
  {
    assert [] + [a] == [a] && [a] + [b] == [a, b] && [a, b][1..] == [b] && [b][1..] == [];
    CountOne(a, a.labelKey);
    KeepNewestKeepsAll([a], a.labelKey);
    CountOne(a, b.labelKey);
    CountOne(b, b.labelKey);
    CountConcat(Carries(b.labelKey), [a], [b]);
    KeepNewestKeepsAll([a, b], b.labelKey);
    assert Retained([b]) == [b];
  }

  lemma DropNewer(a: Remembered, b: Remembered)
    requires a.id != b.id
    ensures Without([a, b], b.id) == [a]
  {
    assert [a, b][1..] == [b] && [b][1..] == [];
    assert Without([b], b.id) == [];
    assert Without([a, b], b.id) == [a] + Without([b], b.id);
  }

  lemma HistorySnoc(events: seq<Event>, e: Event)
    ensures History(events + [e]) == History(events) + if e.op.Remember? then [e.op.r] else []
  {
    assert (events + [e])[..|events|] == events;
  }

  /** An edit that fits is persisted as it is. */
  lemma StepFits(c: Codec, s: State, op: Op, t: State)
    requires t == Edit(s, op) && t != s && Fits(c, t)
    ensures Step(c, s, op, t, Ok)
  {
    ShrunkNothing(c, t);
  }

  lemma ThreeSteps(c: Codec, a: Remembered, b: Remembered)
    requires a.id != b.id && a.labelKey != b.labelKey
    requires Fits(c, State(map[], [a])) && Fits(c, State(map[], [a, b]))
    ensures Step(c, EMPTY, Op.Remember(a), State(map[], [a]), Ok)
    ensures Step(c, State(map[], [a]), Op.Remember(b), State(map[], [a, b]), Ok)
    ensures Step(c, State(map[], [a, b]), Delete(b.id), State(map[], [a]), Ok)
  {
    TwoAppends(a, b);
    DropNewer(a, b);
    StepFits(c, EMPTY, Op.Remember(a), State(map[], [a]));
    StepFits(c, State(map[], [a]), Op.Remember(b), State(map[], [a, b]));
    StepFits(c, State(map[], [a, b]), Delete(b.id), State(map[], [a]));
  }

  lemma ThreeHistory(e: Event, f: Event, g: Event)
    requires e.op.Remember? && f.op.Remember? && !g.op.Remember?
    ensures History([e, f, g]) == [e.op.r, f.op.r]
  {
    HistorySnoc([], e);
    HistorySnoc([e], f);
    HistorySnoc([e, f], g);
    assert [] + [e] == [e] && [e] + [f] == [e, f] && [e, f] + [g] == [e, f, g];
  }

  /** A deletion can break both: with two small entries remembered and the newer
      one deleted, the older one alone is not a suffix of the history. */
  lemma DeletionBreaksSuffix(c: Codec, a: Remembered, b: Remembered)
    requires a.id != b.id && a.labelKey != b.labelKey
    requires Fits(c, State(map[], [a])) && Fits(c, State(map[], [a, b]))
    ensures var states := [EMPTY, State(map[], [a]), State(map[], [a, b]), State(map[], [a])];
      var events := [Event(Op.Remember(a), Ok), Event(Op.Remember(b), Ok), Event(Delete(b.id), Ok)];
      Run(c, states, events) && !IsSuffix([a], Retained(History(events)))
  {
    ThreeSteps(c, a, b);
    ThreeHistory(Event(Op.Remember(a), Ok), Event(Op.Remember(b), Ok), Event(Delete(b.id), Ok));
    OlderIsNoSuffix(a, b);
  }

  lemma OlderIsNoSuffix(a: Remembered, b: Remembered)
    requires a.labelKey != b.labelKey
    ensures !IsSuffix([a], Retained([a, b]))
  {
    TwoAppends(a, b);
    assert [a, b][1..] == [b];
  }

  /** With deletions too, and from any file within the caps: both caps hold and
      the list is the start followed by the history, with entries left out. */
  lemma {:induction false} CapsAndOrder(c: Codec, states: seq<State>, events: seq<Event>)
    requires Run(c, states, events) && WithinCaps(states[0].remembered)
    ensures WithinCaps(states[|events|].remembered)
    ensures Subsequence(states[|events|].remembered, states[0].remembered + History(events))
  {
    if events == [] {
      assert states[0].remembered + History(events) == states[0].remembered;
      SubsequenceReflexive(states[0].remembered);
    } else {
      var n := |events| - 1;
      RunPrefix(c, states, events);
      CapsAndOrder(c, states[..n + 1], events[..n]);
      var h := states[0].remembered + History(events[..n]);
      var h' := states[0].remembered + History(events);
      EditKeepsOrder(states[n], events[n].op, h, h');
      var mid := Edit(states[n], events[n].op).remembered;
      assert IsSuffix(states[n + 1].remembered, mid) by {
        if states[n + 1] == states[n] && events[n].op.Delete? && Without(states[n].remembered, events[n].op.id) == states[n].remembered {
          assert mid == states[n + 1].remembered;
        }
      }
      SuffixIsSubsequence(states[n + 1].remembered, mid);
      SubsequenceTransitive(states[n + 1].remembered, mid, h');
      SubsequenceKeepsCaps(states[n + 1].remembered, mid);
    }
  }

  lemma {:induction false} HistoryMember(events: seq<Event>, r: Remembered)
    requires r in History(events)
    ensures exists i :: 0 <= i < |events| && events[i].op == Op.Remember(r)
  {
    var n := |events| - 1;
    if r in History(events[..n]) {
      HistoryMember(events[..n], r);
      var i :| 0 <= i < n && events[..n][i].op == Op.Remember(r);
      assert events[i].op == Op.Remember(r);
    }
  }

  /** What is stored was there at the start or was appended as it is. */
  lemma StoredAsAppended(c: Codec, states: seq<State>, events: seq<Event>, r: Remembered)
    requires Run(c, states, events) && WithinCaps(states[0].remembered) && r in states[|events|].remembered
    ensures r in states[0].remembered || exists i :: 0 <= i < |events| && events[i].op == Op.Remember(r)
  {
    CapsAndOrder(c, states, events);
    SubsequenceMember(states[|events|].remembered, states[0].remembered + History(events), r);
    if r !in states[0].remembered {
      HistoryMember(events, r);
    }
  }

  lemma {:induction false} FindMember(s: seq<Remembered>, id: string)
    ensures Find(s, id).Some? ==> Find(s, id).value in s && Find(s, id).value.id == id
    ensures Find(s, id).None? ==> forall r :: r in s ==> r.id != id
  {
    if s != [] {
      FindMember(s[1..], id);
    }
  }

  lemma SubsequenceKeepsCaps(a: seq<Remembered>, b: seq<Remembered>)
    requires Subsequence(a, b) && WithinCaps(b)
    ensures WithinCaps(a)
  {
    CountSubsequence(a, b, "");
    forall key ensures CountFor(a, key) <= PER_KEY_CAP {
      CountSubsequence(a, b, key);
    }
  }

  lemma EditKeepsOrder(s: State, op: Op, h: seq<Remembered>, h': seq<Remembered>)
    requires WithinCaps(s.remembered) && Subsequence(s.remembered, h)
    requires h' == h + if op.Remember? then [op.r] else []
    ensures WithinCaps(Edit(s, op).remembered) && Subsequence(Edit(s, op).remembered, h')
  {
    match op {
      case Remember(r) =>
        AppendKeepsCaps(s.remembered, r);
        AppendIsSubsequence(s.remembered, h, r);
      case Delete(id) =>
        assert h' == h;
        var kept := Without(s.remembered, id);
        WithoutIsSubsequence(s.remembered, id);
        SubsequenceTransitive(kept, s.remembered, h);
        SubsequenceKeepsCaps(kept, s.remembered);
      case _ =>
        assert h' == h;
    }
  }

  // ---------- Filling in a snapshot ----------

  /** Derives id, stamp and key where the caller left them out. */
  method Fill(hash: string -> string, r: Remembered, now: int, entropy: Option<seq<byte>>) returns (filled: Option<Remembered>)
    requires entropy.Some? ==> |entropy.value| == 10
    ensures filled.None? <==> r.id == "" && entropy.None?
    ensures filled.Some? ==> Filled(hash, now, entropy, r, filled.value)
  {
    var e := r;
    if e.labelKey == "" {
      e := e.(labelKey := LabelKey(hash, e.cwd, e.command));
    }
    if e.killedAt == ZERO_TIME {
      e := e.(killedAt := now);
    }
    if e.id == "" {
      var id := Ulid.NewUlid(e.killedAt / NS_PER_MS, entropy);
      if id.None? {
        return None;
      }
      e := e.(id := id.value);
    }
    return Some(e);
  }
}
