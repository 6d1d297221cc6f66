/** Reading a process's environment out of the kernel's argument buffer:
    argc, executable path, NUL padding, argv, then the environment. */
module Procargs {
  import opened Sequences

  type Bytes = seq<byte>

  const MAX_ARGC := 10000

  datatype Result = Ok(env: seq<Bytes>) | ShortBuffer | ImplausibleArgc

  // ---------- What the cursor skips and collects ----------

  function AfterNonNul(s: Bytes): (t: Bytes)
    ensures |t| <= |s| && (t == [] || t[0] == 0)
  {
    if s == [] || s[0] == 0 then s else AfterNonNul(s[1..])
  }

  function AfterNul(s: Bytes): (t: Bytes)
    ensures |t| <= |s| && (t == [] || t[0] != 0)
  {
    if s == [] || s[0] != 0 then s else AfterNul(s[1..])
  }

  lemma {:induction false} AfterIsSuffix(s: Bytes)
    ensures IsSuffix(AfterNonNul(s), s) && IsSuffix(AfterNul(s), s)
  {
    if s != [] {
      AfterIsSuffix(s[1..]);
      assert IsSuffix(s[1..], s);
      SuffixTransitive(AfterNonNul(s[1..]), s[1..], s);
      SuffixTransitive(AfterNul(s[1..]), s[1..], s);
    }
  }

  /** The buffer after `n` NUL-terminated strings; None if it ends before that. */
  function SkipArgs(s: Bytes, n: nat): Option<Bytes>
    decreases n
  {
    if n == 0 then Some(s)
    else
      var t := AfterNonNul(s);
      if t == [] then None else SkipArgs(t[1..], n - 1)
  }

  /** The strings up to the first empty one or the end of the buffer. */
  function Entries(s: Bytes): seq<Bytes>
    decreases |s|
  {
    if s == [] || s[0] == 0 then []
    else
      var t := AfterNonNul(s);
      [s[..|s| - |t|]] + if t == [] then [] else Entries(t[1..])
  }

  /** A little-endian signed 32-bit number. */
  function Int32(s: Bytes): int
    requires |s| >= 4
  {
    var u: int := s[0] as int + 0x100 * (s[1] as int) + 0x1_0000 * (s[2] as int) + 0x100_0000 * (s[3] as int);
    if u >= 0x8000_0000 then u - 0x1_0000_0000 else u
  }

  function Parse(buf: Bytes): Result {
    if |buf| < 4 then ShortBuffer
    else if Int32(buf) < 0 || Int32(buf) > MAX_ARGC then ImplausibleArgc
    else
      match SkipArgs(AfterNul(AfterNonNul(buf[4..])), Int32(buf))
      case None => Ok([])
      case Some(rest) => Ok(Entries(rest))
  }

  // ---------- The cursor ----------

  method SkipNonNul(buf: Bytes, from: nat) returns (pos: nat)
    requires from <= |buf|
    ensures from <= pos <= |buf| && buf[pos..] == AfterNonNul(buf[from..])
  {
    pos := from;
    while pos < |buf| && buf[pos] != 0
      invariant from <= pos <= |buf| && AfterNonNul(buf[pos..]) == AfterNonNul(buf[from..])
    {
      assert buf[pos..][1..] == buf[pos + 1..];
      pos := pos + 1;
    }
  }

  method SkipNul(buf: Bytes, from: nat) returns (pos: nat)
    requires from <= |buf|
    ensures from <= pos <= |buf| && buf[pos..] == AfterNul(buf[from..])
  {
    pos := from;
    while pos < |buf| && buf[pos] == 0
      invariant from <= pos <= |buf| && AfterNul(buf[pos..]) == AfterNul(buf[from..])
    {
      assert buf[pos..][1..] == buf[pos + 1..];
      pos := pos + 1;
    }
  }

  method ParseProcargs(buf: Bytes) returns (r: Result)
    ensures r == Parse(buf)
  {
    if |buf| < 4 {
      return ShortBuffer;
    }
    var argc := Int32(buf);
    if argc < 0 || argc > MAX_ARGC {
      return ImplausibleArgc;
    }
    var pos := SkipNonNul(buf, 4);
    pos := SkipNul(buf, pos);
    ghost var args := buf[pos..];
    var i := 0;
    while i < argc
      invariant i <= argc && pos <= |buf| && SkipArgs(buf[pos..], argc - i) == SkipArgs(args, argc)
    {
      var next := SkipNonNul(buf, pos);
      if next >= |buf| {
        return Ok([]);
      }
      assert buf[next..][1..] == buf[next + 1..];
      pos := next + 1;
      i := i + 1;
    }
    var env := CollectEntries(buf, pos);
    return Ok(env);
  }

  method CollectEntries(buf: Bytes, from: nat) returns (env: seq<Bytes>)
    requires from <= |buf|
    ensures env == Entries(buf[from..])
  {
    var pos := from;
    env := [];
    ghost var all := Entries(buf[from..]);
    while pos < |buf|
      invariant pos <= |buf| && Gathered(buf, pos, env, all)
      decreases |buf| - pos
    {
      var start := pos;
      pos := SkipNonNul(buf, start);
      if pos == start {
        break;
      }
      ghost var end, taken := pos, env;
      env := env + [buf[start..pos]];
      if pos < |buf| {
        pos := pos + 1;
      }
      TakeOne(buf, start, end, pos, taken, all);
    }
    NoneLeft(buf, pos, env, all);
  }

  /** The entries gathered so far and those still ahead are all there are. */
  ghost predicate Gathered(buf: Bytes, pos: nat, env: seq<Bytes>, all: seq<Bytes>)
    requires pos <= |buf|
  {
    env + Entries(buf[pos..]) == all
  }

  lemma MoveOne<T>(a: seq<T>, x: T, b: seq<T>)
    ensures a + ([x] + b) == (a + [x]) + b
  {
  }

  lemma NoneLeft(buf: Bytes, pos: nat, env: seq<Bytes>, all: seq<Bytes>)
    requires pos <= |buf| && (pos == |buf| || buf[pos..] == AfterNonNul(buf[pos..])) && Gathered(buf, pos, env, all)
    ensures env == all
  {
  }

  lemma TakeOne(buf: Bytes, start: nat, end: nat, next: nat, env: seq<Bytes>, all: seq<Bytes>)
    requires start < end <= |buf| && buf[end..] == AfterNonNul(buf[start..]) && Gathered(buf, start, env, all)
    requires next == if end < |buf| then end + 1 else end
    ensures Gathered(buf, next, env + [buf[start..end]], all)
  {
    EntriesAt(buf, start, end);
    MoveOne(env, buf[start..end], Entries(buf[next..]));
  }

  lemma EntriesAt(buf: Bytes, start: nat, pos: nat)
    requires start < pos <= |buf| && buf[pos..] == AfterNonNul(buf[start..])
    ensures Entries(buf[start..]) == [buf[start..pos]] + Entries(buf[if pos < |buf| then pos + 1 else pos..])
  {
    var s, t := buf[start..], buf[pos..];
    assert s[..|s| - |t|] == buf[start..pos];
    if pos < |buf| {
      assert t[1..] == buf[pos + 1..];
    }
  }

  // ---------- The layout, printed ----------

  /** The strings, each with its terminator. */
  function Block(strs: seq<Bytes>): Bytes {
    if strs == [] then [] else strs[0] + [0] + Block(strs[1..])
  }

  function Zeros(n: nat): Bytes {
    if n == 0 then [] else [0] + Zeros(n - 1)
  }

  function Header(argc: nat): Bytes {
    [argc % 0x100, argc / 0x100 % 0x100, argc / 0x1_0000 % 0x100, argc / 0x100_0000 % 0x100]
  }

  /** A buffer with `pad` NULs after the path's own and arbitrary bytes at the end. */
  function Print(path: Bytes, pad: nat, argv: seq<Bytes>, env: seq<Bytes>, tail: Bytes): Bytes {
    Header(|argv|) + (path + (Zeros(1 + pad) + (Block(argv) + (Block(env) + tail))))
  }

  ghost predicate NulFree(strs: seq<Bytes>) {
    forall i :: 0 <= i < |strs| ==> 0 !in strs[i]
  }

  ghost predicate NonEmpty(strs: seq<Bytes>) {
    forall i :: 0 <= i < |strs| ==> strs[i] != []
  }

  function LeadingEmpties(strs: seq<Bytes>): (k: nat)
    ensures k <= |strs|
  {
    if strs == [] || strs[0] != [] then 0 else 1 + LeadingEmpties(strs[1..])
  }

  lemma {:induction false} SkipPlain(a: Bytes, s: Bytes)
    requires 0 !in a && (s == [] || s[0] == 0)
    ensures AfterNonNul(a + s) == s
  {
    if a == [] {
      assert a + s == s;
    } else {
      assert (a + s)[1..] == a[1..] + s;
      SkipPlain(a[1..], s);
    }
  }

  lemma {:induction false} SkipZeros(n: nat, s: Bytes)
    ensures AfterNul(Zeros(n) + s) == AfterNul(s)
  {
    if n == 0 {
      assert Zeros(0) + s == s;
    } else {
      assert (Zeros(n) + s)[1..] == Zeros(n - 1) + s;
      SkipZeros(n - 1, s);
    }
  }

  lemma {:induction false} SkipEmpties(strs: seq<Bytes>, s: Bytes)
    ensures AfterNul(Block(strs) + s) == AfterNul(Block(strs[LeadingEmpties(strs)..]) + s)
  {
    if strs != [] && strs[0] == [] {
      assert (Block(strs) + s)[1..] == Block(strs[1..]) + s;
      SkipEmpties(strs[1..], s);
      assert strs[1..][LeadingEmpties(strs[1..])..] == strs[LeadingEmpties(strs)..];
    }
  }

  lemma {:induction false} SkipBlock(strs: seq<Bytes>, s: Bytes, n: nat)
    requires NulFree(strs) && n <= |strs|
    ensures SkipArgs(Block(strs) + s, n) == Some(Block(strs[n..]) + s)
  {
    if n > 0 {
      var after := [0] + Block(strs[1..]) + s;
      assert Block(strs) + s == strs[0] + after;
      SkipPlain(strs[0], after);
      assert after[1..] == Block(strs[1..]) + s;
      SkipBlock(strs[1..], s, n - 1);
      assert strs[1..][n - 1..] == strs[n..];
    }
  }

  lemma EntriesHead(e: Bytes, rest: Bytes)
    requires e != [] && 0 !in e && (rest == [] || rest[0] == 0)
    ensures Entries(e + rest) == [e] + if rest == [] then [] else Entries(rest[1..])
  {
    SkipPlain(e, rest);
    assert (e + rest)[0] == e[0] && e[0] in e;
    assert (e + rest)[..|e|] == e;
  }

  lemma Reassociate(e: Bytes, b: Bytes, tail: Bytes)
    ensures e + [0] + b + tail == e + ([0] + (b + tail))
  {
  }

  lemma EntriesCons(e: Bytes, rest: Bytes)
    requires e != [] && 0 !in e
    ensures Entries(e + ([0] + rest)) == [e] + Entries(rest)
  {
    EntriesHead(e, [0] + rest);
    assert ([0] + rest)[1..] == rest;
  }

  lemma EntriesLast(e: Bytes)
    requires e != [] && 0 !in e
    ensures Entries(e) == [e]
  {
    EntriesHead(e, []);
    assert e + [] == e && [e] + [] == [e];
  }

  /** Reading goes on behind terminated strings as if they were not there. */
  lemma {:induction false} EntriesConcat(env: seq<Bytes>, tail: Bytes)
    requires NulFree(env) && NonEmpty(env)
    ensures Entries(Block(env) + tail) == env + Entries(tail)
  {
    if env == [] {
      assert Block(env) + tail == tail && env + Entries(tail) == Entries(tail);
    } else {
      Reassociate(env[0], Block(env[1..]), tail);
      EntriesCons(env[0], Block(env[1..]) + tail);
      EntriesConcat(env[1..], tail);
      Uncons(env, Entries(tail));
    }
  }

  lemma Uncons(s: seq<Bytes>, t: seq<Bytes>)
    requires s != []
    ensures [s[0]] + (s[1..] + t) == s + t
  {
  }

  lemma EntriesOfBlock(env: seq<Bytes>, tail: Bytes)
    requires NulFree(env) && NonEmpty(env) && (tail == [] || tail[0] == 0)
    ensures Entries(Block(env) + tail) == env
  {
    EntriesConcat(env, tail);
    assert env + [] == env;
  }

  lemma HeaderRead(argc: nat, rest: Bytes)
    requires argc <= MAX_ARGC
    ensures Int32(Header(argc) + rest) == argc && (Header(argc) + rest)[4..] == rest
  {
    assert argc == argc / 0x100 * 0x100 + argc % 0x100;
  }

  lemma BlockConcat(a: seq<Bytes>, b: seq<Bytes>)
    ensures Block(a + b) == Block(a) + Block(b)
  {
    if a == [] {
      assert a + b == b;
    } else {
      assert (a + b)[1..] == a[1..] + b;
      BlockConcat(a[1..], b);
    }
  }

  /** What is read once `n` strings are skipped. */
  function Collected(s: Bytes, n: nat): Result {
    match SkipArgs(s, n)
    case None => Ok([])
    case Some(rest) => Ok(Entries(rest))
  }

  lemma ParsePrologue(path: Bytes, pad: nat, argc: nat, body: Bytes)
    requires 0 !in path && argc <= MAX_ARGC
    ensures Parse(Header(argc) + (path + (Zeros(1 + pad) + body))) == Collected(AfterNul(body), argc)
  {
    var padded := Zeros(1 + pad) + body;
    HeaderRead(argc, path + padded);
    assert padded[0] == 0;
    SkipPlain(path, padded);
    SkipZeros(1 + pad, body);
  }

  lemma PrintedBody(path: Bytes, pad: nat, argv: seq<Bytes>, env: seq<Bytes>, tail: Bytes)
    requires 0 !in path && |argv| <= MAX_ARGC
    ensures Parse(Print(path, pad, argv, env, tail)) == Collected(AfterNul(Block(argv) + (Block(env) + tail)), |argv|)
  {
    var body := Block(argv) + (Block(env) + tail);
    ParsePrologue(path, pad, |argv|, body);
  }

  lemma NulSkipsNothing(strs: seq<Bytes>, tail: Bytes)
    requires strs != [] && strs[0] != [] && 0 !in strs[0]
    ensures AfterNul(Block(strs) + tail) == Block(strs) + tail
  {
    assert strs[0][0] in strs[0];
    assert (Block(strs) + tail)[0] == strs[0][0];
  }

  /** What parsing a printed buffer comes down to: leading empty arguments are taken
      for padding, and as many later strings skipped in their place. */
  lemma ParsePrinted(path: Bytes, pad: nat, argv: seq<Bytes>, env: seq<Bytes>, tail: Bytes)
    requires 0 !in path && |argv| <= MAX_ARGC
    requires NulFree(argv) && NulFree(env) && NonEmpty(env)
    requires LeadingEmpties(argv) < |argv| || env != []
    ensures Parse(Print(path, pad, argv, env, tail)) ==
      Collected(Block(argv[LeadingEmpties(argv)..] + env) + tail, |argv|)
  {
    PrintedBody(path, pad, argv, env, tail);
    PaddingEnds(argv, env, tail);
  }

  lemma PaddingEnds(argv: seq<Bytes>, env: seq<Bytes>, tail: Bytes)
    requires NulFree(argv) && NulFree(env) && NonEmpty(env)
    requires LeadingEmpties(argv) < |argv| || env != []
    ensures AfterNul(Block(argv) + (Block(env) + tail)) == Block(argv[LeadingEmpties(argv)..] + env) + tail
  {
    var kept := argv[LeadingEmpties(argv)..];
    SkipEmpties(argv, Block(env) + tail);
    BlockConcat(kept, env);
    Associate(Block(kept), Block(env), tail);
    LeadingHead(argv);
    HeadOfJoined(kept, env);
    NulSkipsNothing(kept + env, tail);
  }

  lemma Associate(a: Bytes, b: Bytes, c: Bytes)
    ensures a + (b + c) == (a + b) + c
  {
  }

  lemma HeadOfJoined(a: seq<Bytes>, b: seq<Bytes>)
    requires NulFree(a) && NulFree(b) && (a != [] ==> a[0] != []) && NonEmpty(b) && (a != [] || b != [])
    ensures a + b != [] && (a + b)[0] != [] && 0 !in (a + b)[0]
  {
  }

  lemma {:induction false} LeadingHead(strs: seq<Bytes>)
    ensures LeadingEmpties(strs) < |strs| ==> strs[LeadingEmpties(strs)] != []
    ensures LeadingEmpties(strs) == 0 <==> strs == [] || strs[0] != []
  {
    if strs != [] && strs[0] == [] {
      LeadingHead(strs[1..]);
    }
  }

  lemma {:induction false} AllZeroTail(tail: Bytes)
    requires forall i :: 0 <= i < |tail| ==> tail[i] == 0
    ensures AfterNul(tail) == []
  {
    if tail != [] {
      AllZeroTail(tail[1..]);
    }
  }

  /** Parsing undoes printing, with any padding and any bytes after the terminator. */
  lemma RoundTrip(path: Bytes, pad: nat, argv: seq<Bytes>, env: seq<Bytes>, tail: Bytes)
    requires 0 !in path && |argv| <= MAX_ARGC
    requires NulFree(argv) && NulFree(env) && NonEmpty(env)
    requires argv != [] ==> argv[0] != []
    requires tail == [] || tail[0] == 0
    requires argv == [] && env == [] ==> forall i :: 0 <= i < |tail| ==> tail[i] == 0
    ensures Parse(Print(path, pad, argv, env, tail)) == Ok(env)
  {
    LeadingHead(argv);
    if argv == [] && env == [] {
      PrintedBody(path, pad, argv, env, tail);
      assert Block(argv) + (Block(env) + tail) == tail;
      AllZeroTail(tail);
    } else {
      ParsePrinted(path, pad, argv, env, tail);
      assert argv[0..] == argv;
      SkipBlock(argv + env, tail, |argv|);
      assert (argv + env)[|argv|..] == env;
      EntriesOfBlock(env, tail);
    }
  }

  /** What reading a printed buffer gives: an entry is lost for each leading empty
      argument; when there are not that many, strings of the tail are skipped. */
  function Surviving(argv: seq<Bytes>, env: seq<Bytes>, tail: Bytes): Result {
    var k := LeadingEmpties(argv);
    if k == |argv| && env == [] then Collected(AfterNul(tail), |argv|)
    else if k <= |env| then Ok(env[k..])
    else Collected(tail, k - |env|)
  }

  /** The exact result for every printed buffer, whatever follows its terminator. */
  lemma LostEntries(path: Bytes, pad: nat, argv: seq<Bytes>, env: seq<Bytes>, tail: Bytes)
    requires 0 !in path && |argv| <= MAX_ARGC
    requires NulFree(argv) && NulFree(env) && NonEmpty(env)
    requires tail == [] || tail[0] == 0
    ensures Parse(Print(path, pad, argv, env, tail)) == Surviving(argv, env, tail)
  {
    var k := LeadingEmpties(argv);
    if k == |argv| && env == [] {
      OnlyPadding(path, pad, argv, tail);
    } else {
      ParsePrinted(path, pad, argv, env, tail);
      if k <= |env| {
        CollectKept(argv, env, tail, k);
      } else {
        CollectBeyond(argv, env, tail, k);
      }
    }
  }

  lemma NulFreeParts(a: seq<Bytes>, k: nat, b: seq<Bytes>)
    requires NulFree(a) && NulFree(b) && k <= |a|
    ensures NulFree(a[k..] + b)
  {
  }

  lemma JoinedTail(a: seq<Bytes>, k: nat, b: seq<Bytes>)
    requires k <= |a| && k <= |b|
    ensures |a[k..] + b| >= |a| && (a[k..] + b)[|a|..] == b[k..]
  {
  }

  lemma CollectSkips(strs: seq<Bytes>, tail: Bytes, n: nat)
    requires NulFree(strs) && n <= |strs|
    ensures Collected(Block(strs) + tail, n) == Ok(Entries(Block(strs[n..]) + tail))
  {
    SkipBlock(strs, tail, n);
  }

  lemma CollectKept(argv: seq<Bytes>, env: seq<Bytes>, tail: Bytes, k: nat)
    requires NulFree(argv) && NulFree(env) && NonEmpty(env) && k <= |argv| && k <= |env|
    requires tail == [] || tail[0] == 0
    ensures Collected(Block(argv[k..] + env) + tail, |argv|) == Ok(env[k..])
  {
    var strs, rest := argv[k..] + env, env[k..];
    assert NulFree(strs) by {
      NulFreeParts(argv, k, env);
    }
    assert strs[|argv|..] == rest && |argv| <= |strs| by {
      JoinedTail(argv, k, env);
    }
    CollectSkips(strs, tail, |argv|);
    assert Entries(Block(rest) + tail) == rest by {
      EntriesOfBlock(rest, tail);
    }
  }

  lemma CollectBeyond(argv: seq<Bytes>, env: seq<Bytes>, tail: Bytes, k: nat)
    requires NulFree(argv) && NulFree(env) && |env| < k <= |argv|
    ensures Collected(Block(argv[k..] + env) + tail, |argv|) == Collected(tail, k - |env|)
  {
    NulFreeParts(argv, k, env);
    SkipBeyond(argv[k..] + env, tail, |argv|);
  }

  lemma {:induction false} SkipBeyond(strs: seq<Bytes>, tail: Bytes, n: nat)
    requires NulFree(strs) && n >= |strs|
    ensures SkipArgs(Block(strs) + tail, n) == SkipArgs(tail, n - |strs|)
  {
    if strs == [] {
      assert Block(strs) + tail == tail;
    } else {
      var rest := Block(strs[1..]) + tail;
      Reassociate(strs[0], Block(strs[1..]), tail);
      SkipPlain(strs[0], [0] + rest);
      assert ([0] + rest)[1..] == rest;
      SkipBeyond(strs[1..], tail, n - 1);
    }
  }

  lemma OnlyPadding(path: Bytes, pad: nat, argv: seq<Bytes>, tail: Bytes)
    requires 0 !in path && |argv| <= MAX_ARGC && NulFree(argv) && LeadingEmpties(argv) == |argv|
    ensures Parse(Print(path, pad, argv, [], tail)) == Collected(AfterNul(tail), |argv|)
  {
    PrintedBody(path, pad, argv, [], tail);
    assert Block([]) + tail == tail;
    AllPadding(argv, tail);
  }

  lemma AllPadding(argv: seq<Bytes>, tail: Bytes)
    requires LeadingEmpties(argv) == |argv|
    ensures AfterNul(Block(argv) + tail) == AfterNul(tail)
  {
    SkipEmpties(argv, tail);
    assert argv[|argv|..] == [] && Block([]) + tail == tail;
  }

  // ---------- When the environment comes back ----------

  /** The strings, terminated once more, open what is left of the buffer (NULs
      stand in for what lies beyond its end). */
  ghost predicate Opens(env: seq<Bytes>, s: Bytes) {
    Block(env) + [0] <= s + [0, 0]
  }

  lemma {:induction false} EntriesExactly(s: Bytes, env: seq<Bytes>)
    requires NulFree(env) && NonEmpty(env)
    ensures Entries(s) == env <==> Opens(env, s)
  {
    if env == [] {
      assert Block(env) + [0] == [0];
      assert (s + [0, 0])[0] == if s == [] then 0 else s[0];
      if s != [] && s[0] != 0 {
        assert |Entries(s)| > 0;
      }
    } else if Opens(env, s) {
      OpensSplit(s, env);
    } else if Entries(s) == env {
      EntriesOpen(s);
    }
  }

  /** The first entry and what follows it. */
  lemma FirstEntry(s: Bytes) returns (e: Bytes, t: Bytes)
    requires s != [] && s[0] != 0
    ensures s == e + t && |t| < |s| && 0 !in e && e != [] && (t == [] || t[0] == 0)
    ensures Entries(s) == [e] + if t == [] then [] else Entries(t[1..])
  {
    t := AfterNonNul(s);
    e := s[..|s| - |t|];
    AfterIsSuffix(s);
    PlainBefore(s);
  }

  /** What is read opens the buffer. */
  lemma {:induction false} EntriesOpen(s: Bytes)
    ensures Opens(Entries(s), s)
    decreases |s|
  {
    if s == [] || s[0] == 0 {
      assert (s + [0, 0])[0] == 0;
    } else {
      var e, t := FirstEntry(s);
      if t == [] {
        OpensLast(e);
        assert e + [] == e && [e] + [] == [e];
      } else {
        EntriesOpen(t[1..]);
        OpensCons(e, Entries(t[1..]), t);
      }
    }
  }

  lemma OpensLast(e: Bytes)
    ensures Opens([e], e)
  {
    assert Block([e]) + [0] == e + [0, 0];
  }

  lemma OpensCons(e: Bytes, rest: seq<Bytes>, t: Bytes)
    requires t != [] && t[0] == 0 && Opens(rest, t[1..])
    ensures Opens([e] + rest, e + t)
  {
    assert ([e] + rest)[1..] == rest;
    assert (e + t) + [0, 0] == e + [0] + (t[1..] + [0, 0]);
    assert Block([e] + rest) + [0] == e + [0] + (Block(rest) + [0]);
  }

  lemma OpensSplit(s: Bytes, env: seq<Bytes>)
    requires NulFree(env) && NonEmpty(env) && env != [] && Opens(env, s)
    ensures Entries(s) == env
  {
    var b, t := Block(env), s + [0, 0];
    BlockEnds(env);
    assert t[..|b| + 1] == b + [0];
    if |s| < |b| {
      assert s == t[..|s|] == b[..|b| - 1];
      EntriesOfCut(env);
    } else {
      var tail := s[|b|..];
      assert s[..|b|] == t[..|b|] == b && s == b + tail;
      assert t[|b|] == 0;
      EntriesOfBlock(env, tail);
    }
  }

  lemma {:induction false} BlockEnds(env: seq<Bytes>)
    requires env != []
    ensures Block(env) != [] && Block(env)[|Block(env)| - 1] == 0
  {
    if |env| > 1 {
      BlockEnds(env[1..]);
    }
  }

  lemma BlockLast(init: seq<Bytes>, last: Bytes)
    ensures Block(init + [last]) == Block(init) + last + [0]
  {
    BlockConcat(init, [last]);
    assert Block([last]) == last + [0];
  }

  /** The last terminator may be missing. */
  lemma EntriesOfCut(env: seq<Bytes>)
    requires NulFree(env) && NonEmpty(env) && env != [] && Block(env) != []
    ensures Entries(Block(env)[..|Block(env)| - 1]) == env
  {
    var init, last := env[..|env| - 1], env[|env| - 1];
    assert env == init + [last];
    BlockLast(init, last);
    assert Block(env)[..|Block(env)| - 1] == Block(init) + last;
    EntriesConcat(init, last);
    EntriesLast(last);
  }

  /** What is left after `n` strings opens with `env`; if less is left, `env` is empty. */
  ghost predicate Supplies(s: Bytes, n: nat, env: seq<Bytes>) {
    var rest := SkipArgs(s, n);
    if rest.None? then env == [] else Opens(env, rest.value)
  }

  lemma CollectedExactly(s: Bytes, n: nat, env: seq<Bytes>)
    requires NulFree(env) && NonEmpty(env)
    ensures Collected(s, n) == Ok(env) <==> Supplies(s, n, env)
  {
    var rest := SkipArgs(s, n);
    if rest.Some? {
      EntriesExactly(rest.value, env);
    }
  }

  /** A printed buffer reads back as printed if and only if its first argument, if
      any, is not empty, or else the tail happens to supply the environment again;
      with neither arguments to stop at nor an environment the tail alone decides. */
  lemma RoundTripExactly(path: Bytes, pad: nat, argv: seq<Bytes>, env: seq<Bytes>, tail: Bytes)
    requires 0 !in path && |argv| <= MAX_ARGC
    requires NulFree(argv) && NulFree(env) && NonEmpty(env)
    requires tail == [] || tail[0] == 0
    ensures var k := LeadingEmpties(argv);
      Parse(Print(path, pad, argv, env, tail)) == Ok(env) <==>
        if k == |argv| && env == [] then Supplies(AfterNul(tail), |argv|, [])
        else argv == [] || argv[0] != [] || (k > |env| && Supplies(tail, k - |env|, env))
  {
    LostEntries(path, pad, argv, env, tail);
    SurvivesExactly(argv, env, tail);
  }

  lemma SurvivesExactly(argv: seq<Bytes>, env: seq<Bytes>, tail: Bytes)
    requires NulFree(env) && NonEmpty(env)
    ensures var k := LeadingEmpties(argv);
      Surviving(argv, env, tail) == Ok(env) <==>
        if k == |argv| && env == [] then Supplies(AfterNul(tail), |argv|, [])
        else argv == [] || argv[0] != [] || (k > |env| && Supplies(tail, k - |env|, env))
  {
    LeadingHead(argv);
    var k := LeadingEmpties(argv);
    if k == |argv| && env == [] {
      CollectedExactly(AfterNul(tail), |argv|, env);
    } else if k == 0 {
      assert env[0..] == env;
    } else if k <= |env| {
      assert |env[k..]| < |env|;
    } else {
      CollectedExactly(tail, k - |env|, env);
    }
  }

  /** One empty argument and one entry: the entry is lost. */
  lemma EmptyArgumentLosesEntry()
    ensures Parse(Print([], 0, [[]], [[65]], [])) == Ok([])
  {
    LeadingHead([[]]);
    LostEntries([], 0, [[]], [[65]], []);
  }

  /** With an environment at least as long as the leading empty arguments, the first
      argument alone decides, whatever the tail. */
  lemma FirstArgumentDecides(path: Bytes, pad: nat, argv: seq<Bytes>, env: seq<Bytes>, tail: Bytes)
    requires 0 !in path && |argv| <= MAX_ARGC
    requires NulFree(argv) && NulFree(env) && NonEmpty(env)
    requires tail == [] || tail[0] == 0
    requires env != [] && LeadingEmpties(argv) <= |env|
    ensures Parse(Print(path, pad, argv, env, tail)) == Ok(env[LeadingEmpties(argv)..])
    ensures Parse(Print(path, pad, argv, env, tail)) == Ok(env) <==> argv == [] || argv[0] != []
  {
    LostEntries(path, pad, argv, env, tail);
    RoundTripExactly(path, pad, argv, env, tail);
  }

  lemma {:induction false} OnlyZerosSkipped(tail: Bytes)
    requires AfterNul(tail) == []
    ensures forall i :: 0 <= i < |tail| ==> tail[i] == 0
  {
    if tail != [] {
      OnlyZerosSkipped(tail[1..]);
      assert forall i :: 0 < i < |tail| ==> tail[i] == tail[1..][i - 1];
    }
  }

  /** With neither arguments nor environment the terminator is taken for padding
      too, so bytes behind it pass for environment unless they are all zero. */
  lemma TailTakenForEnvironment(path: Bytes, pad: nat, tail: Bytes)
    requires 0 !in path
    ensures Parse(Print(path, pad, [], [], tail)) == Ok([]) <==> forall i :: 0 <= i < |tail| ==> tail[i] == 0
  {
    PrintedBody(path, pad, [], [], tail);
    assert Block([]) + (Block([]) + tail) == tail;
    if AfterNul(tail) == [] {
      OnlyZerosSkipped(tail);
    } else if forall i :: 0 <= i < |tail| ==> tail[i] == 0 {
      AllZeroTail(tail);
    }
  }

  // ---------- Any buffer ----------

  lemma {:induction false} EntriesSound(s: Bytes)
    ensures NulFree(Entries(s)) && NonEmpty(Entries(s))
    ensures Block(Entries(s)) <= s + [0]
    decreases |s|
  {
    EntriesOpen(s);
    var b := Block(Entries(s));
    assert b == (b + [0])[..|b|] == (s + [0, 0])[..|b|] == (s + [0])[..|b|];
    if s != [] && s[0] != 0 {
      var e, t := FirstEntry(s);
      if t != [] {
        EntriesSound(t[1..]);
      }
    }
  }

  lemma {:induction false} PlainBefore(s: Bytes)
    ensures 0 !in s[..|s| - |AfterNonNul(s)|]
    ensures s != [] && s[0] != 0 ==> |AfterNonNul(s)| < |s|
  {
    if s != [] && s[0] != 0 {
      PlainBefore(s[1..]);
      var n := |s| - |AfterNonNul(s)|;
      assert s[..n] == [s[0]] + s[1..][..n - 1];
    }
  }

  lemma {:induction false} SkipArgsSuffix(s: Bytes, n: nat)
    ensures SkipArgs(s, n).Some? ==> IsSuffix(SkipArgs(s, n).value, s)
    decreases n
  {
    if n > 0 && AfterNonNul(s) != [] {
      var t := AfterNonNul(s);
      var u := t[1..];
      AfterIsSuffix(s);
      SuffixTransitive(u, t, s);
      SkipArgsSuffix(u, n - 1);
      if SkipArgs(u, n - 1).Some? {
        SuffixTransitive(SkipArgs(u, n - 1).value, u, s);
      }
    }
  }

  lemma RestOfBuffer(buf: Bytes)
    requires |buf| >= 4 && Int32(buf) >= 0
    ensures var r := SkipArgs(AfterNul(AfterNonNul(buf[4..])), Int32(buf)); r.Some? ==> IsSuffix(r.value, buf)
  {
    var path := AfterNonNul(buf[4..]);
    var args := AfterNul(path);
    AfterIsSuffix(buf[4..]);
    AfterIsSuffix(path);
    SkipArgsSuffix(args, Int32(buf));
    SuffixTransitive(args, path, buf[4..]);
    SuffixTransitive(args, buf[4..], buf);
    var r := SkipArgs(args, Int32(buf));
    if r.Some? {
      SuffixTransitive(r.value, args, buf);
    }
  }

  /** Whatever the buffer holds, the entries returned are non-empty and NUL-free and
      stand one after the other in it, separated by single NULs. */
  lemma ParseSound(buf: Bytes)
    requires Parse(buf).Ok?
    ensures NulFree(Parse(buf).env) && NonEmpty(Parse(buf).env)
    ensures exists from :: 0 <= from <= |buf| && Block(Parse(buf).env) <= buf[from..] + [0]
  {
    RestOfBuffer(buf);
    var r := SkipArgs(AfterNul(AfterNonNul(buf[4..])), Int32(buf));
    if r.None? {
      assert Block([]) <= buf[0..] + [0];
    } else {
      EntriesSound(r.value);
      assert Block(Entries(r.value)) <= buf[|buf| - |r.value|..] + [0];
    }
  }
}
