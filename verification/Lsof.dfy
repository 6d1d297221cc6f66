/** Parsing tagged lsof output: process, protocol and node lines, aggregated per
    process and port and sorted. */
module Lsof {
  import opened Listeners
  import opened Sequences
  import opened Addresses

  datatype Config = Config(portMin: int, portMax: int, exclude: int)

  type Key = (int, int)

  // ---------- What the lines say ----------

  function TrimCR(line: string): string {
    if line != "" && line[|line| - 1] == '\r' then TrimCR(line[..|line| - 1]) else line
  }

  /** Case-insensitive comparison with "TCP". */
  predicate IsTcp(proto: string) {
    |proto| == 3 && (proto[0] == 'T' || proto[0] == 't') && (proto[1] == 'C' || proto[1] == 'c')
    && (proto[2] == 'P' || proto[2] == 'p')
  }

  /** A socket that counts: which process and port, under which address. */
  datatype Row = Row(pid: int, port: int, addr: string)

  function Qualify(c: Config, pid: int, proto: string, node: string): Option<Row> {
    if pid == 0 || pid == c.exclude || !IsTcp(proto) then None
    else
      var hp := SplitHostPort(node);
      if hp.None? || hp.value.port < c.portMin || hp.value.port > c.portMax then None
      else Some(Row(pid, hp.value.port, JoinHostPort(hp.value.host, Itoa(hp.value.port))))
  }

  /** The process and protocol in force. */
  datatype Cursor = Cursor(pid: int, proto: string)

  const START := Cursor(0, "")

  function Move(cur: Cursor, raw: string): Cursor {
    var line := TrimCR(raw);
    if line == "" then cur
    else if line[0] == 'p' then
      var pid := Atoi(line[1..]);
      if pid.None? then cur.(pid := 0) else Cursor(pid.value, "")
    else if line[0] == 'P' then cur.(proto := line[1..])
    else cur
  }

  function Emit(c: Config, cur: Cursor, raw: string): seq<Row> {
    var line := TrimCR(raw);
    if line != "" && line[0] == 'n' then
      var row := Qualify(c, cur.pid, cur.proto, line[1..]);
      if row.Some? then [row.value] else []
    else []
  }

  /** Every qualifying node line, under the process and protocol lines before it. */
  function Rows(c: Config, cur: Cursor, lines: seq<string>): seq<Row>
    decreases |lines|
  {
    if lines == [] then [] else Emit(c, cur, lines[0]) + Rows(c, Move(cur, lines[0]), lines[1..])
  }

  function AddrsOf(rows: seq<Row>, key: Key): seq<string> {
    if rows == [] then []
    else (if (rows[0].pid, rows[0].port) == key then [rows[0].addr] else []) + AddrsOf(rows[1..], key)
  }

  // ---------- Orders ----------

  predicate StringLe(a: string, b: string) {
    a == "" || (b != "" && (a[0] < b[0] || (a[0] == b[0] && StringLe(a[1..], b[1..]))))
  }

  predicate ListenerLe(a: Listener, b: Listener) {
    a.port < b.port || (a.port == b.port && a.pid <= b.pid)
  }

  predicate ListenerLess(a: Listener, b: Listener) {
    a.port < b.port || (a.port == b.port && a.pid < b.pid)
  }

  lemma {:induction false} StringLeTotal(a: string, b: string)
    ensures StringLe(a, b) || StringLe(b, a)
    ensures StringLe(a, b) && StringLe(b, a) ==> a == b
  {
    if a != "" && b != "" && a[0] == b[0] {
      StringLeTotal(a[1..], b[1..]);
      assert a == [a[0]] + a[1..] && b == [b[0]] + b[1..];
    }
  }

  lemma {:induction false} StringLeTransitive(a: string, b: string, c: string)
    requires StringLe(a, b) && StringLe(b, c)
    ensures StringLe(a, c)
  {
    if a != "" && a[0] == b[0] == c[0] {
      StringLeTransitive(a[1..], b[1..], c[1..]);
    }
  }

  lemma StringOrder()
    ensures TotalOrder(StringLe)
  {
    forall x, y ensures StringLe(x, y) || StringLe(y, x) {
      StringLeTotal(x, y);
    }
    forall x, y, z | StringLe(x, y) && StringLe(y, z) ensures StringLe(x, z) {
      StringLeTransitive(x, y, z);
    }
  }

  // ---------- The declarative result ----------

  ghost predicate IsListing(rows: seq<Row>, out: seq<Listener>) {
    && (forall i, j :: 0 <= i < j < |out| ==> ListenerLess(out[i], out[j]))
    && (forall i :: 0 <= i < |out| ==> Describes(rows, out[i]))
    && (forall i :: 0 <= i < |rows| ==> Listed(out, (rows[i].pid, rows[i].port)))
  }

  ghost predicate Describes(rows: seq<Row>, l: Listener) {
    && l.addrs != [] && SortedBy(StringLe, l.addrs)
    && multiset(l.addrs) == multiset(AddrsOf(rows, (l.pid, l.port)))
  }

  ghost predicate Listed(out: seq<Listener>, key: Key) {
    exists i :: 0 <= i < |out| && (out[i].pid, out[i].port) == key
  }

  // ---------- The parser ----------

  /** The aggregate: addresses per key, in order of appearance. */
  ghost predicate Groups(rows: seq<Row>, agg: map<Key, seq<string>>) {
    && (forall k :: k in agg ==> agg[k] == AddrsOf(rows, k) && agg[k] != [])
    && (forall k :: k !in agg ==> AddrsOf(rows, k) == [])
  }

  lemma {:induction false} AddrsConcat(a: seq<Row>, b: seq<Row>, key: Key)
    ensures AddrsOf(a + b, key) == AddrsOf(a, key) + AddrsOf(b, key)
  {
    if a == [] {
      assert a + b == b;
    } else {
      assert (a + b)[1..] == a[1..] + b;
      AddrsConcat(a[1..], b, key);
    }
  }

  lemma GroupsSnoc(rows: seq<Row>, agg: map<Key, seq<string>>, row: Row)
    requires Groups(rows, agg)
    ensures var k := (row.pid, row.port);
      Groups(rows + [row], agg[k := (if k in agg then agg[k] else []) + [row.addr]])
  {
    forall k ensures AddrsOf(rows + [row], k) == AddrsOf(rows, k) + if (row.pid, row.port) == k then [row.addr] else [] {
      AddrsConcat(rows, [row], k);
    }
  }

  /** One turn of the scan: the line moves the cursor or adds an address. */
  method TakeLine(c: Config, raw: string, curPid: int, curProto: string, agg: map<Key, seq<string>>, ghost rows: seq<Row>)
    returns (nextPid: int, nextProto: string, next: map<Key, seq<string>>)
    requires Groups(rows, agg)
    ensures Cursor(nextPid, nextProto) == Move(Cursor(curPid, curProto), raw)
    ensures Groups(rows + Emit(c, Cursor(curPid, curProto), raw), next)
  {
    nextPid, nextProto, next := curPid, curProto, agg;
    assert rows + [] == rows;
    var line := TrimCR(raw);
    if line == "" {
      return;
    }
    var body := line[1..];
    if line[0] == 'p' {
      var pid := Atoi(body);
      if pid.None? {
        nextPid := 0;
        return;
      }
      nextPid := pid.value;
      nextProto := "";
    } else if line[0] == 'P' {
      nextProto := body;
    } else if line[0] == 'n' {
      if curPid == 0 || curPid == c.exclude {
        return;
      }
      if !IsTcp(curProto) {
        return;
      }
      var hp := SplitHostPort(body);
      if hp.None? {
        return;
      }
      var port := hp.value.port;
      if port < c.portMin || port > c.portMax {
        return;
      }
      var k := (curPid, port);
      var addr := JoinHostPort(hp.value.host, Itoa(port));
      GroupsSnoc(rows, agg, Row(curPid, port, addr));
      next := agg[k := (if k in agg then agg[k] else []) + [addr]];
    }
  }

  method Aggregate(data: string, c: Config) returns (agg: map<Key, seq<string>>)
    ensures Groups(Rows(c, START, Split(data, '\n')), agg)
  {
    var lines := Split(data, '\n');
    var curPid, curProto := 0, "";
    agg := map[];
    ghost var rows := [];
    assert lines[0..] == lines;
    for i := 0 to |lines|
      invariant rows + Rows(c, Cursor(curPid, curProto), lines[i..]) == Rows(c, START, lines)
      invariant Groups(rows, agg)
    {
      ghost var cur := Cursor(curPid, curProto);
      RowsAt(c, cur, lines, i, rows);
      curPid, curProto, agg := TakeLine(c, lines[i], curPid, curProto, agg, rows);
      rows := rows + Emit(c, cur, lines[i]);
    }
    assert lines[|lines|..] == [] && rows + [] == rows;
  }

  lemma RowsAt(c: Config, cur: Cursor, lines: seq<string>, i: nat, rows: seq<Row>)
    requires i < |lines|
    ensures rows + Rows(c, cur, lines[i..]) == rows + Emit(c, cur, lines[i]) + Rows(c, Move(cur, lines[i]), lines[i + 1..])
  {
    assert lines[i..][0] == lines[i] && lines[i..][1..] == lines[i + 1..];
  }

  /** The records built so far describe the keys already walked, once each. */
  ghost predicate Walked(rows: seq<Row>, out: seq<Listener>, agg: map<Key, seq<string>>, rest: set<Key>) {
    && OneEach(out) && rest <= agg.Keys
    && (forall i :: 0 <= i < |out| ==> Describes(rows, out[i]) && (out[i].pid, out[i].port) !in rest)
    && (forall k :: k in agg && k !in rest ==> Listed(out, k))
  }

  /** Walks the aggregate in any order, then sorts. */
  method ParseLsofF(data: string, c: Config) returns (out: seq<Listener>)
    ensures IsListing(Rows(c, START, Split(data, '\n')), out)
  {
    var agg := Aggregate(data, c);
    ghost var rows := Rows(c, START, Split(data, '\n'));
    out := [];
    var rest := agg.Keys;
    while rest != {}
      invariant Walked(rows, out, agg, rest)
      decreases |rest|
    {
      var k :| k in rest;
      var l := Listener(k.0, k.1, Sort(StringLe, agg[k]));
      WalkOne(rows, out, agg, rest, k);
      out := out + [l];
      rest := rest - {k};
    }
    EveryRowListed(rows, out, agg);
    out := SortListing(rows, out);
  }

  lemma WalkOne(rows: seq<Row>, out: seq<Listener>, agg: map<Key, seq<string>>, rest: set<Key>, k: Key)
    requires Groups(rows, agg) && Walked(rows, out, agg, rest) && k in rest
    ensures Walked(rows, out + [Listener(k.0, k.1, Sort(StringLe, agg[k]))], agg, rest - {k})
  {
    var l := Listener(k.0, k.1, Sort(StringLe, agg[k]));
    assert Describes(rows, l) by {
      StringOrder();
      SortSorts(StringLe, agg[k]);
      assert |multiset(l.addrs)| == |multiset(agg[k])|;
    }
    ListedSnoc(out, l);
  }

  lemma EveryRowListed(rows: seq<Row>, out: seq<Listener>, agg: map<Key, seq<string>>)
    requires Groups(rows, agg) && Walked(rows, out, agg, {})
    ensures forall i :: 0 <= i < |rows| ==> Listed(out, (rows[i].pid, rows[i].port))
  {
    forall i | 0 <= i < |rows| ensures Listed(out, (rows[i].pid, rows[i].port)) {
      RowAddressed(rows, i);
      assert (rows[i].pid, rows[i].port) in agg;
    }
  }

  ghost predicate OneEach(s: seq<Listener>) {
    forall i, j :: 0 <= i < j < |s| ==> (s[i].pid, s[i].port) != (s[j].pid, s[j].port)
  }

  lemma ListedSnoc(out: seq<Listener>, l: Listener)
    ensures forall k :: Listed(out, k) ==> Listed(out + [l], k)
    ensures Listed(out + [l], (l.pid, l.port))
  {
    var out' := out + [l];
    assert out'[|out|] == l;
    forall k | Listed(out, k) ensures Listed(out', k) {
      var i :| 0 <= i < |out| && (out[i].pid, out[i].port) == k;
      assert out'[i] == out[i];
    }
  }

  lemma {:induction false} RowAddressed(rows: seq<Row>, i: nat)
    requires i < |rows|
    ensures AddrsOf(rows, (rows[i].pid, rows[i].port)) != []
  {
    if i > 0 {
      RowAddressed(rows[1..], i - 1);
    }
  }

  method SortListing(ghost rows: seq<Row>, list: seq<Listener>) returns (out: seq<Listener>)
    requires OneEach(list)
    requires forall i :: 0 <= i < |list| ==> Describes(rows, list[i])
    requires forall i :: 0 <= i < |rows| ==> Listed(list, (rows[i].pid, rows[i].port))
    ensures IsListing(rows, out)
  {
    out := Sort(ListenerLe, list);
    SortSorts(ListenerLe, list);
    OneEachPermuted(list, out);
    forall i | 0 <= i < |out| ensures Describes(rows, out[i]) {
      assert out[i] in multiset(list);
    }
    forall i | 0 <= i < |rows| ensures Listed(out, (rows[i].pid, rows[i].port)) {
      var k :| 0 <= k < |list| && (list[k].pid, list[k].port) == (rows[i].pid, rows[i].port);
      assert list[k] in multiset(out);
    }
  }

  lemma {:induction false} TwoCopies<T>(s: seq<T>, x: T)
    ensures multiset(s)[x] >= 2 <==> exists i, j :: 0 <= i < j < |s| && s[i] == x && s[j] == x
  {
    if s != [] {
      var t := s[1..];
      assert s == [s[0]] + t;
      TwoCopies(t, x);
      if i, j :| 0 <= i < j < |t| && t[i] == x && t[j] == x {
        assert s[i + 1] == x && s[j + 1] == x;
      }
      if s[0] == x && x in t {
        var j :| 0 <= j < |t| && t[j] == x;
        assert s[j + 1] == x;
      }
      if i, j :| 0 <= i < j < |s| && s[i] == x && s[j] == x {
        assert t[j - 1] == x;
        if i > 0 {
          assert t[i - 1] == x;
        }
      }
    }
  }

  lemma OneEachPermuted(s: seq<Listener>, t: seq<Listener>)
    requires OneEach(s) && multiset(s) == multiset(t)
    ensures OneEach(t)
  {
    forall i, j | 0 <= i < j < |t| ensures (t[i].pid, t[i].port) != (t[j].pid, t[j].port) {
      TwoCopies(s, t[i]);
      TwoCopies(t, t[i]);
      assert t[i] in multiset(s) && t[j] in multiset(s);
      assert t[i] in s && t[j] in s;
    }
  }

  // ---------- One answer, whatever the order ----------

  /** An address is listed for a key as often as the rows name it. */
  lemma {:induction false} AddrsCount(rows: seq<Row>, key: Key, addr: string)
    ensures multiset(AddrsOf(rows, key))[addr] == multiset(rows)[Row(key.0, key.1, addr)]
  {
    if rows != [] {
      assert rows == [rows[0]] + rows[1..];
      AddrsCount(rows[1..], key, addr);
    }
  }

  lemma SameAddrs(rows: seq<Row>, rows': seq<Row>, key: Key)
    requires multiset(rows) == multiset(rows')
    ensures multiset(AddrsOf(rows, key)) == multiset(AddrsOf(rows', key))
  {
    forall addr ensures multiset(AddrsOf(rows, key))[addr] == multiset(AddrsOf(rows', key))[addr] {
      AddrsCount(rows, key, addr);
      AddrsCount(rows', key, addr);
    }
  }

  lemma OtherHas(rows: seq<Row>, rows': seq<Row>, l: Listener, out': seq<Listener>)
    requires multiset(rows) == multiset(rows') && Describes(rows, l) && IsListing(rows', out')
    ensures l in out'
  {
    var key := (l.pid, l.port);
    SameAddrs(rows, rows', key);
    assert l.addrs[0] in multiset(l.addrs);
    AddrsCount(rows', key, l.addrs[0]);
    assert Row(l.pid, l.port, l.addrs[0]) in rows';
    var r :| 0 <= r < |rows'| && rows'[r] == Row(l.pid, l.port, l.addrs[0]);
    assert Listed(out', (rows'[r].pid, rows'[r].port));
    var i :| 0 <= i < |out'| && (out'[i].pid, out'[i].port) == key;
    assert Describes(rows', out'[i]);
    forall x, y | StringLe(x, y) && StringLe(y, x) ensures x == y {
      StringLeTotal(x, y);
    }
    SortedUnique(StringLe, l.addrs, out'[i].addrs);
  }

  ghost predicate Increasing(s: seq<Listener>) {
    forall i, j :: 0 <= i < j < |s| ==> ListenerLess(s[i], s[j])
  }

  lemma {:induction false} IncreasingUnique(s: seq<Listener>, t: seq<Listener>)
    requires Increasing(s) && Increasing(t)
    requires forall x :: x in s <==> x in t
    ensures s == t
  {
    if s != [] || t != [] {
      assert s != [] ==> s[0] in t;
      assert t != [] ==> t[0] in s;
      var i :| 0 <= i < |t| && t[i] == s[0];
      var j :| 0 <= j < |s| && s[j] == t[0];
      assert s[0] == t[0];
      forall x ensures x in s[1..] <==> x in t[1..] {
        if x in s[1..] {
          assert x in s && x != s[0];
        }
        if x in t[1..] {
          assert x in t && x != t[0];
        }
      }
      IncreasingUnique(s[1..], t[1..]);
    }
  }

  /** The listing is determined by the multiset of qualifying rows: neither the
      walk over the aggregate nor the order of the rows shows in it. */
  lemma ListingUnique(rows: seq<Row>, rows': seq<Row>, out: seq<Listener>, out': seq<Listener>)
    requires multiset(rows) == multiset(rows')
    requires IsListing(rows, out) && IsListing(rows', out')
    ensures out == out'
  {
    forall x ensures x in out <==> x in out' {
      if x in out {
        OtherHas(rows, rows', x, out');
      }
      if x in out' {
        OtherHas(rows', rows, x, out);
      }
    }
    IncreasingUnique(out, out');
  }

  // ---------- What is listed ----------

  lemma {:induction false} RowsQualify(c: Config, cur: Cursor, lines: seq<string>, r: Row)
    requires r in Rows(c, cur, lines)
    ensures c.portMin <= r.port <= c.portMax && r.pid != 0 && r.pid != c.exclude
    decreases |lines|
  {
    if r !in Emit(c, cur, lines[0]) {
      RowsQualify(c, Move(cur, lines[0]), lines[1..], r);
    }
  }

  /** Every listed port is in range and no listed process is the excluded one. */
  lemma ListedInRange(c: Config, data: string, out: seq<Listener>, i: nat)
    requires IsListing(Rows(c, START, Split(data, '\n')), out) && i < |out|
    ensures c.portMin <= out[i].port <= c.portMax && out[i].pid != 0 && out[i].pid != c.exclude
  {
    var l, rows := out[i], Rows(c, START, Split(data, '\n'));
    assert Describes(rows, l);
    assert l.addrs[0] in multiset(l.addrs);
    AddrsCount(rows, (l.pid, l.port), l.addrs[0]);
    RowsQualify(c, START, Split(data, '\n'), Row(l.pid, l.port, l.addrs[0]));
  }

  // ---------- Process blocks ----------

  predicate IsProcessLine(raw: string) {
    TrimCR(raw) != "" && TrimCR(raw)[0] == 'p'
  }

  function MoveAll(cur: Cursor, lines: seq<string>): Cursor
    decreases |lines|
  {
    if lines == [] then cur else MoveAll(Move(cur, lines[0]), lines[1..])
  }

  function Flatten(blocks: seq<seq<string>>): seq<string> {
    if blocks == [] then [] else blocks[0] + Flatten(blocks[1..])
  }

  lemma {:induction false} RowsConcat(c: Config, cur: Cursor, a: seq<string>, b: seq<string>)
    ensures Rows(c, cur, a + b) == Rows(c, cur, a) + Rows(c, MoveAll(cur, a), b)
    decreases |a|
  {
    if a == [] {
      assert a + b == b;
    } else {
      assert (a + b)[0] == a[0] && (a + b)[1..] == a[1..] + b;
      RowsConcat(c, Move(cur, a[0]), a[1..], b);
    }
  }

  /** Without a process the protocol in force makes no difference. */
  lemma {:induction false} ProtocolNeedsProcess(c: Config, p: string, q: string, lines: seq<string>)
    ensures Rows(c, Cursor(0, p), lines) == Rows(c, Cursor(0, q), lines)
    decreases |lines|
  {
    if lines != [] {
      var x, y := Move(Cursor(0, p), lines[0]), Move(Cursor(0, q), lines[0]);
      if x != y {
        ProtocolNeedsProcess(c, x.proto, y.proto, lines[1..]);
      }
    }
  }

  /** A block opened by a process line does not depend on what came before. */
  lemma BlockStandsAlone(c: Config, cur: Cursor, block: seq<string>)
    requires block != [] && IsProcessLine(block[0])
    ensures Rows(c, cur, block) == Rows(c, START, block)
  {
    var x, y := Move(cur, block[0]), Move(START, block[0]);
    if x != y {
      ProtocolNeedsProcess(c, x.proto, y.proto, block[1..]);
    }
  }

  lemma {:induction false} PreambleIsSilent(c: Config, proto: string, lines: seq<string>)
    requires forall i :: 0 <= i < |lines| ==> !IsProcessLine(lines[i])
    ensures Rows(c, Cursor(0, proto), lines) == [] && MoveAll(Cursor(0, proto), lines).pid == 0
    decreases |lines|
  {
    if lines != [] {
      PreambleIsSilent(c, Move(Cursor(0, proto), lines[0]).proto, lines[1..]);
    }
  }

  ghost predicate Blocks(blocks: seq<seq<string>>) {
    forall i :: 0 <= i < |blocks| ==> blocks[i] != [] && IsProcessLine(blocks[i][0])
  }

  ghost function Total(c: Config, blocks: seq<seq<string>>): multiset<Row> {
    if blocks == [] then multiset{} else multiset(Rows(c, START, blocks[0])) + Total(c, blocks[1..])
  }

  lemma {:induction false} RowsOfBlocks(c: Config, cur: Cursor, blocks: seq<seq<string>>)
    requires Blocks(blocks)
    ensures multiset(Rows(c, cur, Flatten(blocks))) == Total(c, blocks)
    decreases |blocks|
  {
    if blocks != [] {
      RowsConcat(c, cur, blocks[0], Flatten(blocks[1..]));
      BlockStandsAlone(c, cur, blocks[0]);
      RowsOfBlocks(c, MoveAll(cur, blocks[0]), blocks[1..]);
    }
  }

  lemma {:induction false} TotalWithout(c: Config, blocks: seq<seq<string>>, i: nat)
    requires i < |blocks|
    ensures Total(c, blocks) == multiset(Rows(c, START, blocks[i])) + Total(c, blocks[..i] + blocks[i + 1..])
  {
    var without := blocks[..i] + blocks[i + 1..];
    if i == 0 {
      assert without == blocks[1..];
    } else {
      TotalWithout(c, blocks[1..], i - 1);
      assert without[0] == blocks[0] && without[1..] == blocks[1..][..i - 1] + blocks[1..][i..];
    }
  }

  lemma {:induction false} TotalPermuted(c: Config, a: seq<seq<string>>, b: seq<seq<string>>)
    requires multiset(a) == multiset(b)
    ensures Total(c, a) == Total(c, b)
    decreases |a|
  {
    if a == [] {
      assert |multiset(b)| == 0;
    } else {
      assert a[0] in multiset(b);
      var i :| 0 <= i < |b| && b[i] == a[0];
      TotalWithout(c, b, i);
      TailMultiset(a);
      MultisetWithout(b, i);
      TotalPermuted(c, a[1..], b[..i] + b[i + 1..]);
    }
  }

  predicate IsNodeLine(raw: string) {
    TrimCR(raw) != "" && TrimCR(raw)[0] == 'n'
  }

  /** Without node lines there is nothing to list. */
  lemma {:induction false} NoNodesNoRows(c: Config, cur: Cursor, lines: seq<string>)
    requires forall i :: 0 <= i < |lines| ==> !IsNodeLine(lines[i])
    ensures Rows(c, cur, lines) == []
    decreases |lines|
  {
    if lines != [] {
      NoNodesNoRows(c, Move(cur, lines[0]), lines[1..]);
    }
  }

  /** A text as process blocks between lines that open no block and lines that name
      no node, as the empty piece after the last newline does. */
  ghost predicate InBlocks(lines: seq<string>, pre: seq<string>, blocks: seq<seq<string>>, post: seq<string>) {
    && lines == pre + Flatten(blocks) + post
    && (forall i :: 0 <= i < |pre| ==> !IsProcessLine(pre[i]))
    && Blocks(blocks)
    && (forall i :: 0 <= i < |post| ==> !IsNodeLine(post[i]))
  }

  lemma RowsOfData(c: Config, lines: seq<string>, pre: seq<string>, blocks: seq<seq<string>>, post: seq<string>)
    requires InBlocks(lines, pre, blocks, post)
    ensures multiset(Rows(c, START, lines)) == Total(c, blocks)
  {
    var cur := MoveAll(START, pre);
    RowsConcat(c, START, pre + Flatten(blocks), post);
    NoNodesNoRows(c, MoveAll(START, pre + Flatten(blocks)), post);
    RowsConcat(c, START, pre, Flatten(blocks));
    PreambleIsSilent(c, "", pre);
    RowsOfBlocks(c, cur, blocks);
    assert [] + Rows(c, cur, Flatten(blocks)) + [] == Rows(c, cur, Flatten(blocks));
  }

  /** Rearranging whole process blocks does not change the listing. */
  lemma BlockOrderIrrelevant(c: Config, data: string, data': string, pre: seq<string>, post: seq<string>,
                             blocks: seq<seq<string>>, blocks': seq<seq<string>>,
                             out: seq<Listener>, out': seq<Listener>)
    requires InBlocks(Split(data, '\n'), pre, blocks, post) && InBlocks(Split(data', '\n'), pre, blocks', post)
    requires multiset(blocks) == multiset(blocks')
    requires IsListing(Rows(c, START, Split(data, '\n')), out)
    requires IsListing(Rows(c, START, Split(data', '\n')), out')
    ensures out == out'
  {
    RowsOfData(c, Split(data, '\n'), pre, blocks, post);
    RowsOfData(c, Split(data', '\n'), pre, blocks', post);
    TotalPermuted(c, blocks, blocks');
    ListingUnique(Rows(c, START, Split(data, '\n')), Rows(c, START, Split(data', '\n')), out, out');
  }

  /** Lines as lsof prints them, each ended by a newline. */
  function PrintLines(lines: seq<string>): string {
    if lines == [] then "" else lines[0] + "\n" + PrintLines(lines[1..])
  }

  lemma {:induction false} SplitPrinted(lines: seq<string>)
    requires SepFree(lines, '\n')
    ensures Split(PrintLines(lines), '\n') == lines + [""]
  {
    if lines != [] {
      SplitConcat(lines[0], PrintLines(lines[1..]), '\n');
      SplitWithoutSep(lines[0], '\n');
      SplitPrinted(lines[1..]);
    }
  }

  /** Printed process blocks may come in any order. */
  lemma PrintedBlocksPermute(c: Config, blocks: seq<seq<string>>, blocks': seq<seq<string>>,
                             out: seq<Listener>, out': seq<Listener>)
    requires Blocks(blocks) && Blocks(blocks') && multiset(blocks) == multiset(blocks')
    requires SepFree(Flatten(blocks), '\n') && SepFree(Flatten(blocks'), '\n')
    requires IsListing(Rows(c, START, Split(PrintLines(Flatten(blocks)), '\n')), out)
    requires IsListing(Rows(c, START, Split(PrintLines(Flatten(blocks')), '\n')), out')
    ensures out == out'
  {
    SplitPrinted(Flatten(blocks));
    SplitPrinted(Flatten(blocks'));
    assert [] + Flatten(blocks) == Flatten(blocks) && [] + Flatten(blocks') == Flatten(blocks');
    BlockOrderIrrelevant(c, PrintLines(Flatten(blocks)), PrintLines(Flatten(blocks')), [], [""], blocks, blocks', out, out');
  }
}
