/** The .env file: its line grammar, the in-place rewriting of generated secrets,
    and what line readers see afterwards. */
module EnvFile {
  import opened Sequences

  // ---------- Line grammar ----------

  /** White space as Unicode defines it. */
  predicate IsSpace(c: char) {
    var n := c as int;
    9 <= n <= 13 || n == 32 || n == 0x85 || n == 0xA0 || n == 0x1680 || 0x2000 <= n <= 0x200A
    || n == 0x2028 || n == 0x2029 || n == 0x202F || n == 0x205F || n == 0x3000
  }

  /** White space as the export pattern defines it: no vertical tab. */
  predicate IsBlank(c: char) {
    var n := c as int;
    n == 9 || n == 10 || n == 12 || n == 13 || n == 32
  }

  function TrimLeft(s: string): string {
    if s != "" && IsSpace(s[0]) then TrimLeft(s[1..]) else s
  }

  function TrimRight(s: string): string {
    if s != "" && IsSpace(s[|s| - 1]) then TrimRight(s[..|s| - 1]) else s
  }

  function TrimSpace(s: string): string {
    TrimRight(TrimLeft(s))
  }

  function SkipBlanks(s: string): string {
    if s != "" && IsBlank(s[0]) then SkipBlanks(s[1..]) else s
  }

  /** What follows a leading `export` keyword and its blanks, if there is one. */
  function StripExport(s: string): Option<string> {
    var t := SkipBlanks(s);
    if "export" <= t && |t| > 6 && IsBlank(t[6]) then Some(SkipBlanks(t[6..])) else None
  }

  datatype Assignment = Assignment(exported: bool, key: string, text: string)

  /** The assignment a line makes: not blank, not a comment, with an equals sign. */
  function Classify(line: string): Option<Assignment> {
    var trimmed := TrimSpace(line);
    if trimmed == "" || trimmed[0] == '#' then None
    else
      var stripped := StripExport(trimmed);
      var body := if stripped.Some? then stripped.value else trimmed;
      var eq := IndexOf(body, '=');
      if eq < 0 then None else Some(Assignment(stripped.Some?, TrimSpace(body[..eq]), body[eq + 1..]))
  }

  predicate Assigns(line: string, key: string) {
    Classify(line).Some? && Classify(line).value.key == key
  }

  function TextOf(line: string, key: string): Option<string> {
    if Assigns(line, key) then Some(Classify(line).value.text) else None
  }

  function PrintLine(exported: bool, key: string, value: string): string {
    if exported then "export " + key + "=" + value else key + "=" + value
  }

  // ---------- Rewriting ----------

  function RewriteLine(kv: map<string, string>, line: string): string {
    var a := Classify(line);
    if a.Some? && a.value.key in kv then PrintLine(a.value.exported, a.value.key, kv[a.value.key]) else line
  }

  function RewriteAll(kv: map<string, string>, lines: seq<string>): (r: seq<string>)
    ensures |r| == |lines| && forall i :: 0 <= i < |lines| ==> r[i] == RewriteLine(kv, lines[i])
  {
    seq(|lines|, i requires 0 <= i < |lines| => RewriteLine(kv, lines[i]))
  }

  ghost predicate Assigned(lines: seq<string>, key: string) {
    exists i :: 0 <= i < |lines| && Assigns(lines[i], key)
  }

  ghost function Absent(kv: map<string, string>, lines: seq<string>): set<string> {
    set k | k in kv && !Assigned(lines, k)
  }

  ghost function Present(kv: map<string, string>, lines: seq<string>): set<string> {
    kv.Keys - Absent(kv, lines)
  }

  ghost predicate Enumerates(order: seq<string>, keys: set<string>) {
    && (forall i, j :: 0 <= i < j < |order| ==> order[i] != order[j])
    && (forall k :: k in order <==> k in keys)
  }

  function Appended(kv: map<string, string>, order: seq<string>): (r: seq<string>)
    requires forall k :: k in order ==> k in kv
    ensures |r| == |order| && forall i :: 0 <= i < |order| ==> r[i] == PrintLine(false, order[i], kv[order[i]])
  {
    seq(|order|, i requires 0 <= i < |order| => PrintLine(false, order[i], kv[order[i]]))
  }

  function LinesOf(content: Option<string>): seq<string> {
    if content.None? then [] else Split(content.value, '\n')
  }

  function NewLines(kv: map<string, string>, content: Option<string>, order: seq<string>): seq<string>
    requires forall k :: k in order ==> k in kv
  {
    RewriteAll(kv, LinesOf(content)) + Appended(kv, order)
  }

  predicate EndsLine(s: string) {
    s != "" && s[|s| - 1] == '\n'
  }

  /** The new content, when absent keys come in the given order. */
  function Rewrite(kv: map<string, string>, content: Option<string>, order: seq<string>): string
    requires forall k :: k in order ==> k in kv
  {
    var text := Join(NewLines(kv, content, order), '\n');
    if EndsLine(text) then text else text + "\n"
  }

  /** The generated keys a line assigns: none or one. */
  function KeysSet(kv: map<string, string>, line: string): set<string> {
    var a := Classify(line);
    if a.Some? && a.value.key in kv then {a.value.key} else {}
  }

  method RewriteOne(line: string, kv: map<string, string>) returns (next: string, keys: set<string>)
    ensures next == RewriteLine(kv, line) && keys == KeysSet(kv, line)
  {
    next, keys := line, {};
    var trimmed := TrimSpace(line);
    if trimmed == "" || trimmed[0] == '#' {
      return;
    }
    var body := trimmed;
    var stripped := StripExport(body);
    if stripped.Some? {
      body := stripped.value;
    }
    var eq := IndexOf(body, '=');
    if eq < 0 {
      return;
    }
    var key := TrimSpace(body[..eq]);
    if key in kv {
      if stripped.Some? {
        next := "export " + key + "=" + kv[key];
      } else {
        next := key + "=" + kv[key];
      }
      keys := {key};
    }
  }

  method RewriteAt(lines: array<string>, i: nat, kv: map<string, string>) returns (keys: set<string>)
    requires i < lines.Length
    modifies lines
    ensures lines[i] == RewriteLine(kv, old(lines[i])) && keys == KeysSet(kv, old(lines[i]))
    ensures forall j :: 0 <= j < lines.Length && j != i ==> lines[j] == old(lines[j])
  {
    var next;
    next, keys := RewriteOne(lines[i], kv);
    lines[i] := next;
  }

  /** Lines are rewritten in place; the keys met are returned. */
  method RewriteLines(lines: array<string>, kv: map<string, string>) returns (seen: set<string>)
    modifies lines
    ensures lines[..] == RewriteAll(kv, old(lines[..]))
    ensures seen == Met(kv, old(lines[..]), lines.Length)
  {
    seen := {};
    ghost var was := lines[..];
    ghost var done := RewriteAll(kv, was);
    for i := 0 to lines.Length
      invariant forall j :: 0 <= j < i ==> lines[j] == done[j]
      invariant forall j :: i <= j < lines.Length ==> lines[j] == was[j]
      invariant seen == Met(kv, was, i)
    {
      var keys := RewriteAt(lines, i, kv);
      seen := seen + keys;
    }
  }

  ghost function Met(kv: map<string, string>, lines: seq<string>, n: nat): set<string>
    requires n <= |lines|
  {
    if n == 0 then {} else Met(kv, lines, n - 1) + KeysSet(kv, lines[n - 1])
  }

  lemma {:induction false} MetIsPresent(kv: map<string, string>, lines: seq<string>, n: nat)
    requires n <= |lines|
    ensures Met(kv, lines, n) == Present(kv, lines[..n])
  {
    if n > 0 {
      MetIsPresent(kv, lines, n - 1);
      PresentSnoc(kv, lines, n - 1);
    }
  }

  ghost predicate Any<T>(p: T -> bool, s: seq<T>) {
    exists j :: 0 <= j < |s| && p(s[j])
  }

  lemma AnySnoc<T>(p: T -> bool, s: seq<T>, i: nat)
    requires i < |s|
    ensures Any(p, s[..i + 1]) <==> Any(p, s[..i]) || p(s[i])
  {
    var a, b := s[..i], s[..i + 1];
    if j :| 0 <= j < i && p(a[j]) {
      assert p(b[j]);
    }
    if j :| 0 <= j < i + 1 && p(b[j]) {
      assert j < i ==> p(a[j]);
    }
    assert b[i] == s[i];
  }

  lemma AssignedSnoc(lines: seq<string>, i: nat, k: string)
    requires i < |lines|
    ensures Assigned(lines[..i + 1], k) <==> Assigned(lines[..i], k) || Assigns(lines[i], k)
  {
    var p := line => Assigns(line, k);
    AnySnoc(p, lines, i);
    assert forall s :: Any(p, s) <==> Assigned(s, k);
  }

  lemma PresentSnoc(kv: map<string, string>, lines: seq<string>, i: nat)
    requires i < |lines|
    ensures Present(kv, lines[..i + 1]) == Present(kv, lines[..i]) + KeysSet(kv, lines[i])
  {
    forall k ensures Assigned(lines[..i + 1], k) <==> Assigned(lines[..i], k) || Assigns(lines[i], k) {
      AssignedSnoc(lines, i, k);
    }
  }

  /** The absent keys, in whatever order the walk over the map takes. */
  method AppendAbsent(lines: seq<string>, kv: map<string, string>, seen: set<string>)
    returns (more: seq<string>, ghost order: seq<string>)
    ensures Enumerates(order, kv.Keys - seen)
    ensures more == lines + Appended(kv, order)
  {
    more, order := lines, [];
    var rest := kv.Keys;
    while rest != {}
      invariant rest <= kv.Keys && Enumerates(order, kv.Keys - seen - rest)
      invariant more == lines + Appended(kv, order)
      decreases |rest|
    {
      var k :| k in rest;
      EnumeratesSnoc(order, kv.Keys - seen, rest, k);
      rest := rest - {k};
      if k !in seen {
        AppendedSnoc(kv, order, k);
        more := more + [k + "=" + kv[k]];
        order := order + [k];
      }
    }
  }

  /** `out` is the rewritten content, with the absent keys in some order. */
  ghost predicate RewritesTo(kv: map<string, string>, content: Option<string>, out: string) {
    exists order :: Enumerates(order, Absent(kv, LinesOf(content))) && out == Rewrite(kv, content, order)
  }

  /** Rewrites what is there and appends what is not. */
  method PersistGenerated(content: Option<string>, kv: map<string, string>) returns (out: string)
    ensures RewritesTo(kv, content, out)
  {
    var parts := LinesOf(content);
    var buffer := new string[|parts|](i requires 0 <= i < |parts| => parts[i]);
    assert buffer[..] == parts;
    var seen := RewriteLines(buffer, kv);
    AllMet(kv, parts);
    var lines;
    ghost var order;
    lines, order := AppendAbsent(buffer[..], kv, seen);
    out := Join(lines, '\n');
    if !EndsLine(out) {
      out := out + "\n";
    }
    assert out == Rewrite(kv, content, order);
  }

  lemma AllMet(kv: map<string, string>, lines: seq<string>)
    ensures kv.Keys - Met(kv, lines, |lines|) == Absent(kv, lines)
  {
    MetIsPresent(kv, lines, |lines|);
    assert lines[..|lines|] == lines;
  }

  lemma AppendedSnoc(kv: map<string, string>, order: seq<string>, k: string)
    requires k in kv && forall x :: x in order ==> x in kv
    ensures forall x :: x in order + [k] ==> x in kv
    ensures Appended(kv, order + [k]) == Appended(kv, order) + [k + "=" + kv[k]]
  {
    assert PrintLine(false, k, kv[k]) == k + "=" + kv[k];
  }

  lemma EnumeratesSnoc(order: seq<string>, absent: set<string>, rest: set<string>, k: string)
    requires Enumerates(order, absent - rest) && k in rest
    ensures if k in absent then Enumerates(order + [k], absent - (rest - {k})) else Enumerates(order, absent - (rest - {k}))
  {
  }

  // ---------- Lines written are read back ----------

  predicate Spaceless(s: string) {
    forall i :: 0 <= i < |s| ==> !IsSpace(s[i])
  }

  predicate PlainKey(k: string) {
    k != "" && Spaceless(k) && '=' !in k && k[0] != '#'
  }

  /** Keys and values that survive printing, as the generated ones do. */
  ghost predicate Plain(kv: map<string, string>) {
    forall k :: k in kv ==> PlainKey(k) && Spaceless(kv[k])
  }

  lemma TrimNothing(s: string)
    requires s == "" || (!IsSpace(s[0]) && !IsSpace(s[|s| - 1]))
    ensures TrimSpace(s) == s
  {
  }

  lemma BodyParses(key: string, value: string)
    requires PlainKey(key) && Spaceless(value)
    ensures var body := key + "=" + value;
      && IndexOf(body, '=') == |key| && TrimSpace(body[..|key|]) == key && body[|key| + 1..] == value
      && body[0] == key[0] && !IsSpace(body[|body| - 1]) && Spaceless(body)
  {
    var body := key + "=" + value;
    assert body[..|key|] == key && body[|key| + 1..] == value;
    IndexIs(body, '=', |key|);
    TrimNothing(key);
  }

  lemma NoExport(body: string)
    requires Spaceless(body)
    ensures StripExport(body) == None
  {
    assert SkipBlanks(body) == body;
  }

  lemma ExportStrips(body: string)
    requires body != "" && !IsBlank(body[0])
    ensures StripExport("export " + body) == Some(body)
  {
    var s := "export " + body;
    assert s[0] == 'e' && s[6] == ' ' && s[..6] == "export" && s[6..] == " " + body;
    assert SkipBlanks(s) == s;
    assert s[6..][1..] == body;
    assert SkipBlanks(" " + body) == SkipBlanks(body) == body;
  }

  /** A printed line reads back as the assignment it prints. */
  lemma ClassifyPrinted(exported: bool, key: string, value: string)
    requires PlainKey(key) && Spaceless(value)
    ensures Classify(PrintLine(exported, key, value)) == Some(Assignment(exported, key, value))
    ensures '\n' !in PrintLine(exported, key, value)
  {
    if exported {
      ClassifyExported(key, value);
    } else {
      ClassifyPlain(key, value);
    }
  }

  lemma ClassifyPlain(key: string, value: string)
    requires PlainKey(key) && Spaceless(value)
    ensures Classify(PrintLine(false, key, value)) == Some(Assignment(false, key, value))
    ensures '\n' !in PrintLine(false, key, value)
  {
    var body := key + "=" + value;
    assert PrintLine(false, key, value) == body;
    BodyParses(key, value);
    NoExport(body);
    TrimNothing(body);
  }

  lemma ExportLine(body: string)
    requires body != "" && !IsSpace(body[|body| - 1]) && '\n' !in body
    ensures TrimSpace("export " + body) == "export " + body
    ensures '\n' !in "export " + body && ("export " + body)[0] == 'e'
  {
    var line := "export " + body;
    assert line[0] == 'e' && line[|line| - 1] == body[|body| - 1];
    TrimNothing(line);
  }

  lemma ClassifyExported(key: string, value: string)
    requires PlainKey(key) && Spaceless(value)
    ensures Classify(PrintLine(true, key, value)) == Some(Assignment(true, key, value))
    ensures '\n' !in PrintLine(true, key, value)
  {
    var body := key + "=" + value;
    BodyParses(key, value);
    assert PrintLine(true, key, value) == "export " + body by {
      assert "export " + key + "=" + value == "export " + (key + "=" + value);
    }
    ExportLine(body);
    ExportStrips(body);
  }

  lemma RewriteLineSettles(kv: map<string, string>, line: string)
    requires Plain(kv)
    ensures RewriteLine(kv, RewriteLine(kv, line)) == RewriteLine(kv, line)
    ensures '\n' !in line ==> '\n' !in RewriteLine(kv, line)
    ensures forall k :: Assigns(RewriteLine(kv, line), k) <==> Assigns(line, k)
    ensures forall k :: k in kv && Assigns(line, k) ==> TextOf(RewriteLine(kv, line), k) == Some(kv[k])
  {
    var a := Classify(line);
    if a.Some? && a.value.key in kv {
      ClassifyPrinted(a.value.exported, a.value.key, kv[a.value.key]);
    }
  }

  // ---------- The rewritten file ----------

  lemma RewrittenAreLines(kv: map<string, string>, lines: seq<string>)
    requires Plain(kv) && SepFree(lines, '\n')
    ensures SepFree(RewriteAll(kv, lines), '\n')
  {
    forall i | 0 <= i < |lines| ensures '\n' !in RewriteLine(kv, lines[i]) {
      RewriteLineSettles(kv, lines[i]);
    }
  }

  lemma AppendedAreLines(kv: map<string, string>, order: seq<string>)
    requires Plain(kv) && forall k :: k in order ==> k in kv
    ensures SepFree(Appended(kv, order), '\n')
  {
    forall i | 0 <= i < |order| ensures '\n' !in PrintLine(false, order[i], kv[order[i]]) {
      assert order[i] in order;
      ClassifyPrinted(false, order[i], kv[order[i]]);
    }
  }

  lemma NewLinesAreLines(kv: map<string, string>, content: Option<string>, order: seq<string>)
    requires Plain(kv) && forall k :: k in order ==> k in kv
    ensures SepFree(NewLines(kv, content, order), '\n')
  {
    RewrittenAreLines(kv, LinesOf(content));
    AppendedAreLines(kv, order);
  }

  /** The new content splits into the new lines, and an empty one when a newline was added. */
  lemma RewriteSplits(kv: map<string, string>, content: Option<string>, order: seq<string>)
    requires Plain(kv) && kv != map[] && Enumerates(order, Absent(kv, LinesOf(content)))
    ensures var lines, read := NewLines(kv, content, order), Split(Rewrite(kv, content, order), '\n');
      read == lines || read == lines + [""]
    ensures EndsLine(Rewrite(kv, content, order))
  {
    var lines := NewLines(kv, content, order);
    assert lines != [] by {
      var k :| k in kv;
      if k in Absent(kv, LinesOf(content)) {
        assert k in order;
      }
    }
    NewLinesAreLines(kv, content, order);
    SplitJoin(lines, '\n');
    var text := Join(lines, '\n');
    SplitConcat(text, "", '\n');
    assert text + ['\n'] + "" == text + "\n";
  }

  lemma AssignedTail(lines: seq<string>, key: string)
    requires lines != []
    ensures Assigned(lines, key) <==> Assigns(lines[0], key) || Assigned(lines[1..], key)
  {
    if Assigned(lines[1..], key) {
      var i :| 0 <= i < |lines[1..]| && Assigns(lines[1..][i], key);
      assert Assigns(lines[i + 1], key);
    }
    if Assigned(lines, key) && !Assigns(lines[0], key) {
      var i :| 0 <= i < |lines| && Assigns(lines[i], key);
      assert Assigns(lines[1..][i - 1], key);
    }
  }

  function Assigning(key: string): string -> bool {
    line => Assigns(line, key)
  }

  /** How many lines assign the key. */
  function CountOf(lines: seq<string>, key: string): nat {
    Count(Assigning(key), lines)
  }

  lemma {:induction false} CountRewritten(kv: map<string, string>, lines: seq<string>, key: string)
    requires Plain(kv)
    ensures CountOf(RewriteAll(kv, lines), key) == CountOf(lines, key)
  {
    if lines != [] {
      RewriteLineSettles(kv, lines[0]);
      assert RewriteAll(kv, lines)[1..] == RewriteAll(kv, lines[1..]);
      CountRewritten(kv, lines[1..], key);
    }
  }

  lemma CountCons(line: string, rest: seq<string>, key: string)
    ensures CountOf([line] + rest, key) == (if Assigns(line, key) then 1 else 0) + CountOf(rest, key)
  {
    assert ([line] + rest)[1..] == rest;
  }

  lemma AppendedCons(kv: map<string, string>, order: seq<string>)
    requires order != [] && forall k :: k in order ==> k in kv
    ensures order[0] in kv && forall k :: k in order[1..] ==> k in kv
    ensures Appended(kv, order) == [PrintLine(false, order[0], kv[order[0]])] + Appended(kv, order[1..])
  {
    assert order[0] in order && forall k :: k in order[1..] ==> k in order;
  }

  lemma {:induction false} CountAppended(kv: map<string, string>, order: seq<string>, key: string)
    requires Plain(kv) && forall k :: k in order ==> k in kv
    requires forall i, j :: 0 <= i < j < |order| ==> order[i] != order[j]
    ensures CountOf(Appended(kv, order), key) == if key in order then 1 else 0
  {
    if order != [] {
      AppendedCons(kv, order);
      var line := PrintLine(false, order[0], kv[order[0]]);
      assert Assigns(line, key) <==> order[0] == key by {
        ClassifyPrinted(false, order[0], kv[order[0]]);
      }
      CountCons(line, Appended(kv, order[1..]), key);
      CountAppended(kv, order[1..], key);
    }
  }

  lemma {:induction false} CountOfZero(lines: seq<string>, key: string)
    ensures CountOf(lines, key) == 0 <==> !Assigned(lines, key)
  {
    if lines != [] {
      AssignedTail(lines, key);
      CountOfZero(lines[1..], key);
    }
  }

  /** What became of line `i`: rewritten, appended, or the end of the last one. */
  lemma LineAt(kv: map<string, string>, content: Option<string>, order: seq<string>, i: nat)
    requires Plain(kv) && kv != map[] && Enumerates(order, Absent(kv, LinesOf(content)))
    requires i < |Split(Rewrite(kv, content, order), '\n')|
    ensures var was, line := LinesOf(content), Split(Rewrite(kv, content, order), '\n')[i];
      && RewriteLine(kv, line) == line
      && (forall k :: k in kv && Assigns(line, k) ==> TextOf(line, k) == Some(kv[k]))
      && (i < |was| ==> line == RewriteLine(kv, was[i]) && forall k :: Assigns(line, k) <==> Assigns(was[i], k))
      && (i >= |was| ==> forall k :: Assigns(line, k) ==> k in kv)
      && (i >= |was| && line != "" ==> exists k :: k in kv && Assigns(line, k))
  {
    var was := LinesOf(content);
    RewriteSplits(kv, content, order);
    if i < |was| {
      RewriteLineSettles(kv, was[i]);
    } else if i < |was| + |order| {
      var k := order[i - |was|];
      assert k in order;
      ClassifyPrinted(false, k, kv[k]);
      assert Assigns(PrintLine(false, k, kv[k]), k);
    }
  }

  /** Lines that assign no generated key keep their bytes and their positions, and
      every line that is new assigns a generated key or is empty. */
  lemma OtherLinesKept(kv: map<string, string>, content: Option<string>, order: seq<string>, i: nat)
    requires Plain(kv) && kv != map[] && Enumerates(order, Absent(kv, LinesOf(content)))
    ensures var was, read := LinesOf(content), Split(Rewrite(kv, content, order), '\n');
      && |was| <= |read|
      && (i < |was| && (forall k :: k in kv ==> !Assigns(was[i], k)) ==> read[i] == was[i])
      && (i < |read| && (i >= |was| || read[i] != was[i]) && read[i] != "" ==>
          exists k :: k in kv && Assigns(read[i], k))
  {
    var was, read := LinesOf(content), Split(Rewrite(kv, content, order), '\n');
    RewriteSplits(kv, content, order);
    if i < |read| {
      LineAt(kv, content, order, i);
      if i < |was| && read[i] != was[i] {
        assert Assigns(was[i], Classify(was[i]).value.key);
      }
    }
  }

  /** Every line that assigns a generated key holds its value; an absent key got
      exactly one line and a present one no new line. */
  lemma GeneratedKeysWritten(kv: map<string, string>, content: Option<string>, order: seq<string>, key: string)
    requires Plain(kv) && key in kv && Enumerates(order, Absent(kv, LinesOf(content)))
    ensures var was, read := LinesOf(content), Split(Rewrite(kv, content, order), '\n');
      && CountOf(read, key) == (if CountOf(was, key) == 0 then 1 else CountOf(was, key))
      && Uniform(read, key, kv[key])
  {
    var was, read := LinesOf(content), Split(Rewrite(kv, content, order), '\n');
    RewriteSplits(kv, content, order);
    CountOfZero(was, key);
    CountRewritten(kv, was, key);
    CountAppended(kv, order, key);
    CountConcat(Assigning(key), RewriteAll(kv, was), Appended(kv, order));
    CountConcat(Assigning(key), NewLines(kv, content, order), [""]);
    assert CountOf([""], key) == 0;
    forall i | 0 <= i < |read| && Assigns(read[i], key) ensures TextOf(read[i], key) == Some(kv[key]) {
      LineAt(kv, content, order, i);
    }
  }

  ghost predicate Uniform(lines: seq<string>, key: string, text: string) {
    forall i :: 0 <= i < |lines| && Assigns(lines[i], key) ==> TextOf(lines[i], key) == Some(text)
  }

  lemma NothingAbsent(kv: map<string, string>, content: Option<string>, order: seq<string>)
    requires Plain(kv) && Enumerates(order, Absent(kv, LinesOf(content)))
    ensures Absent(kv, LinesOf(Some(Rewrite(kv, content, order)))) == {}
  {
    var read := Split(Rewrite(kv, content, order), '\n');
    forall k | k in kv ensures Assigned(read, k) {
      GeneratedKeysWritten(kv, content, order, k);
      CountOfZero(read, k);
    }
  }

  lemma AllSettled(kv: map<string, string>, lines: seq<string>)
    requires forall i :: 0 <= i < |lines| ==> RewriteLine(kv, lines[i]) == lines[i]
    ensures RewriteAll(kv, lines) + Appended(kv, []) == lines
  {
  }

  /** Rewriting what was rewritten changes nothing. */
  lemma RewriteSettles(kv: map<string, string>, content: Option<string>, order: seq<string>)
    requires Plain(kv) && kv != map[] && Enumerates(order, Absent(kv, LinesOf(content)))
    ensures var text := Rewrite(kv, content, order);
      Absent(kv, LinesOf(Some(text))) == {} && Rewrite(kv, Some(text), []) == text
  {
    var text := Rewrite(kv, content, order);
    var read := Split(text, '\n');
    NothingAbsent(kv, content, order);
    forall i | 0 <= i < |read| ensures RewriteLine(kv, read[i]) == read[i] {
      LineAt(kv, content, order, i);
    }
    AllSettled(kv, read);
    JoinSplit(text, '\n');
    RewriteSplits(kv, content, order);
  }

  // ---------- Blank lines before appended keys ----------

  lemma {:induction false} LastPiece(s: string)
    ensures var parts := Split(s, '\n'); parts[|parts| - 1] == "" <==> s == "" || EndsLine(s)
  {
    if s != "" {
      LastPiece(s[1..]);
    }
  }

  lemma RewritesToNothing(kv: map<string, string>, line: string)
    ensures RewriteLine(kv, line) == "" <==> line == ""
  {
  }

  /** The first key appended stands right after the last line there was. That line is
      a blank one exactly when the file existed and was empty or ended in a newline. */
  lemma BlankLineBefore(kv: map<string, string>, content: Option<string>, order: seq<string>)
    requires Plain(kv) && kv != map[] && Enumerates(order, Absent(kv, LinesOf(content))) && order != []
    ensures var was, read := LinesOf(content), Split(Rewrite(kv, content, order), '\n');
      && |was| < |read| && order[0] in kv && read[|was|] == PrintLine(false, order[0], kv[order[0]])
      && ((|was| > 0 && read[|was| - 1] == "") <==> content.Some? && (content.value == "" || EndsLine(content.value)))
  {
    var was := LinesOf(content);
    assert order[0] in order;
    RewriteSplits(kv, content, order);
    if content.Some? {
      LastPiece(content.value);
      RewritesToNothing(kv, was[|was| - 1]);
    }
  }

  lemma JoinThree(a: string, b: string, c: string)
    ensures Join([a, b, c], '\n') == a + "\n" + b + "\n" + c
  {
    assert [a, b, c][1..] == [b, c] && [b, c][1..] == [c];
    assert Join([b, c], '\n') == b + "\n" + c;
  }

  lemma SplitLine(line: string)
    requires '\n' !in line
    ensures Split(line + "\n", '\n') == [line, ""]
  {
    SplitConcat(line, "", '\n');
    SplitWithoutSep(line, '\n');
    assert line + ['\n'] + "" == line + "\n";
  }

  /** One line about something else, ended by a newline as usual, and an absent key:
      the result has a blank line between the two. */
  lemma BlankLineAppears(line: string, key: string, value: string)
    requires '\n' !in line && !Assigns(line, key) && PlainKey(key) && Spaceless(value)
    ensures Rewrite(map[key := value], Some(line + "\n"), [key]) ==
      line + "\n" + "" + "\n" + PrintLine(false, key, value) + "\n"
  {
    var kv, p := map[key := value], PrintLine(false, key, value);
    SplitLine(line);
    ClassifyPrinted(false, key, value);
    assert RewriteAll(kv, [line, ""]) == [line, ""];
    assert Appended(kv, [key]) == [p];
    assert [line, ""] + [p] == [line, "", p];
    JoinThree(line, "", p);
    var text := line + "\n" + "" + "\n" + p;
    assert text[|text| - 1] == p[|p| - 1] && p[|p| - 1] in p;
  }

  // ---------- Readers ----------

  /** What a first-wins and a last-wins reader get from lines that each say something
      or nothing, as `f` tells. */
  function FirstSaid(f: string -> Option<string>, lines: seq<string>): Option<string> {
    if lines == [] then None
    else if f(lines[0]).Some? then f(lines[0])
    else FirstSaid(f, lines[1..])
  }

  function LastSaid(f: string -> Option<string>, lines: seq<string>): Option<string> {
    if lines == [] then None
    else
      var later := LastSaid(f, lines[1..]);
      if later.Some? then later else f(lines[0])
  }

  /** What a line says about a key. */
  function About(key: string): string -> Option<string> {
    line => TextOf(line, key)
  }

  function FirstText(lines: seq<string>, key: string): Option<string> {
    FirstSaid(About(key), lines)
  }

  function LastText(lines: seq<string>, key: string): Option<string> {
    LastSaid(About(key), lines)
  }

  lemma {:induction false} NothingSaid(f: string -> Option<string>, lines: seq<string>)
    requires forall i :: 0 <= i < |lines| ==> f(lines[i]).None?
    ensures FirstSaid(f, lines) == LastSaid(f, lines) == None
  {
    if lines != [] {
      NothingSaid(f, lines[1..]);
    }
  }

  lemma {:induction false} OneThingSaid(f: string -> Option<string>, lines: seq<string>, text: string, i: nat)
    requires forall j :: 0 <= j < |lines| && f(lines[j]).Some? ==> f(lines[j]) == Some(text)
    requires i < |lines| && f(lines[i]).Some?
    ensures FirstSaid(f, lines) == LastSaid(f, lines) == Some(text)
  {
    var rest := lines[1..];
    assert forall j :: 0 <= j < |rest| ==> rest[j] == lines[j + 1];
    if k :| 0 <= k < |rest| && f(rest[k]).Some? {
      OneThingSaid(f, rest, text, k);
    } else {
      NothingSaid(f, rest);
      assert i == 0;
    }
  }

  /** Lines that say the same, one by one, read the same. */
  lemma {:induction false} SameSaid(f: string -> Option<string>, a: seq<string>, b: seq<string>)
    requires |a| == |b| && forall i :: 0 <= i < |a| ==> f(a[i]) == f(b[i])
    ensures FirstSaid(f, a) == FirstSaid(f, b) && LastSaid(f, a) == LastSaid(f, b)
  {
    if a != [] {
      assert f(a[0]) == f(b[0]);
      SameSaid(f, a[1..], b[1..]);
    }
  }

  lemma {:induction false} SilentTail(f: string -> Option<string>, lines: seq<string>, tail: seq<string>)
    requires forall i :: 0 <= i < |tail| ==> f(tail[i]).None?
    ensures FirstSaid(f, lines + tail) == FirstSaid(f, lines)
    ensures LastSaid(f, lines + tail) == LastSaid(f, lines)
  {
    if lines == [] {
      assert lines + tail == tail;
      NothingSaid(f, tail);
    } else {
      assert (lines + tail)[0] == lines[0] && (lines + tail)[1..] == lines[1..] + tail;
      SilentTail(f, lines[1..], tail);
    }
  }

  /** First-wins and last-wins readers both see the generated value. */
  lemma BothReadersSee(kv: map<string, string>, content: Option<string>, order: seq<string>, key: string)
    requires Plain(kv) && key in kv && Enumerates(order, Absent(kv, LinesOf(content)))
    ensures var read := Split(Rewrite(kv, content, order), '\n');
      FirstText(read, key) == LastText(read, key) == Some(kv[key])
  {
    var read := Split(Rewrite(kv, content, order), '\n');
    GeneratedKeysWritten(kv, content, order, key);
    CountOfZero(read, key);
    var i :| 0 <= i < |read| && Assigns(read[i], key);
    OneThingSaid(About(key), read, kv[key], i);
  }

  lemma TailIsSilent(kv: map<string, string>, content: Option<string>, order: seq<string>, key: string) returns (tail: seq<string>)
    requires Plain(kv) && kv != map[] && key !in kv && Enumerates(order, Absent(kv, LinesOf(content)))
    ensures Split(Rewrite(kv, content, order), '\n') == RewriteAll(kv, LinesOf(content)) + tail
    ensures !Assigned(tail, key)
  {
    var lines, read := NewLines(kv, content, order), Split(Rewrite(kv, content, order), '\n');
    RewriteSplits(kv, content, order);
    tail := if read == lines then Appended(kv, order) else Appended(kv, order) + [""];
    forall i | 0 <= i < |tail| ensures !Assigns(tail[i], key) {
      if i < |order| {
        assert order[i] in order;
        ClassifyPrinted(false, order[i], kv[order[i]]);
      }
    }
  }

  lemma RewrittenReadsSame(kv: map<string, string>, lines: seq<string>, key: string)
    requires Plain(kv) && key !in kv
    ensures FirstText(RewriteAll(kv, lines), key) == FirstText(lines, key)
    ensures LastText(RewriteAll(kv, lines), key) == LastText(lines, key)
  {
    forall i | 0 <= i < |lines| ensures TextOf(RewriteLine(kv, lines[i]), key) == TextOf(lines[i], key) {
      RewriteLineSettles(kv, lines[i]);
    }
    SameSaid(About(key), RewriteAll(kv, lines), lines);
  }

  /** Readers of any other key see what they saw before. */
  lemma OtherKeysUnmoved(kv: map<string, string>, content: Option<string>, order: seq<string>, key: string)
    requires Plain(kv) && kv != map[] && key !in kv && Enumerates(order, Absent(kv, LinesOf(content)))
    ensures var was, read := LinesOf(content), Split(Rewrite(kv, content, order), '\n');
      FirstText(read, key) == FirstText(was, key) && LastText(read, key) == LastText(was, key)
  {
    var was, read := LinesOf(content), Split(Rewrite(kv, content, order), '\n');
    var tail := TailIsSilent(kv, content, order, key);
    SilentTail(About(key), RewriteAll(kv, was), tail);
    RewrittenReadsSame(kv, was, key);
  }
}
