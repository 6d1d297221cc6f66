/** The part of loading the configuration that looks secrets up, generates the
    missing ones, persists them to the .env file and announces the token. */
module ConfigLoad {
  import opened Sequences
  import opened EnvFile

  const AUTH_TOKEN := "AUTH_TOKEN"
  const SESSION_SECRET := "SESSION_SECRET"
  const GENERATED_TOKEN_BYTES := 32

  predicate Hexadecimal(s: string) {
    forall i :: 0 <= i < |s| ==> '0' <= s[i] <= '9' || 'a' <= s[i] <= 'f'
  }

  function HexDigit(n: nat): char
    requires n < 16
  {
    "0123456789abcdef"[n]
  }

  function EncodeHex(b: seq<byte>): (s: string)
    ensures |s| == 2 * |b| && Hexadecimal(s)
  {
    if b == [] then "" else [HexDigit(b[0] / 16), HexDigit(b[0] % 16)] + EncodeHex(b[1..])
  }

  type Entropy = b: seq<byte> | |b| == GENERATED_TOKEN_BYTES witness seq(GENERATED_TOKEN_BYTES, i => 0)

  /** How the environment file is read: which lines the reader accepts and how it
      turns the text after the equals sign into a value. The last line wins. */
  datatype Reader = Reader(accepts: string -> bool, value: string -> string)

  ghost predicate Faithful(r: Reader) {
    && r.accepts("")
    && (forall v :: Hexadecimal(v) ==> r.value(v) == v)
    && (forall exported, k, v :: PlainKey(k) && Hexadecimal(v) ==> r.accepts(PrintLine(exported, k, v)))
  }

  /** What the caller fixes: explicit secrets, the process environment, which other
      keys are looked up, and the validation of the outcome. */
  datatype Options = Options(
    reader: Reader, auth: string, session: string, env: map<string, string>, keys: set<string>,
    valid: Config -> bool)

  datatype Config = Config(auth: string, session: string, settings: map<string, string>)

  /** What the run meets: random bytes, or None when the source fails, and whether
      the file can be replaced. */
  datatype Fortune = Fortune(auth: Option<Entropy>, session: Option<Entropy>, saved: bool)

  /** The file and what was printed about generated tokens. */
  datatype Surroundings = Surroundings(content: Option<string>, banner: seq<string>)

  function Lookup(o: Options, lines: seq<string>, key: string): string {
    var text := LastText(lines, key);
    if text.Some? && o.reader.value(text.value) != "" then o.reader.value(text.value)
    else if key in o.env then o.env[key]
    else ""
  }

  function FirstNonEmpty(a: string, b: string): string {
    if a != "" then a else b
  }

  function Settings(o: Options, lines: seq<string>): map<string, string> {
    map k | k in o.keys && k != AUTH_TOKEN && k != SESSION_SECRET :: Lookup(o, lines, k)
  }

  /** The secrets that have to be made up, or None when randomness fails. */
  function Generated(o: Options, f: Fortune, lines: seq<string>): (kv: Option<map<string, string>>)
    ensures kv.Some? ==> forall k :: k in kv.value ==> k == AUTH_TOKEN || k == SESSION_SECRET
  {
    var noAuth := FirstNonEmpty(o.auth, Lookup(o, lines, AUTH_TOKEN)) == "";
    var noSession := FirstNonEmpty(o.session, Lookup(o, lines, SESSION_SECRET)) == "";
    if (noAuth && f.auth.None?) || (noSession && f.session.None?) then None
    else
      var first := if noAuth then map[AUTH_TOKEN := EncodeHex(f.auth.value)] else map[];
      Some(if noSession then first[SESSION_SECRET := EncodeHex(f.session.value)] else first)
  }

  function Assemble(o: Options, kv: map<string, string>, lines: seq<string>): Config {
    Config(
      if AUTH_TOKEN in kv then kv[AUTH_TOKEN] else FirstNonEmpty(o.auth, Lookup(o, lines, AUTH_TOKEN)),
      if SESSION_SECRET in kv then kv[SESSION_SECRET] else FirstNonEmpty(o.session, Lookup(o, lines, SESSION_SECRET)),
      Settings(o, lines))
  }

  ghost predicate Accepted(o: Options, lines: seq<string>) {
    forall i :: 0 <= i < |lines| ==> o.reader.accepts(lines[i])
  }

  ghost predicate OrderFits(o: Options, f: Fortune, s: Surroundings, order: seq<string>) {
    var kv := Generated(o, f, LinesOf(s.content));
    kv.Some? ==> Enumerates(order, Absent(kv.value, LinesOf(s.content)))
  }

  /** One load: what it returns, and what it leaves in the file and on the screen. */
  ghost function Loaded(o: Options, f: Fortune, order: seq<string>, s: Surroundings): (Surroundings, Option<Config>)
    requires OrderFits(o, f, s, order)
  {
    var lines := LinesOf(s.content);
    var kv := Generated(o, f, lines);
    if !Accepted(o, lines) || kv.None? || !o.valid(Assemble(o, kv.value, lines)) then (s, None)
    else if kv.value == map[] then (s, Some(Assemble(o, kv.value, lines)))
    else if !f.saved then (s, None)
    else
      (Surroundings(Some(Rewrite(kv.value, s.content, order)),
        if AUTH_TOKEN in kv.value then s.banner + [kv.value[AUTH_TOKEN]] else s.banner),
      Some(Assemble(o, kv.value, lines)))
  }

  lemma KeysArePlain()
    ensures PlainKey(AUTH_TOKEN) && PlainKey(SESSION_SECRET)
  {
  }

  lemma HexIsSpaceless(s: string)
    requires Hexadecimal(s)
    ensures Spaceless(s)
  {
  }

  lemma GeneratedArePlain(o: Options, f: Fortune, lines: seq<string>)
    requires Generated(o, f, lines).Some?
    ensures Plain(Generated(o, f, lines).value)
    ensures forall k :: k in Generated(o, f, lines).value ==>
      Hexadecimal(Generated(o, f, lines).value[k]) && |Generated(o, f, lines).value[k]| == 64
  {
    var kv := Generated(o, f, lines).value;
    KeysArePlain();
    forall k | k in kv ensures PlainKey(k) && Hexadecimal(kv[k]) && |kv[k]| == 64 && Spaceless(kv[k]) {
      if k == AUTH_TOKEN {
        assert kv[k] == EncodeHex(f.auth.value);
      } else {
        assert k == SESSION_SECRET && kv[k] == EncodeHex(f.session.value);
      }
      HexIsSpaceless(kv[k]);
    }
  }

  ghost predicate Printed(kv: map<string, string>, line: string) {
    exists exported, k :: k in kv && line == PrintLine(exported, k, kv[k])
  }

  lemma NewLineOrigin(kv: map<string, string>, content: Option<string>, order: seq<string>, i: nat)
    requires Plain(kv) && kv != map[] && Enumerates(order, Absent(kv, LinesOf(content)))
    requires i < |NewLines(kv, content, order)|
    ensures var was, line := LinesOf(content), NewLines(kv, content, order)[i];
      (i < |was| && line == was[i]) || Printed(kv, line)
  {
    var was, line := LinesOf(content), NewLines(kv, content, order)[i];
    if i < |was| {
      assert line == RewriteLine(kv, was[i]);
    } else {
      assert order[i - |was|] in order;
      assert line == PrintLine(false, order[i - |was|], kv[order[i - |was|]]);
    }
  }

  lemma LineOrigin(kv: map<string, string>, content: Option<string>, order: seq<string>, i: nat)
    requires Plain(kv) && kv != map[] && Enumerates(order, Absent(kv, LinesOf(content)))
    requires i < |Split(Rewrite(kv, content, order), '\n')|
    ensures var was, line := LinesOf(content), Split(Rewrite(kv, content, order), '\n')[i];
      (i < |was| && line == was[i]) || line == "" || Printed(kv, line)
  {
    RewriteSplits(kv, content, order);
    if i < |NewLines(kv, content, order)| {
      NewLineOrigin(kv, content, order, i);
    }
  }

  lemma StillAccepted(o: Options, kv: map<string, string>, content: Option<string>, order: seq<string>)
    requires Faithful(o.reader) && Plain(kv) && kv != map[] && Enumerates(order, Absent(kv, LinesOf(content)))
    requires forall k :: k in kv ==> Hexadecimal(kv[k])
    requires Accepted(o, LinesOf(content))
    ensures Accepted(o, LinesOf(Some(Rewrite(kv, content, order))))
  {
    var was := LinesOf(content);
    RewriteSplits(kv, content, order);
    var read := LinesOf(Some(Rewrite(kv, content, order)));
    forall i | 0 <= i < |read| ensures o.reader.accepts(read[i]) {
      if Printed(kv, read[i]) {
        var exported, k :| k in kv && read[i] == PrintLine(exported, k, kv[k]);
      } else {
        LineOrigin(kv, content, order, i);
        assert i < |was| ==> o.reader.accepts(was[i]);
      }
    }
  }

  lemma NextLookup(o: Options, kv: map<string, string>, content: Option<string>, order: seq<string>, key: string)
    requires Faithful(o.reader) && Plain(kv) && kv != map[] && Enumerates(order, Absent(kv, LinesOf(content)))
    requires forall k :: k in kv ==> Hexadecimal(kv[k]) && kv[k] != ""
    ensures Lookup(o, LinesOf(Some(Rewrite(kv, content, order))), key) ==
      if key in kv then kv[key] else Lookup(o, LinesOf(content), key)
  {
    if key in kv {
      BothReadersSee(kv, content, order, key);
    } else {
      OtherKeysUnmoved(kv, content, order, key);
    }
  }

  /** A load that succeeds settles the file: loading again, whatever randomness and
      the disk would have done, returns the same configuration and generates,
      writes and prints nothing. A load that fails leaves everything as it was. */
  lemma SecondLoadIsQuiet(o: Options, f: Fortune, order: seq<string>, s: Surroundings, g: Fortune)
    requires Faithful(o.reader) && OrderFits(o, f, s, order)
    ensures var (t, config) := Loaded(o, f, order, s);
      if config.Some? then OrderFits(o, g, t, []) && Loaded(o, g, [], t) == (t, config) else t == s
  {
    var (t, config) := Loaded(o, f, order, s);
    if config.Some? {
      var lines, next := LinesOf(s.content), LinesOf(t.content);
      var kv := Generated(o, f, lines).value;
      GeneratedArePlain(o, f, lines);
      if kv == map[] {
        NothingMissing(o, f, lines);
        QuietLoad(o, g, t);
      } else {
        forall key ensures Lookup(o, next, key) == if key in kv then kv[key] else Lookup(o, lines, key) {
          NextLookup(o, kv, s.content, order, key);
        }
        StillAccepted(o, kv, s.content, order);
        SettledSecrets(o, f, lines, next);
        QuietLoad(o, g, t);
      }
    }
  }

  predicate HasSecrets(o: Options, lines: seq<string>) {
    FirstNonEmpty(o.auth, Lookup(o, lines, AUTH_TOKEN)) != ""
    && FirstNonEmpty(o.session, Lookup(o, lines, SESSION_SECRET)) != ""
  }

  lemma NothingMissing(o: Options, f: Fortune, lines: seq<string>)
    requires Generated(o, f, lines) == Some(map[])
    ensures HasSecrets(o, lines)
  {
    var kv := Generated(o, f, lines).value;
    assert AUTH_TOKEN !in kv && SESSION_SECRET !in kv;
  }

  /** What is generated is what was missing, and it is not empty. */
  lemma WhichGenerated(o: Options, f: Fortune, lines: seq<string>)
    requires Generated(o, f, lines).Some?
    ensures var kv := Generated(o, f, lines).value;
      && (AUTH_TOKEN in kv <==> FirstNonEmpty(o.auth, Lookup(o, lines, AUTH_TOKEN)) == "")
      && (SESSION_SECRET in kv <==> FirstNonEmpty(o.session, Lookup(o, lines, SESSION_SECRET)) == "")
      && (AUTH_TOKEN in kv ==> kv[AUTH_TOKEN] != "") && (SESSION_SECRET in kv ==> kv[SESSION_SECRET] != "")
  {
    GeneratedArePlain(o, f, lines);
  }

  ghost predicate Follows(o: Options, kv: map<string, string>, lines: seq<string>, next: seq<string>) {
    forall key :: Lookup(o, next, key) == if key in kv then kv[key] else Lookup(o, lines, key)
  }

  lemma SameSettings(o: Options, f: Fortune, lines: seq<string>, next: seq<string>)
    requires Generated(o, f, lines).Some? && Follows(o, Generated(o, f, lines).value, lines, next)
    ensures Settings(o, next) == Settings(o, lines)
  {
    forall k | k in o.keys && k != AUTH_TOKEN && k != SESSION_SECRET
      ensures Lookup(o, next, k) == Lookup(o, lines, k)
    {
      assert k !in Generated(o, f, lines).value;
    }
  }

  lemma SettledSecrets(o: Options, f: Fortune, lines: seq<string>, next: seq<string>)
    requires Generated(o, f, lines).Some? && Follows(o, Generated(o, f, lines).value, lines, next)
    ensures HasSecrets(o, next)
    ensures Assemble(o, map[], next) == Assemble(o, Generated(o, f, lines).value, lines)
  {
    WhichGenerated(o, f, lines);
    SameSettings(o, f, lines, next);
    var kv := Generated(o, f, lines).value;
    assert Lookup(o, next, AUTH_TOKEN) == if AUTH_TOKEN in kv then kv[AUTH_TOKEN] else Lookup(o, lines, AUTH_TOKEN);
    assert Lookup(o, next, SESSION_SECRET) ==
      if SESSION_SECRET in kv then kv[SESSION_SECRET] else Lookup(o, lines, SESSION_SECRET);
  }

  lemma QuietLoad(o: Options, g: Fortune, s: Surroundings)
    requires HasSecrets(o, LinesOf(s.content)) && Accepted(o, LinesOf(s.content))
    requires o.valid(Assemble(o, map[], LinesOf(s.content)))
    ensures OrderFits(o, g, s, []) && Loaded(o, g, [], s) == (s, Some(Assemble(o, map[], LinesOf(s.content))))
  {
    var lines := LinesOf(s.content);
    assert Generated(o, g, lines) == Some(map[]);
    assert Absent(map[], lines) == {};
  }

  class Loader {
    var content: Option<string>
    var banner: seq<string>

    ghost function Around(): Surroundings
      reads this
    {
      Surroundings(content, banner)
    }

    static method Readable(o: Options, lines: seq<string>) returns (ok: bool)
      ensures ok <==> Accepted(o, lines)
    {
      for i := 0 to |lines|
        invariant forall j :: 0 <= j < i ==> o.reader.accepts(lines[j])
      {
        if !o.reader.accepts(lines[i]) {
          return false;
        }
      }
      return true;
    }

    /** Reads, fills in what is missing, validates, and only then persists and prints. */
    method Load(o: Options, f: Fortune) returns (config: Option<Config>, ghost order: seq<string>)
      modifies this
      ensures old(OrderFits(o, f, Around(), order))
      ensures (Around(), config) == old(Loaded(o, f, order, Around()))
    {
      var lines := LinesOf(content);
      order := SomeOrder(o, f, Around());
      var readable := Readable(o, lines);
      if !readable {
        return None, order;
      }
      var auth := FirstNonEmpty(o.auth, Lookup(o, lines, AUTH_TOKEN));
      var session := FirstNonEmpty(o.session, Lookup(o, lines, SESSION_SECRET));
      var generated := map[];
      if auth == "" {
        if f.auth.None? {
          return None, order;
        }
        auth := EncodeHex(f.auth.value);
        generated := generated[AUTH_TOKEN := auth];
      }
      if session == "" {
        if f.session.None? {
          return None, order;
        }
        session := EncodeHex(f.session.value);
        generated := generated[SESSION_SECRET := session];
      }
      assert Generated(o, f, lines) == Some(generated);
      var made := Config(auth, session, Settings(o, lines));
      if !o.valid(made) {
        return None, order;
      }
      if generated != map[] {
        var text := PersistGenerated(content, generated);
        order :| Enumerates(order, Absent(generated, LinesOf(content))) && text == Rewrite(generated, content, order);
        if !f.saved {
          return None, order;
        }
        content := Some(text);
        if AUTH_TOKEN in generated {
          banner := banner + [generated[AUTH_TOKEN]];
        }
      }
      config := Some(made);
    }
  }

  lemma SomeOrder(o: Options, f: Fortune, s: Surroundings) returns (order: seq<string>)
    ensures OrderFits(o, f, s, order)
  {
    var kv := Generated(o, f, LinesOf(s.content));
    order := [];
    if kv.Some? {
      var absent := Absent(kv.value, LinesOf(s.content));
      order := if AUTH_TOKEN in absent then [AUTH_TOKEN] else [];
      order := order + if SESSION_SECRET in absent then [SESSION_SECRET] else [];
      assert Enumerates(order, absent) by {
        assert AUTH_TOKEN[0] != SESSION_SECRET[0];
      }
    }
  }
}
