/** The 26-character identifiers: a 48-bit millisecond stamp and 80 random bits,
    packed five bits at a time. The packed text is the Crockford base-32 numeral
    of the 128-bit big-endian integer, as the ULID specification asks in its
    sections "Encoding", "Sorting" and "Binary Layout and Byte Order". */
module Ulid {
  import opened ByteBits
  import opened Sequences

  const ALPHABET := "0123456789ABCDEFGHJKMNPQRSTVWXYZ"
  const TWO_48 := 0x1_0000_0000_0000
  const TWO_64 := 0x1_0000_0000_0000_0000
  const TWO_80 := 0x1_0000_0000_0000_0000_0000

  // ---------- Positional numerals ----------

  ghost predicate DigitsBelow(base: nat, s: seq<nat>) {
    forall i :: 0 <= i < |s| ==> s[i] < base
  }

  /** The number written by digits `s`, most significant first. */
  function Value(base: nat, s: seq<nat>): nat {
    if s == [] then 0 else Value(base, s[..|s| - 1]) * base + s[|s| - 1]
  }

  /** Numeric order at the first difference. */
  ghost predicate LexLess(a: seq<nat>, b: seq<nat>)
    requires |a| == |b|
  {
    exists k :: 0 <= k < |a| && a[..k] == b[..k] && a[k] < b[k]
  }

  ghost predicate StringLess(a: string, b: string)
    requires |a| == |b|
  {
    exists k :: 0 <= k < |a| && a[..k] == b[..k] && a[k] < b[k]
  }

  lemma ValueSnoc(base: nat, s: seq<nat>, d: nat)
    ensures Value(base, s + [d]) == Value(base, s) * base + d
  {
    assert (s + [d])[..|s|] == s;
  }

  lemma LexLessSnoc(a: seq<nat>, b: seq<nat>, x: nat, y: nat)
    requires |a| == |b|
    ensures LexLess(a + [x], b + [y]) <==> LexLess(a, b) || (a == b && x < y)
  {
    var a', b' := a + [x], b + [y];
    if LexLess(a', b') {
      var k :| 0 <= k < |a'| && a'[..k] == b'[..k] && a'[k] < b'[k];
      if k < |a| {
        assert a[..k] == a'[..k] == b'[..k] == b[..k];
      } else {
        assert a == a'[..k] == b'[..k] == b;
      }
    }
    if LexLess(a, b) {
      var k :| 0 <= k < |a| && a[..k] == b[..k] && a[k] < b[k];
      assert a'[..k] == a[..k] == b[..k] == b'[..k];
    }
    if a == b && x < y {
      assert a'[..|a|] == b'[..|a|];
    }
  }

  lemma LinearCompare(base: nat, v: nat, w: nat, x: nat, y: nat)
    requires x < base && y < base
    ensures v * base + x < w * base + y <==> v < w || (v == w && x < y)
    ensures v * base + x == w * base + y <==> v == w && x == y
  {
    if v < w {
      assert (v + 1) * base <= w * base;
    } else if w < v {
      assert (w + 1) * base <= v * base;
    }
  }

  /** Numerals of one length compare as their values do, so values determine them. */
  lemma {:induction false} ValueOrder(base: nat, a: seq<nat>, b: seq<nat>)
    requires |a| == |b| && DigitsBelow(base, a) && DigitsBelow(base, b)
    ensures LexLess(a, b) <==> Value(base, a) < Value(base, b)
    ensures a == b <==> Value(base, a) == Value(base, b)
  {
    if a != [] {
      var n := |a| - 1;
      ValueOrder(base, a[..n], b[..n]);
      ValueOrderSnoc(base, a[..n], b[..n], a[n], b[n]);
      assert a == a[..n] + [a[n]] && b == b[..n] + [b[n]];
    }
  }

  lemma ValueOrderSnoc(base: nat, a: seq<nat>, b: seq<nat>, x: nat, y: nat)
    requires |a| == |b| && x < base && y < base
    requires LexLess(a, b) <==> Value(base, a) < Value(base, b)
    requires a == b <==> Value(base, a) == Value(base, b)
    ensures LexLess(a + [x], b + [y]) <==> Value(base, a + [x]) < Value(base, b + [y])
    ensures a + [x] == b + [y] <==> Value(base, a + [x]) == Value(base, b + [y])
  {
    ValueSnoc(base, a, x);
    ValueSnoc(base, b, y);
    LinearCompare(base, Value(base, a), Value(base, b), x, y);
    LexLessSnoc(a, b, x, y);
    assert (a + [x])[..|a|] == a && (b + [y])[..|b|] == b && (a + [x])[|a|] == x && (b + [y])[|b|] == y;
  }

  // ---------- Bytes and text ----------

  /** The 5-bit value of a Crockford character. */
  function DigitOf(c: char): nat {
    if c <= '9' then (if c < '0' then 0 else c as int - '0' as int)
    else if c <= 'H' then (if c < 'A' then 0 else c as int - 'A' as int + 10)
    else if c == 'J' || c == 'K' then c as int - 'J' as int + 18
    else if c == 'M' || c == 'N' then c as int - 'M' as int + 20
    else if 'P' <= c <= 'T' then c as int - 'P' as int + 22
    else if 'V' <= c <= 'Z' then c as int - 'V' as int + 27
    else 0
  }

  ghost predicate InAlphabet(s: string) {
    forall i :: 0 <= i < |s| ==> s[i] in ALPHABET
  }

  ghost predicate IsUlid(id: string) {
    |id| == 26 && InAlphabet(id)
  }

  function TextDigits(id: string): (d: seq<nat>)
    ensures |d| == |id|
  {
    seq(|id|, i requires 0 <= i < |id| => DigitOf(id[i]))
  }

  lemma AlphabetDigits(i: nat)
    requires i < 32
    ensures DigitOf(ALPHABET[i]) == i
  {
  }

  lemma AlphabetInverse(c: char)
    requires c in ALPHABET
    ensures DigitOf(c) < 32 && ALPHABET[DigitOf(c)] == c
  {
    var i :| 0 <= i < 32 && ALPHABET[i] == c;
    AlphabetDigits(i);
  }

  lemma AlphabetIncreases(i: nat, j: nat)
    requires i < j < 32
    ensures ALPHABET[i] < ALPHABET[j]
  {
  }

  lemma AlphabetOrder(c: char, d: char)
    requires c in ALPHABET && d in ALPHABET
    ensures c < d <==> DigitOf(c) < DigitOf(d)
    ensures c == d <==> DigitOf(c) == DigitOf(d)
  {
    AlphabetInverse(c);
    AlphabetInverse(d);
    var i, j := DigitOf(c), DigitOf(d);
    if i < j {
      AlphabetIncreases(i, j);
    } else if j < i {
      AlphabetIncreases(j, i);
    }
  }

  lemma UlidDigits(id: string)
    requires IsUlid(id)
    ensures DigitsBelow(32, TextDigits(id))
  {
    forall i | 0 <= i < 26 ensures TextDigits(id)[i] < 32 {
      AlphabetInverse(id[i]);
    }
  }

  lemma TextOrder(a: string, b: string)
    requires IsUlid(a) && IsUlid(b)
    ensures StringLess(a, b) <==> LexLess(TextDigits(a), TextDigits(b))
    ensures a == b <==> TextDigits(a) == TextDigits(b)
  {
    var x, y := TextDigits(a), TextDigits(b);
    forall i | 0 <= i < 26
      ensures (a[i] < b[i] <==> x[i] < y[i]) && (a[i] == b[i] <==> x[i] == y[i])
    {
      AlphabetOrder(a[i], b[i]);
    }
    if x == y {
      assert forall i :: 0 <= i < 26 ==> x[i] == y[i];
      assert a == b;
    }
    if StringLess(a, b) {
      var k :| 0 <= k < 26 && a[..k] == b[..k] && a[k] < b[k];
      forall i | 0 <= i < k ensures x[i] == y[i] {
        assert a[..k][i] == b[..k][i];
      }
      assert x[..k] == y[..k];
    }
    if LexLess(x, y) {
      var k :| 0 <= k < 26 && x[..k] == y[..k] && x[k] < y[k];
      forall i | 0 <= i < k ensures a[i] == b[i] {
        assert x[..k][i] == y[..k][i];
      }
      assert a[..k] == b[..k];
    }
  }

  // ---------- One 40-bit group: five bytes, eight characters ----------

  /** The eight 5-bit digits of five bytes. */
  ghost function GroupDigits(b: seq<nat>): seq<nat>
    requires |b| == 5 && DigitsBelow(256, b)
  {
    [b[0] / 8, b[0] % 8 * 4 + b[1] / 64, b[1] / 2 % 32, b[1] % 2 * 16 + b[2] / 16,
     b[2] % 16 * 2 + b[3] / 128, b[3] / 4 % 32, b[3] % 4 * 8 + b[4] / 32, b[4] % 32]
  }

  lemma {:induction false} AppendGroup(hi: seq<nat>, d: seq<nat>, lo: seq<nat>, b: seq<nat>)
    requires |b| == 5 && DigitsBelow(256, b) && d == GroupDigits(b)
    requires Value(32, hi) == Value(256, lo)
    ensures Value(32, hi + d) == Value(256, lo + b)
  {
    ValueEight(hi, d);
    ValueFive(lo, b);
    GroupValue(b[0], b[1], b[2], b[3], b[4]);
  }

  lemma SplitTwo(b: nat)
    requires b < 256
    ensures b == b / 64 * 64 + b / 2 % 32 * 2 + b % 2
  {
  }

  lemma SplitFour(b: nat)
    requires b < 256
    ensures b == b / 128 * 128 + b / 4 % 32 * 4 + b % 4
  {
  }

  lemma GroupValue(a: nat, b: nat, c: nat, d: nat, e: nat)
    requires a < 256 && b < 256 && c < 256 && d < 256 && e < 256
    ensures a / 8 * 0x8_0000_0000 + (a % 8 * 4 + b / 64) * 0x4000_0000 + b / 2 % 32 * 0x200_0000
      + (b % 2 * 16 + c / 16) * 0x10_0000 + (c % 16 * 2 + d / 128) * 0x8000 + d / 4 % 32 * 0x400
      + (d % 4 * 8 + e / 32) * 0x20 + e % 32
      == a * 0x1_0000_0000 + b * 0x100_0000 + c * 0x1_0000 + d * 0x100 + e
  {
    SplitTwo(b);
    SplitFour(d);
  }

  lemma ValueEight(s: seq<nat>, d: seq<nat>)
    requires |d| == 8
    ensures Value(32, s + d) == Value(32, s) * 0x100_0000_0000
      + d[0] * 0x8_0000_0000 + d[1] * 0x4000_0000 + d[2] * 0x200_0000 + d[3] * 0x10_0000
      + d[4] * 0x8000 + d[5] * 0x400 + d[6] * 0x20 + d[7]
  {
    ValueFour(s, d[..4]);
    ValueFour(s + d[..4], d[4..]);
    assert s + d == s + d[..4] + d[4..];
  }

  lemma ValueFour(s: seq<nat>, d: seq<nat>)
    requires |d| == 4
    ensures Value(32, s + d) == Value(32, s) * 0x10_0000 + d[0] * 0x8000 + d[1] * 0x400 + d[2] * 0x20 + d[3]
  {
    ValueSnoc(32, s, d[0]);
    ValueSnoc(32, s + [d[0]], d[1]);
    ValueSnoc(32, s + [d[0]] + [d[1]], d[2]);
    ValueSnoc(32, s + [d[0]] + [d[1]] + [d[2]], d[3]);
    assert s + d == s + [d[0]] + [d[1]] + [d[2]] + [d[3]];
  }

  lemma ValueFive(s: seq<nat>, b: seq<nat>)
    requires |b| == 5
    ensures Value(256, s + b) == Value(256, s) * 0x100_0000_0000
      + b[0] * 0x1_0000_0000 + b[1] * 0x100_0000 + b[2] * 0x1_0000 + b[3] * 0x100 + b[4]
  {
    ValueSnoc(256, s, b[0]);
    ValueSnoc(256, s + [b[0]], b[1]);
    ValueSnoc(256, s + [b[0]] + [b[1]], b[2]);
    ValueSnoc(256, s + [b[0]] + [b[1]] + [b[2]], b[3]);
    ValueSnoc(256, s + [b[0]] + [b[1]] + [b[2]] + [b[3]], b[4]);
    assert s + b == s + [b[0]] + [b[1]] + [b[2]] + [b[3]] + [b[4]];
  }

  // ---------- Packing ----------

  /** The Crockford text of a digit sequence. */
  function Render(d: seq<nat>): (text: string)
    requires DigitsBelow(32, d)
    ensures |text| == |d| && InAlphabet(text)
  {
    seq(|d|, i requires 0 <= i < |d| => ALPHABET[d[i]])
  }

  lemma RenderDigits(d: seq<nat>)
    requires DigitsBelow(32, d)
    ensures TextDigits(Render(d)) == d
  {
    forall i | 0 <= i < |d| ensures TextDigits(Render(d))[i] == d[i] {
      AlphabetDigits(d[i]);
    }
  }

  /** `id` is the 26-digit base-32 numeral of the 16 bytes. */
  ghost predicate Packs(raw: seq<byte>, id: string) {
    |raw| == 16 && IsUlid(id) && Value(32, TextDigits(id)) == Value(256, raw)
  }

  function Ints(bits: seq<bv8>): (r: seq<byte>)
    ensures |r| == |bits| && forall i :: 0 <= i < |bits| ==> r[i] == bits[i] as int
  {
    seq(|bits|, i requires 0 <= i < |bits| => bits[i] as int)
  }

  method ToBits(raw: seq<byte>) returns (bits: seq<bv8>)
    ensures Ints(bits) == raw
  {
    bits := [];
    for i := 0 to |raw|
      invariant Ints(bits) == raw[..i]
    {
      var b := ToByte(raw[i]);
      IntsSnoc(bits, b);
      bits := bits + [b];
    }
    assert raw[..|raw|] == raw;
  }

  lemma IntsSnoc(bits: seq<bv8>, b: bv8)
    ensures Ints(bits + [b]) == Ints(bits) + [b as int]
  {
  }

  /** Five bytes, eight characters. */
  method PackGroup(a: bv8, b: bv8, c: bv8, d: bv8, e: bv8) returns (g: seq<nat>)
    ensures var raw := [a as int, b as int, c as int, d as int, e as int];
      DigitsBelow(256, raw) && g == GroupDigits(raw)
  {
    var g0 := TopFive(a);
    var g1 := ThreeTwo(a, b);
    var g2 := MiddleFromOne(b);
    var g3 := OneFour(b, c);
    var g4 := FourOne(c, d);
    var g5 := MiddleFromTwo(d);
    var g6 := TwoThree(d, e);
    var g7 := LowFive(e);
    g := [g0, g1, g2, g3, g4, g5, g6, g7];
  }

  method PackFive(raw: seq<bv8>) returns (g: seq<nat>)
    requires |raw| == 5
    ensures DigitsBelow(256, Ints(raw)) && g == GroupDigits(Ints(raw))
  {
    assert Ints(raw) == [raw[0] as int, raw[1] as int, raw[2] as int, raw[3] as int, raw[4] as int];
    g := PackGroup(raw[0], raw[1], raw[2], raw[3], raw[4]);
  }

  method PackHead(a: bv8) returns (h: seq<nat>)
    ensures h == [a as int / 32, a as int % 32]
  {
    var h0 := TopThree(a);
    var h1 := LowFive(a);
    h := [h0, h1];
  }

  lemma IntsSlice(raw: seq<bv8>, lo: nat, hi: nat)
    requires lo <= hi <= |raw|
    ensures Ints(raw[lo..hi]) == Ints(raw)[lo..hi]
  {
  }

  method PackDigits(raw: seq<bv8>) returns (d: seq<nat>)
    requires |raw| == 16
    ensures |d| == 26 && DigitsBelow(32, d) && Value(32, d) == Value(256, Ints(raw))
  {
    var head := PackHead(raw[0]);
    var time := PackFive(raw[1..6]);
    var rand := PackFive(raw[6..11]);
    var rest := PackFive(raw[11..16]);
    IntsSlice(raw, 1, 6);
    IntsSlice(raw, 6, 11);
    IntsSlice(raw, 11, 16);
    d := head + time + rand + rest;
    ghost var n := Ints(raw);
    assert n[11..] == n[11..16];
    PackedValue(n, head, time, rand, rest);
  }

  method Pack(raw: seq<byte>) returns (id: string)
    requires |raw| == 16
    ensures Packs(raw, id)
  {
    var bits := ToBits(raw);
    var d := PackDigits(bits);
    id := Render(d);
    RenderDigits(d);
  }

  lemma GroupBelow(b: seq<nat>)
    requires |b| == 5 && DigitsBelow(256, b)
    ensures DigitsBelow(32, GroupDigits(b))
  {
  }

  lemma HeadValue(b: byte, d: seq<nat>)
    requires d == [b / 32, b % 32]
    ensures Value(32, d) == Value(256, [b])
  {
    ValueSnoc(256, [], b);
    ValueSnoc(32, [], d[0]);
    ValueSnoc(32, [] + [d[0]], d[1]);
    assert [b] == [] + [b] && d == [] + [d[0]] + [d[1]];
  }

  lemma PackedValue(raw: seq<byte>, head: seq<nat>, time: seq<nat>, rand: seq<nat>, rest: seq<nat>)
    requires |raw| == 16 && head == [raw[0] / 32, raw[0] % 32]
    requires time == GroupDigits(raw[1..6]) && rand == GroupDigits(raw[6..11]) && rest == GroupDigits(raw[11..])
    ensures DigitsBelow(32, head + time + rand + rest)
    ensures Value(32, head + time + rand + rest) == Value(256, raw)
  {
    GroupBelow(raw[1..6]);
    GroupBelow(raw[6..11]);
    GroupBelow(raw[11..]);
    HeadValue(raw[0], head);
    assert raw[..1] == [raw[0]];
    AppendGroup(head, time, raw[..1], raw[1..6]);
    assert raw[..6] == raw[..1] + raw[1..6];
    AppendGroup(head + time, rand, raw[..6], raw[6..11]);
    assert raw[..11] == raw[..6] + raw[6..11];
    AppendGroup(head + time + rand, rest, raw[..11], raw[11..]);
    assert raw == raw[..11] + raw[11..];
  }

  // ---------- Building an identifier ----------

  lemma ValueTen(s: seq<byte>, e: seq<byte>)
    requires |e| == 10
    ensures Value(256, s + e) == Value(256, s) * TWO_80 + Value(256, e) && Value(256, e) < TWO_80
  {
    ValueFive(s, e[..5]);
    ValueFive(s + e[..5], e[5..]);
    ValueFive([], e[..5]);
    ValueFive(e[..5], e[5..]);
    assert s + e == s + e[..5] + e[5..] && e == e[..5] + e[5..] && [] + e[..5] == e[..5];
  }

  lemma StampValue(ms: nat, stamp: seq<byte>)
    requires stamp == [ms / 0x100_0000_0000 % 256, ms / 0x1_0000_0000 % 256, ms / 0x100_0000 % 256,
                       ms / 0x1_0000 % 256, ms / 0x100 % 256, ms % 256]
    ensures Value(256, stamp) == ms % TWO_48
  {
    ValueSnoc(256, [], stamp[0]);
    ValueFive([stamp[0]], stamp[1..]);
    assert stamp == [stamp[0]] + stamp[1..] && [] + [stamp[0]] == [stamp[0]];
    StampBytes(ms);
  }

  lemma ModUnique(x: nat, q: nat, d: nat, r: nat)
    requires r < d && x == q * d + r
    ensures x % d == r
  {
    var q' := x / d;
    assert x == q' * d + x % d;
    LinearCompare(d, q, q', r, x % d);
  }

  lemma Regroup(q: nat, s: nat, p: nat, r: nat)
    requires s < 256 && r < p
    ensures (q * 256 + s) * p + r == q * (256 * p) + (s * p + r)
    ensures s * p + r < 256 * p
  {
    assert s * p <= 255 * p;
  }

  /** One more byte of a remainder. */
  lemma ModStep(x: nat, p: nat)
    requires p > 0
    ensures x % (256 * p) == x / p % 256 * p + x % p
  {
    var y, r := x / p, x % p;
    var q, s := y / 256, y % 256;
    assert x == y * p + r && y == q * 256 + s;
    Regroup(q, s, p, r);
    ModUnique(x, q, 256 * p, s * p + r);
  }

  lemma StampBytes(ms: nat)
    ensures ms % TWO_48 == ms / 0x100_0000_0000 % 256 * 0x100_0000_0000 + ms / 0x1_0000_0000 % 256 * 0x1_0000_0000
      + ms / 0x100_0000 % 256 * 0x100_0000 + ms / 0x1_0000 % 256 * 0x1_0000 + ms / 0x100 % 256 * 0x100 + ms % 256
  {
    ModStep(ms, 0x100);
    ModStep(ms, 0x1_0000);
    ModStep(ms, 0x100_0000);
    ModStep(ms, 0x1_0000_0000);
    ModStep(ms, 0x100_0000_0000);
  }

  lemma MultiplesApart(a: int, b: int, d: int)
    requires a < b && d > 0
    ensures a * d + d <= b * d
  {
    var gap := b - a - 1;
    assert gap * d >= 0;
    assert b * d == (a + 1 + gap) * d == a * d + d + gap * d;
  }

  /** Quotient and remainder are determined. */
  lemma DivisionUnique(a: int, b: int, r: int, s: int, d: int)
    requires 0 <= r < d && 0 <= s < d && a * d + r == b * d + s
    ensures a == b && r == s
  {
    if a < b {
      MultiplesApart(a, b, d);
    } else if b < a {
      MultiplesApart(b, a, d);
    }
  }

  /** Cutting to 64 bits and then to 48 is cutting to 48. */
  lemma Mod64Then48(x: int)
    ensures x % TWO_64 % TWO_48 == x % TWO_48
  {
    var q, m := x / TWO_64, x % TWO_64;
    var b, c := m / TWO_48, m % TWO_48;
    var e, f := x / TWO_48, x % TWO_48;
    assert x == q * TWO_64 + m && m == b * TWO_48 + c && x == e * TWO_48 + f;
    assert x == (q * 0x1_0000 + b) * TWO_48 + c;
    DivisionUnique(q * 0x1_0000 + b, e, c, f, TWO_48);
  }

  /** The identifier for a Unix-millisecond stamp and ten random bytes; None when
      the random source fails. The stamp is cut to 48 bits. */
  method NewUlid(unixMs: int, entropy: Option<seq<byte>>) returns (r: Option<string>)
    requires entropy.Some? ==> |entropy.value| == 10
    ensures r.Some? <==> entropy.Some?
    ensures r.Some? ==> IdFor(unixMs, entropy.value, r.value)
  {
    if entropy.None? {
      return None;
    }
    var ms := unixMs % TWO_64;
    var stamp: seq<byte> := [ms / 0x100_0000_0000 % 256, ms / 0x1_0000_0000 % 256, ms / 0x100_0000 % 256,
                             ms / 0x1_0000 % 256, ms / 0x100 % 256, ms % 256];
    StampValue(ms, stamp);
    Mod64Then48(unixMs);
    ValueTen(stamp, entropy.value);
    var id := Pack(stamp + entropy.value);
    return Some(id);
  }

  ghost predicate IdFor(unixMs: int, entropy: seq<byte>, id: string) {
    IsUlid(id) && Value(32, TextDigits(id)) == unixMs % TWO_48 * TWO_80 + Value(256, entropy)
  }

  // ---------- What an identifier determines ----------

  /** The `n` big-endian bytes of `v`. */
  function BigEndian(v: nat, n: nat): seq<byte> {
    if n == 0 then [] else BigEndian(v / 256, n - 1) + [v % 256]
  }

  /** The decoder: the 16 bytes a 26-character text stands for. */
  function Unpack(id: string): seq<byte> {
    BigEndian(Value(32, TextDigits(id)), 16)
  }

  lemma {:induction false} BigEndianValue(raw: seq<byte>)
    ensures BigEndian(Value(256, raw), |raw|) == raw
  {
    if raw != [] {
      var n := |raw| - 1;
      BigEndianValue(raw[..n]);
      assert Value(256, raw) / 256 == Value(256, raw[..n]) && Value(256, raw) % 256 == raw[n];
      assert raw == raw[..n] + [raw[n]];
    }
  }

  lemma UnpackUndoesPack(raw: seq<byte>, id: string)
    requires Packs(raw, id)
    ensures Unpack(id) == raw
  {
    BigEndianValue(raw);
  }

  lemma RawBound(raw: seq<byte>)
    requires |raw| == 16
    ensures Value(256, raw) < 256 * TWO_80 * 0x100_0000_0000
  {
    ValueSnoc(256, [], raw[0]);
    ValueFive(raw[..1], raw[1..6]);
    ValueTen(raw[..6], raw[6..]);
    assert raw[..1] == [] + [raw[0]] && raw[..6] == raw[..1] + raw[1..6] && raw == raw[..6] + raw[6..];
  }

  lemma TextBound(d: seq<nat>)
    requires |d| == 26
    ensures Value(32, d) >= d[0] * 32 * TWO_80 * 0x100_0000_0000
  {
    ValueSnoc(32, [], d[0]);
    ValueSnoc(32, [d[0]], d[1]);
    assert d[..2] == [d[0]] + [d[1]] && [] + [d[0]] == [d[0]];
    EightMore(d, 2);
    EightMore(d, 10);
    EightMore(d, 18);
    assert d[..26] == d;
  }

  lemma EightMore(d: seq<nat>, at: nat)
    requires at + 8 <= |d|
    ensures Value(32, d[..at + 8]) >= Value(32, d[..at]) * 0x100_0000_0000
  {
    ValueEight(d[..at], d[at..at + 8]);
    assert d[..at + 8] == d[..at] + d[at..at + 8];
  }

  lemma FirstCharacter(raw: seq<byte>, id: string)
    requires Packs(raw, id)
    ensures id[0] <= '7'
  {
    RawBound(raw);
    TextBound(TextDigits(id));
    assert DigitOf(id[0]) < 8;
    AlphabetOrder(id[0], '8');
  }

  /** Text order is byte order, and equal texts mean equal bytes. */
  lemma PackOrder(raw: seq<byte>, id: string, raw': seq<byte>, id': string)
    requires Packs(raw, id) && Packs(raw', id')
    ensures StringLess(id, id') <==> LexLess(raw, raw')
    ensures id == id' <==> raw == raw'
  {
    UlidDigits(id);
    UlidDigits(id');
    TextOrder(id, id');
    ValueOrder(32, TextDigits(id), TextDigits(id'));
    ValueOrder(256, raw, raw');
  }

  /** A smaller millisecond gives a smaller identifier, whatever the random bytes. */
  lemma TimeOrder(ms: nat, e: seq<byte>, id: string, ms': nat, e': seq<byte>, id': string)
    requires ms < ms' < TWO_48 && |e| == |e'| == 10
    requires IdFor(ms, e, id) && IdFor(ms', e', id')
    ensures StringLess(id, id')
  {
    ValueTen([], e);
    ValueTen([], e');
    UlidDigits(id);
    UlidDigits(id');
    StampCompare(ms, ms', Value(256, e), Value(256, e'));
    ValueOrder(32, TextDigits(id), TextDigits(id'));
    TextOrder(id, id');
  }

  lemma StampCompare(ms: nat, ms': nat, e: nat, e': nat)
    requires ms < ms' < TWO_48 && e < TWO_80 && e' < TWO_80
    ensures ms % TWO_48 * TWO_80 + e < ms' % TWO_48 * TWO_80 + e'
  {
  }
}
