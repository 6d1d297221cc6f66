/** Redacting the session cookie from a logged Cookie header. */
module Cookies {
  import opened Sequences

  const SESSION := "pm_session"
  const MASK := "[REDACTED]"

  // ---------- Segments ----------

  /** Simple case folding, onto the lower-case letters of the cookie name: the long
      s folds to `s`. */
  function Fold(c: char): char {
    if 'A' <= c <= 'Z' then (c as int + 32) as char
    else if c as int == 0x17F then 's'
    else c
  }

  predicate EqualFold(s: string, t: string) {
    |s| == |t| && forall i :: 0 <= i < |s| ==> Fold(s[i]) == Fold(t[i])
  }

  /** How many spaces a segment starts with. */
  function Leading(part: string): (n: nat)
    ensures n <= |part|
    ensures forall i :: 0 <= i < n ==> part[i] == ' '
    ensures n < |part| ==> part[n] != ' '
  {
    if part != "" && part[0] == ' ' then 1 + Leading(part[1..]) else 0
  }

  predicate IsSession(part: string) {
    var kv := part[Leading(part)..];
    var eq := IndexOf(kv, '=');
    eq > 0 && EqualFold(kv[..eq], SESSION)
  }

  /** A session segment up to and including its equals sign. */
  function Head(part: string): string
    requires IsSession(part)
  {
    part[..Leading(part) + IndexOf(part[Leading(part)..], '=') + 1]
  }

  function RedactSegment(part: string): string {
    if IsSession(part) then Head(part) + MASK else part
  }

  function RedactAll(parts: seq<string>): (r: seq<string>)
    ensures |r| == |parts| && forall i :: 0 <= i < |parts| ==> r[i] == RedactSegment(parts[i])
  {
    seq(|parts|, i requires 0 <= i < |parts| => RedactSegment(parts[i]))
  }

  function Redact(v: string): string {
    Join(RedactAll(Split(v, ';')), ';')
  }

  // ---------- The loop ----------

  method RedactPart(part: string) returns (r: string)
    ensures r == RedactSegment(part)
  {
    var kv := part[Leading(part)..];
    var leading := part[..|part| - |kv|];
    var eq := IndexOf(kv, '=');
    if eq > 0 && EqualFold(kv[..eq], SESSION) {
      assert leading + kv[..eq + 1] == Head(part);
      return leading + kv[..eq + 1] + MASK;
    }
    return part;
  }

  method RedactParts(parts: array<string>)
    modifies parts
    ensures parts[..] == RedactAll(old(parts[..]))
  {
    ghost var done := RedactAll(parts[..]);
    for i := 0 to parts.Length
      invariant forall j :: 0 <= j < i ==> parts[j] == done[j]
      invariant forall j :: i <= j < parts.Length ==> parts[j] == old(parts[j])
    {
      parts[i] := RedactPart(parts[i]);
    }
  }

  method RedactCookieHeader(v: string) returns (r: string)
    ensures r == Redact(v)
  {
    if v == "" {
      return "";
    }
    var parts := Split(v, ';');
    var buffer := new string[|parts|](i requires 0 <= i < |parts| => parts[i]);
    assert buffer[..] == parts;
    RedactParts(buffer);
    r := Join(buffer[..], ';');
  }

  // ---------- What is kept and what is lost ----------

  /** Whatever follows the head, a segment is a session segment with that head. */
  lemma HeadDecides(part: string, tail: string)
    requires IsSession(part)
    ensures IsSession(Head(part) + tail) && Head(Head(part) + tail) == Head(part)
  {
    var n := Leading(part);
    var kv := part[n..];
    var eq := IndexOf(kv, '=');
    var other := Head(part) + tail;
    assert forall i :: 0 <= i <= n + eq ==> other[i] == part[i];
    LeadingIs(other, n);
    assert other[n..][..eq] == kv[..eq];
    IndexIs(other[n..], '=', eq);
    assert other[..n + eq + 1] == Head(part);
  }

  lemma {:induction false} LeadingIs(s: string, n: nat)
    requires n < |s| && s[n] != ' ' && forall i :: 0 <= i < n ==> s[i] == ' '
    ensures Leading(s) == n
  {
  }

  /** Segments look alike when they are equal, or session segments with one head. */
  predicate Alike(p: string, q: string) {
    p == q || (IsSession(p) && IsSession(q) && Head(p) == Head(q))
  }

  lemma SegmentReveals(p: string, q: string)
    ensures RedactSegment(p) == RedactSegment(q) <==> Alike(p, q)
  {
    if IsSession(p) {
      HeadDecides(p, MASK);
    }
    if IsSession(q) {
      HeadDecides(q, MASK);
    }
  }

  lemma SegmentSettles(p: string)
    requires ';' !in p
    ensures RedactSegment(RedactSegment(p)) == RedactSegment(p) && ';' !in RedactSegment(p)
  {
    if IsSession(p) {
      HeadDecides(p, MASK);
      var h := Head(p);
      assert RedactSegment(p) == h + MASK;
      assert ';' !in h && ';' !in MASK;
    }
  }

  /** Splitting the redacted header gives the redacted segments, one for one. */
  lemma RedactedSegments(v: string)
    ensures Split(Redact(v), ';') == RedactAll(Split(v, ';'))
  {
    var parts := Split(v, ';');
    forall i | 0 <= i < |parts| ensures ';' !in RedactSegment(parts[i]) {
      SegmentSettles(parts[i]);
    }
    SplitJoin(RedactAll(parts), ';');
  }

  /** Every other segment keeps its bytes and its place; a session segment keeps
      only what precedes its value. */
  lemma OtherSegmentsKept(v: string, i: nat)
    requires i < |Split(v, ';')|
    ensures var was, now := Split(v, ';'), Split(Redact(v), ';');
      && |now| == |was|
      && (!IsSession(was[i]) ==> now[i] == was[i])
      && (IsSession(was[i]) ==> now[i] == Head(was[i]) + MASK)
  {
    RedactedSegments(v);
  }

  /** Two headers redact to the same text exactly when they have as many segments
      and differ at most in the values of session segments. */
  lemma RevealsOnlyTheRest(v: string, w: string)
    ensures Redact(v) == Redact(w) <==>
      var p, q := Split(v, ';'), Split(w, ';');
      |p| == |q| && forall i :: 0 <= i < |p| ==> Alike(p[i], q[i])
  {
    var p, q := Split(v, ';'), Split(w, ';');
    RedactedSegments(v);
    RedactedSegments(w);
    if |p| == |q| {
      forall i | 0 <= i < |p| ensures RedactAll(p)[i] == RedactAll(q)[i] <==> Alike(p[i], q[i]) {
        SegmentReveals(p[i], q[i]);
      }
      if forall i :: 0 <= i < |p| ==> Alike(p[i], q[i]) {
        assert RedactAll(p) == RedactAll(q);
      }
    }
  }

  lemma RedactSettles(v: string)
    ensures Redact(Redact(v)) == Redact(v)
  {
    var parts := Split(v, ';');
    RedactedSegments(v);
    forall i | 0 <= i < |parts| ensures RedactSegment(RedactSegment(parts[i])) == RedactSegment(parts[i]) {
      SegmentSettles(parts[i]);
    }
    assert RedactAll(RedactAll(parts)) == RedactAll(parts);
  }
}
