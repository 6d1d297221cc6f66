/** Decimal numbers and host:port addresses as text: printing and reading a signed
    64-bit number, joining a host and a port with brackets where the host has a colon,
    and the three shapes a node is split from. */
module Addresses {
  import opened Sequences

  const INT64_MAX := 0x7fff_ffff_ffff_ffff

  // ---------- Decimal numbers ----------

  predicate IsDigit(c: char) {
    '0' <= c <= '9'
  }

  predicate AllDigits(s: string) {
    forall i :: 0 <= i < |s| ==> IsDigit(s[i])
  }

  function DigitsValue(s: string): nat
    requires AllDigits(s)
  {
    if s == "" then 0 else DigitsValue(s[..|s| - 1]) * 10 + (s[|s| - 1] as int - '0' as int)
  }

  /** An optional sign and at least one digit, within 64 bits. */
  function Atoi(s: string): Option<int> {
    var body := if s != "" && (s[0] == '-' || s[0] == '+') then s[1..] else s;
    if body == "" || !AllDigits(body) then None
    else
      var v: int := if s[0] == '-' then 0 - DigitsValue(body) as int else DigitsValue(body) as int;
      if -INT64_MAX - 1 <= v <= INT64_MAX then Some(v) else None
  }

  function NatText(n: nat): (s: string)
    ensures s != "" && AllDigits(s) && DigitsValue(s) == n
  {
    var last := ('0' as int + n % 10) as char;
    if n < 10 then [last]
    else
      var s := NatText(n / 10) + [last];
      assert s[..|s| - 1] == NatText(n / 10);
      s
  }

  function Itoa(n: int): string {
    if n < 0 then "-" + NatText(-n) else NatText(n)
  }

  /** Parsing undoes printing on every 64-bit number. */
  lemma AtoiItoa(n: int)
    requires -INT64_MAX - 1 <= n <= INT64_MAX
    ensures Atoi(Itoa(n)) == Some(n)
    ensures forall i :: 0 <= i < |Itoa(n)| ==> Itoa(n)[i] == '-' || IsDigit(Itoa(n)[i])
  {
    if n < 0 {
      assert Itoa(n)[1..] == NatText(-n);
    } else {
      assert IsDigit(NatText(n)[0]);
    }
  }

  // ---------- Addresses ----------

  /** Position of the last `c`, or -1. */
  function LastIndex(s: string, c: char): (i: int)
    ensures -1 <= i < |s|
    ensures i >= 0 ==> s[i] == c
    ensures forall j :: i < j < |s| ==> s[j] != c
  {
    if s == "" then -1
    else if s[|s| - 1] == c then |s| - 1
    else LastIndex(s[..|s| - 1], c)
  }

  /** Brackets around hosts with a colon. */
  function JoinHostPort(host: string, port: string): string {
    if ':' in host then "[" + host + "]:" + port else host + ":" + port
  }

  datatype HostPort = HostPort(host: string, port: int)

  /** The three node shapes: "*:p", "host:p" and "[host]:p". */
  function SplitHostPort(node: string): Option<HostPort> {
    if node != "" && node[0] == '[' then
      var end := LastIndex(node, ']');
      if end < 0 || end + 2 > |node| || node[end + 1] != ':' then None
      else
        var port := Atoi(node[end + 2..]);
        if port.None? then None else Some(HostPort(node[1..end], port.value))
    else
      var idx := LastIndex(node, ':');
      if idx < 0 then None
      else
        var host := if node[..idx] == "*" then "0.0.0.0" else node[..idx];
        var port := Atoi(node[idx + 1..]);
        if port.None? then None else Some(HostPort(host, port.value))
  }

  lemma LastIndexIs(s: string, c: char, i: nat)
    requires i < |s| && s[i] == c && forall j :: i < j < |s| ==> s[j] != c
    ensures LastIndex(s, c) == i
  {
  }

  /** A joined address splits into the same host and port exactly for hosts other
      than the wildcard, and other than a bracketed name without a colon. */
  lemma SplitJoinHostPort(host: string, port: int)
    requires -INT64_MAX - 1 <= port <= INT64_MAX
    ensures SplitHostPort(JoinHostPort(host, Itoa(port))) == Some(HostPort(host, port)) <==>
      host != "*" && !(host != "" && host[0] == '[' && ':' !in host)
  {
    AtoiItoa(port);
    if ':' in host {
      BracketedSplit(host, port);
    } else if host != "" && host[0] == '[' {
      BracketMisread(host, port);
    } else {
      PlainSplit(host, port);
    }
  }

  lemma BracketedSplit(host: string, port: int)
    requires ':' in host && Atoi(Itoa(port)) == Some(port)
    requires forall i :: 0 <= i < |Itoa(port)| ==> Itoa(port)[i] == '-' || IsDigit(Itoa(port)[i])
    ensures SplitHostPort(JoinHostPort(host, Itoa(port))) == Some(HostPort(host, port))
    ensures host != "*"
  {
    var node := JoinHostPort(host, Itoa(port));
    BracketShape(host, Itoa(port));
    LastIndexIs(node, ']', |host| + 1);
  }

  lemma BracketShape(host: string, p: string)
    requires forall i :: 0 <= i < |p| ==> p[i] == '-' || IsDigit(p[i])
    ensures var node := "[" + host + "]:" + p; var end := |host| + 1;
      && end + 2 <= |node| && node[0] == '[' && node[end] == ']' && node[end + 1] == ':'
      && node[end + 2..] == p && node[1..end] == host
      && forall j :: end < j < |node| ==> node[j] != ']'
  {
    var head, node := "[" + host, "[" + host + "]:" + p;
    assert node == head + ("]:" + p) && |head| == |host| + 1;
    assert node[1..|head|] == host;
    forall j | |head| < j < |node| ensures node[j] != ']' {
      assert node[j] == ("]:" + p)[j - |head|];
      assert j > |head| + 1 ==> node[j] == p[j - |head| - 2];
    }
  }

  lemma PlainSplit(host: string, port: int)
    requires ':' !in host && (host == "" || host[0] != '[') && Atoi(Itoa(port)) == Some(port)
    requires forall i :: 0 <= i < |Itoa(port)| ==> Itoa(port)[i] == '-' || IsDigit(Itoa(port)[i])
    ensures SplitHostPort(JoinHostPort(host, Itoa(port))) == Some(HostPort(if host == "*" then "0.0.0.0" else host, port))
  {
    PlainShape(host, Itoa(port));
    LastIndexIs(JoinHostPort(host, Itoa(port)), ':', |host|);
  }

  lemma PlainShape(host: string, p: string)
    requires forall i :: 0 <= i < |p| ==> p[i] == '-' || IsDigit(p[i])
    ensures var node := host + ":" + p; var end := |host|;
      && node[end] == ':' && node[end + 1..] == p && node[..end] == host
      && (host != "" ==> node[0] == host[0])
      && forall j :: end < j < |node| ==> node[j] != ':'
  {
    var node := host + ":" + p;
    assert node[..|host|] == host;
    forall j | |host| < j < |node| ensures node[j] != ':' {
      assert node[j] == p[j - |host| - 1];
    }
  }

  lemma BracketMisread(host: string, port: int)
    requires ':' !in host && host != "" && host[0] == '['
    requires forall i :: 0 <= i < |Itoa(port)| ==> Itoa(port)[i] == '-' || IsDigit(Itoa(port)[i])
    ensures SplitHostPort(JoinHostPort(host, Itoa(port))) != Some(HostPort(host, port))
  {
    var node := host + ":" + Itoa(port);
    assert node[0] == '[';
    forall j | |host| <= j < |node| ensures node[j] != ']' {
      assert node[j] == (":" + Itoa(port))[j - |host|];
    }
    var end := LastIndex(node, ']');
    if 0 <= end {
      assert |node[1..end]| < |host|;
    }
  }

  /** The wildcard reads as the IPv4 any-address. */
  lemma WildcardSplit(port: int)
    requires -INT64_MAX - 1 <= port <= INT64_MAX
    ensures SplitHostPort("*:" + Itoa(port)) == Some(HostPort("0.0.0.0", port))
  {
    AtoiItoa(port);
    PlainSplit("*", port);
    assert JoinHostPort("*", Itoa(port)) == "*:" + Itoa(port);
  }
}
