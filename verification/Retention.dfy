/** What the remembered list means in terms of everything ever remembered: per-key and
    global retention as functions of the unbounded history, how they commute with
    appending, and what survives of an order when entries are left out. */
module Retention {
  import opened Sequences

  /** A killed-listener snapshot. An absent environment and an empty one are the
      same value: the store's copies turn the latter into the former. */
  datatype Remembered = Remembered(
    id: string, port: int, command: seq<string>, cwd: string,
    env: seq<string>, killedAt: int, labelKey: string)

  const PER_KEY_CAP := 5
  const GLOBAL_CAP := 100

  function Carries(key: string): Remembered -> bool {
    (r: Remembered) => r.labelKey == key
  }

  function CountFor(s: seq<Remembered>, key: string): nat {
    Count(Carries(key), s)
  }

  /** `s` without the entries for `key` that have PER_KEY_CAP later ones for it. */
  function KeepNewest(s: seq<Remembered>, key: string): seq<Remembered> {
    if s == [] then []
    else
      (if s[0].labelKey == key && CountFor(s[1..], key) >= PER_KEY_CAP then [] else [s[0]]) + KeepNewest(s[1..], key)
  }

  function LastN<T>(s: seq<T>, n: nat): seq<T> {
    if |s| <= n then s else s[|s| - n..]
  }

  /** The history with every key trimmed at once: an entry stays exactly when
      fewer than PER_KEY_CAP later entries carry its key. */
  function Retained(h: seq<Remembered>): seq<Remembered> {
    if h == [] then []
    else (if CountFor(h[1..], h[0].labelKey) < PER_KEY_CAP then [h[0]] else []) + Retained(h[1..])
  }

  /** One append followed by both trims. */
  function Append(s: seq<Remembered>, r: Remembered): seq<Remembered> {
    LastN(KeepNewest(s + [r], r.labelKey), GLOBAL_CAP)
  }

  ghost predicate WithinCaps(s: seq<Remembered>) {
    |s| <= GLOBAL_CAP && forall key :: CountFor(s, key) <= PER_KEY_CAP
  }

  // ---------- Counting ----------

  lemma CountOne(r: Remembered, key: string)
    ensures CountFor([r], key) == if r.labelKey == key then 1 else 0
  {
    assert [r][1..] == [];
    assert Count(Carries(key), [r][1..]) == 0;
  }

  lemma {:induction false} CountRetained(h: seq<Remembered>, key: string)
    ensures CountFor(Retained(h), key) == if CountFor(h, key) <= PER_KEY_CAP then CountFor(h, key) else PER_KEY_CAP
  {
    if h != [] {
      CountRetained(h[1..], key);
      var kept := if CountFor(h[1..], h[0].labelKey) < PER_KEY_CAP then [h[0]] else [];
      CountConcat(Carries(key), kept, Retained(h[1..]));
    }
  }

  /** KeepNewest trims its own key to the cap and leaves the other counts alone. */
  lemma {:induction false} CountKeepNewest(s: seq<Remembered>, key: string, other: string)
    ensures CountFor(KeepNewest(s, key), other) ==
      if other == key && CountFor(s, key) > PER_KEY_CAP then PER_KEY_CAP else CountFor(s, other)
    ensures |KeepNewest(s, key)| == |s| - if CountFor(s, key) > PER_KEY_CAP then CountFor(s, key) - PER_KEY_CAP else 0
  {
    if s != [] {
      CountKeepNewest(s[1..], key, other);
      var kept := if s[0].labelKey == key && CountFor(s[1..], key) >= PER_KEY_CAP then [] else [s[0]];
      CountConcat(Carries(other), kept, KeepNewest(s[1..], key));
    }
  }

  lemma CountSuffix(a: seq<Remembered>, b: seq<Remembered>, key: string)
    requires IsSuffix(a, b)
    ensures CountFor(a, key) <= CountFor(b, key)
  {
    assert b == b[..|b| - |a|] + a;
    CountConcat(Carries(key), b[..|b| - |a|], a);
  }

  // ---------- Suffixes ----------

  lemma {:induction false} KeepNewestOfSuffix(a: seq<Remembered>, b: seq<Remembered>, key: string)
    requires IsSuffix(a, b)
    ensures IsSuffix(KeepNewest(a, key), KeepNewest(b, key))
  {
    if |a| < |b| {
      assert IsSuffix(a, b[1..]);
      KeepNewestOfSuffix(a, b[1..], key);
    } else {
      assert a == b;
    }
  }

  lemma LastNIsSuffix<T>(s: seq<T>, n: nat)
    ensures IsSuffix(LastN(s, n), s) && |LastN(s, n)| <= n
  {
  }

  /** The history gains an entry exactly as the bounded list does. */
  lemma {:induction false} RetainedStep(h: seq<Remembered>, r: Remembered)
    ensures Retained(h + [r]) == KeepNewest(Retained(h) + [r], r.labelKey)
  {
    if h == [] {
      assert h + [r] == [r] && Retained(h) + [r] == [r];
    } else {
      var t, x := h[1..], h[0];
      assert (h + [r])[1..] == t + [r];
      RetainedStep(t, r);
      CountConcat(Carries(x.labelKey), t, [r]);
      CountConcat(Carries(r.labelKey), Retained(t), [r]);
      CountRetained(t, r.labelKey);
      if CountFor(t, x.labelKey) < PER_KEY_CAP {
        assert (Retained(h) + [r])[1..] == Retained(t) + [r];
      } else {
        assert Retained(h) + [r] == Retained(t) + [r];
      }
    }
  }

  // ---------- One append against one history entry ----------

  lemma AppendRefines(s: seq<Remembered>, h: seq<Remembered>, r: Remembered)
    requires IsSuffix(s, Retained(h))
    ensures IsSuffix(Append(s, r), Retained(h + [r]))
  {
    RetainedStep(h, r);
    var q := Retained(h) + [r];
    assert q[|q| - |s| - 1..] == s + [r];
    KeepNewestOfSuffix(s + [r], q, r.labelKey);
    LastNIsSuffix(KeepNewest(s + [r], r.labelKey), GLOBAL_CAP);
    SuffixTransitive(Append(s, r), KeepNewest(s + [r], r.labelKey), Retained(h + [r]));
  }

  /** Iterated trimming is one batch trim: nothing is lost by cutting the list
      to GLOBAL_CAP before the next entry arrives. */
  lemma AppendExact(h: seq<Remembered>, r: Remembered)
    ensures Append(LastN(Retained(h), GLOBAL_CAP), r) == LastN(Retained(h + [r]), GLOBAL_CAP)
  {
    var s := LastN(Retained(h), GLOBAL_CAP);
    LastNIsSuffix(Retained(h), GLOBAL_CAP);
    RetainedStep(h, r);
    if |Retained(h)| > GLOBAL_CAP {
      var q := Retained(h) + [r];
      assert q[|q| - |s| - 1..] == s + [r];
      KeepNewestOfSuffix(s + [r], q, r.labelKey);
      TrimsAtMostOne(h, s, r);
      LastNOfSuffix(KeepNewest(s + [r], r.labelKey), KeepNewest(q, r.labelKey), GLOBAL_CAP);
    }
  }

  lemma TrimsAtMostOne(h: seq<Remembered>, s: seq<Remembered>, r: Remembered)
    requires IsSuffix(s, Retained(h))
    ensures |KeepNewest(s + [r], r.labelKey)| >= |s|
  {
    CountConcat(Carries(r.labelKey), s, [r]);
    CountSuffix(s, Retained(h), r.labelKey);
    CountRetained(h, r.labelKey);
    CountKeepNewest(s + [r], r.labelKey, r.labelKey);
  }

  lemma LastNOfSuffix<T>(a: seq<T>, b: seq<T>, n: nat)
    requires IsSuffix(a, b) && |a| >= n
    ensures LastN(a, n) == LastN(b, n)
  {
    assert b[|b| - |a|..] == a;
  }

  lemma AppendKeepsCaps(s: seq<Remembered>, r: Remembered)
    requires WithinCaps(s)
    ensures WithinCaps(Append(s, r)) && Append(s, r) != [] && Append(s, r)[|Append(s, r)| - 1] == r
  {
    var trimmed := KeepNewest(s + [r], r.labelKey);
    LastNIsSuffix(trimmed, GLOBAL_CAP);
    forall key
      ensures CountFor(Append(s, r), key) <= PER_KEY_CAP
    {
      CountSuffix(Append(s, r), trimmed, key);
      CountKeepNewest(s + [r], r.labelKey, key);
      CountConcat(Carries(key), s, [r]);
      CountOne(r, key);
      assert CountFor(s + [r], key) == CountFor(s, key) + CountFor([r], key);
    }
    NewestKept(s, r);
  }

  lemma {:induction false} NewestKept(s: seq<Remembered>, r: Remembered)
    ensures var t := KeepNewest(s + [r], r.labelKey); t != [] && t[|t| - 1] == r
  {
    if s == [] {
      assert s + [r] == [r];
    } else {
      assert (s + [r])[1..] == s[1..] + [r];
      NewestKept(s[1..], r);
    }
  }

  lemma AppendEnds(s: seq<Remembered>, r: Remembered)
    ensures Append(s, r) != [] && Append(s, r)[|Append(s, r)| - 1] == r
  {
    NewestKept(s, r);
    LastNIsSuffix(KeepNewest(s + [r], r.labelKey), GLOBAL_CAP);
  }

  // ---------- With deletions: an ordered part of the history ----------

  /** `a` arises from `b` by leaving entries out. */
  ghost predicate Subsequence<T>(a: seq<T>, b: seq<T>)
    decreases |b|
  {
    a == [] || (b != [] && (Subsequence(a, b[1..]) || (a[0] == b[0] && Subsequence(a[1..], b[1..]))))
  }

  lemma {:induction false} SubsequenceReflexive<T>(a: seq<T>)
    ensures Subsequence(a, a)
  {
    if a != [] {
      SubsequenceReflexive(a[1..]);
    }
  }

  lemma {:induction false} SubsequenceTransitive<T>(a: seq<T>, b: seq<T>, c: seq<T>)
    requires Subsequence(a, b) && Subsequence(b, c)
    ensures Subsequence(a, c)
    decreases |c|
  {
    if a != [] {
      if Subsequence(b, c[1..]) {
        SubsequenceTransitive(a, b, c[1..]);
      } else if Subsequence(a, b[1..]) {
        SubsequenceTransitive(a, b[1..], c[1..]);
      } else {
        SubsequenceTransitive(a[1..], b[1..], c[1..]);
      }
    }
  }

  lemma {:induction false} SubsequenceMember<T>(a: seq<T>, b: seq<T>, x: T)
    requires Subsequence(a, b) && x in a
    ensures x in b
    decreases |b|
  {
    if Subsequence(a, b[1..]) {
      SubsequenceMember(a, b[1..], x);
    } else if x != a[0] {
      SubsequenceMember(a[1..], b[1..], x);
    }
  }

  lemma {:induction false} SubsequenceSnoc<T>(a: seq<T>, b: seq<T>, x: T)
    requires Subsequence(a, b)
    ensures Subsequence(a + [x], b + [x])
    decreases |b|
  {
    if b == [] {
      assert a + [x] == [x] && b + [x] == [x];
      assert [x][1..] == [];
    } else {
      assert (b + [x])[1..] == b[1..] + [x];
      if Subsequence(a, b[1..]) {
        SubsequenceSnoc(a, b[1..], x);
      } else {
        assert (a + [x])[1..] == a[1..] + [x];
        SubsequenceSnoc(a[1..], b[1..], x);
      }
    }
  }

  lemma {:induction false} SuffixIsSubsequence<T>(a: seq<T>, b: seq<T>)
    requires IsSuffix(a, b)
    ensures Subsequence(a, b)
  {
    if |a| < |b| {
      assert IsSuffix(a, b[1..]);
      SuffixIsSubsequence(a, b[1..]);
    } else {
      assert a == b;
      SubsequenceReflexive(a);
    }
  }

  lemma {:induction false} KeepNewestIsSubsequence(s: seq<Remembered>, key: string)
    ensures Subsequence(KeepNewest(s, key), s)
  {
    if s != [] {
      KeepNewestIsSubsequence(s[1..], key);
      var rest := KeepNewest(s[1..], key);
      assert [] + rest == rest && ([s[0]] + rest)[1..] == rest;
    }
  }

  lemma AppendIsSubsequence(s: seq<Remembered>, h: seq<Remembered>, r: Remembered)
    requires Subsequence(s, h)
    ensures Subsequence(Append(s, r), h + [r])
  {
    var trimmed := KeepNewest(s + [r], r.labelKey);
    SubsequenceSnoc(s, h, r);
    KeepNewestIsSubsequence(s + [r], r.labelKey);
    LastNIsSuffix(trimmed, GLOBAL_CAP);
    SuffixIsSubsequence(Append(s, r), trimmed);
    SubsequenceTransitive(Append(s, r), trimmed, s + [r]);
    SubsequenceTransitive(Append(s, r), s + [r], h + [r]);
  }

  /** `s` without the entries whose id is `id`. */
  function Without(s: seq<Remembered>, id: string): seq<Remembered> {
    if s == [] then [] else (if s[0].id == id then [] else [s[0]]) + Without(s[1..], id)
  }

  lemma {:induction false} WithoutIsSubsequence(s: seq<Remembered>, id: string)
    ensures Subsequence(Without(s, id), s)
  {
    if s != [] {
      WithoutIsSubsequence(s[1..], id);
      var rest := Without(s[1..], id);
      assert [] + rest == rest && ([s[0]] + rest)[1..] == rest;
    }
  }

  lemma {:induction false} CountSubsequence(a: seq<Remembered>, b: seq<Remembered>, key: string)
    requires Subsequence(a, b)
    ensures CountFor(a, key) <= CountFor(b, key) && |a| <= |b|
    decreases |b|
  {
    if a != [] {
      if Subsequence(a, b[1..]) {
        CountSubsequence(a, b[1..], key);
      } else {
        CountSubsequence(a[1..], b[1..], key);
      }
    }
  }
}
