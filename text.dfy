/**
 * Plain string operations of Python that the ingestion scripts rely on:
 * substring membership (`k in s`), `str.replace`, `str.strip` and
 * `str.split` with a one-character separator.
 */
module Text {

  /** `k` is a prefix of `s`. */
  predicate HasPrefix(s: string, k: string) {
    |k| <= |s| && s[..|k|] == k
  }

  /** Python's `k in s` on strings: `k` occurs somewhere in `s`. */
  predicate Occurs(s: string, k: string)
    decreases |s|
  {
    HasPrefix(s, k) || (|s| > 0 && Occurs(s[1..], k))
  }

  /** No character of `v` occurs anywhere in `w`. */
  predicate Avoids(v: string, w: string) {
    forall i :: 0 <= i < |v| ==> v[i] !in w
  }

  lemma {:induction false} OccursLength(s: string, k: string)
    requires Occurs(s, k)
    ensures |k| <= |s|
    decreases |s|
  {
    if !HasPrefix(s, k) {
      OccursLength(s[1..], k);
    }
  }

  /**
   * Python's `s.replace(k, v)` for a non-empty `k`: every non-overlapping
   * occurrence of `k`, scanning from the left, is replaced by `v`.
   */
  function ReplaceAll(s: string, k: string, v: string): (r: string)
    requires |k| > 0
    ensures !Occurs(s, k) ==> r == s
    decreases |s|
  {
    if |s| < |k| then s
    else if s[..|k|] == k then v + ReplaceAll(s[|k|..], k, v)
    else
      var rest := ReplaceAll(s[1..], k, v);
      assert !Occurs(s, k) ==> rest == s[1..] && [s[0]] + s[1..] == s;
      [s[0]] + rest
  }

  /** Prefixing characters that do not occur in `w` cannot create an occurrence of `w`. */
  lemma {:induction false} PrependAvoiding(a: string, t: string, w: string)
    requires |w| > 0 && Avoids(a, w) && !Occurs(t, w)
    ensures !Occurs(a + t, w)
    decreases |a|
  {
    if |a| == 0 {
      assert a + t == t;
    } else {
      PrependAvoiding(a[1..], t, w);
      assert (a + t)[1..] == a[1..] + t;
      assert (a + t)[0] == a[0] && a[0] !in w;
    }
  }

  /**
   * A prefix of `ReplaceAll(t, k, v)` that shares no character with `v`
   * was already a prefix of `t`.
   */
  lemma {:induction false} PrefixThroughReplace(t: string, k: string, v: string, w: string)
    requires |k| > 0 && |v| > 0 && Avoids(v, w)
    ensures HasPrefix(ReplaceAll(t, k, v), w) ==> HasPrefix(t, w)
    decreases |t|
  {
    var r := ReplaceAll(t, k, v);
    if |w| == 0 || |t| < |k| {
    } else if t[..|k|] == k {
      // `r` starts with `v[0]`, which `w` cannot start with
      assert r[0] == v[0] && v[0] !in w;
    } else if HasPrefix(r, w) {
      var r1 := ReplaceAll(t[1..], k, v);
      assert r == [t[0]] + r1;
      assert r1[..|w| - 1] == w[1..];
      PrefixThroughReplace(t[1..], k, v, w[1..]);
      assert t[..|w|] == [t[0]] + t[1..][..|w| - 1];
    }
  }

  /**
   * Replacing `k` by a non-empty `v` creates no occurrence of any `w` that
   * shares no character with `v`, and leaves no occurrence of `k` itself
   * when `v` shares no character with `k`.
   */
  lemma {:induction false} ReplaceCreatesNothing(s: string, k: string, v: string, w: string)
    requires |k| > 0 && |v| > 0 && |w| > 0 && Avoids(v, w)
    ensures Occurs(ReplaceAll(s, k, v), w) ==> Occurs(s, w) && w != k
    decreases |s|
  {
    var r := ReplaceAll(s, k, v);
    if !Occurs(r, w) {
    } else if |s| < |k| {
      if w == k {
        OccursLength(s, k);
      }
    } else if s[..|k|] == k {
      var rest := ReplaceAll(s[|k|..], k, v);
      assert r == v + rest;
      if !Occurs(rest, w) {
        PrependAvoiding(v, rest, w);
      }
      ReplaceCreatesNothing(s[|k|..], k, v, w);
      OccursSuffix(s, |k|, w);
    } else {
      var rest := ReplaceAll(s[1..], k, v);
      assert r == [s[0]] + rest;
      if HasPrefix(r, w) {
        PrefixThroughReplace(s, k, v, w);
      } else {
        assert r[1..] == rest;
        ReplaceCreatesNothing(s[1..], k, v, w);
      }
    }
  }

  lemma {:induction false} OccursSuffix(s: string, j: nat, w: string)
    requires j <= |s| && Occurs(s[j..], w)
    ensures Occurs(s, w)
    decreases j
  {
    if j > 0 {
      assert s[1..][j - 1..] == s[j..];
      OccursSuffix(s[1..], j - 1, w);
    }
  }

  /** After `s.replace(k, v)` with `v` sharing no character with `k`, `k` no longer occurs. */
  lemma ReplaceRemovesKey(s: string, k: string, v: string)
    requires |k| > 0 && |v| > 0 && Avoids(v, k)
    ensures !Occurs(ReplaceAll(s, k, v), k)
  {
    ReplaceCreatesNothing(s, k, v, k);
  }

  /** Python's `str.isspace()` for one character: the characters `str.strip()` removes. */
  predicate IsSpace(c: char) {
    c == ' ' || ('\t' <= c <= '\r') || ('\U{001C}' <= c <= '\U{001F}')
    || c == '\U{0085}' || c == '\U{00A0}' || c == '\U{1680}'
    || ('\U{2000}' <= c <= '\U{200A}') || c == '\U{2028}' || c == '\U{2029}'
    || c == '\U{202F}' || c == '\U{205F}' || c == '\U{3000}'
  }

  predicate AllSpace(s: string) {
    forall i :: 0 <= i < |s| ==> IsSpace(s[i])
  }

  /** Python's `s.lstrip()`: `s` without its leading whitespace. */
  function TrimStart(s: string): string
    decreases |s|
  {
    if |s| > 0 && IsSpace(s[0]) then TrimStart(s[1..]) else s
  }

  /** `s.lstrip()` is the longest suffix of `s` that does not start with whitespace. */
  lemma {:induction false} TrimStartShape(s: string)
    ensures |TrimStart(s)| <= |s| && TrimStart(s) == s[|s| - |TrimStart(s)|..]
    ensures AllSpace(s[..|s| - |TrimStart(s)|])
    ensures TrimStart(s) == [] || !IsSpace(TrimStart(s)[0])
    decreases |s|
  {
    if |s| > 0 && IsSpace(s[0]) {
      TrimStartShape(s[1..]);
      var n := |s| - |TrimStart(s)|;
      assert s[..n] == [s[0]] + s[1..][..n - 1];
    }
  }

  /** Python's `s.rstrip()`: `s` without its trailing whitespace. */
  function TrimEnd(s: string): string
    decreases |s|
  {
    if |s| > 0 && IsSpace(s[|s| - 1]) then TrimEnd(s[..|s| - 1]) else s
  }

  /** `s.rstrip()` is the longest prefix of `s` that does not end with whitespace. */
  lemma {:induction false} TrimEndShape(s: string)
    ensures |TrimEnd(s)| <= |s| && TrimEnd(s) == s[..|TrimEnd(s)|]
    ensures AllSpace(s[|TrimEnd(s)|..])
    ensures TrimEnd(s) == [] || !IsSpace(TrimEnd(s)[|TrimEnd(s)| - 1])
    decreases |s|
  {
    if |s| > 0 && IsSpace(s[|s| - 1]) {
      TrimEndShape(s[..|s| - 1]);
      var n := |TrimEnd(s)|;
      assert s[n..] == s[..|s| - 1][n..] + [s[|s| - 1]];
    }
  }

  /** Python's `s.strip()`: `s` without its leading and trailing whitespace. */
  function Strip(s: string): string {
    TrimEnd(TrimStart(s))
  }

  /** `s.strip()` neither starts nor ends with whitespace. */
  lemma StripEnds(s: string)
    ensures Strip(s) == [] || (!IsSpace(Strip(s)[0]) && !IsSpace(Strip(s)[|Strip(s)| - 1]))
  {
    var t := TrimStart(s);
    TrimStartShape(s);
    TrimEndShape(t);
    var r := TrimEnd(t);
    if r != [] {
      assert r[0] == t[0];
    }
  }

  /** `s.strip()` is the slice `s[i..j]` with only whitespace outside it. */
  lemma StripSlice(s: string)
    ensures exists i, j :: 0 <= i <= j <= |s| && Strip(s) == s[i..j] && AllSpace(s[..i]) && AllSpace(s[j..])
  {
    var t := TrimStart(s);
    TrimStartShape(s);
    TrimEndShape(t);
    var r := TrimEnd(t);
    var i, j := |s| - |t|, |s| - |t| + |r|;
    assert r == s[i..j];
    assert s[j..] == t[|r|..];
  }

  /** Position of the first `c` in `s`, or `|s|` when there is none. */
  function IndexOf(s: string, c: char): (i: nat)
    ensures i <= |s| && (i < |s| ==> s[i] == c)
    ensures forall j :: 0 <= j < i ==> s[j] != c
    decreases |s|
  {
    if |s| == 0 then 0 else if s[0] == c then 0 else 1 + IndexOf(s[1..], c)
  }

  /** Python's `s.split(c)` for a one-character separator. */
  function Split(s: string, c: char): (parts: seq<string>)
    ensures |parts| >= 1
    ensures forall p :: p in parts ==> c !in p
    ensures (c in s) <==> |parts| >= 2
    decreases |s|
  {
    var i := IndexOf(s, c);
    if i == |s| then [s] else [s[..i]] + Split(s[i + 1..], c)
  }

  /** Python's `c.join(parts)`. */
  function Join(parts: seq<string>, c: char): string
    requires |parts| >= 1
  {
    if |parts| == 1 then parts[0] else parts[0] + [c] + Join(parts[1..], c)
  }

  /** Splitting a join of separator-free pieces gives the pieces back. */
  lemma {:induction false} SplitJoin(parts: seq<string>, c: char)
    requires |parts| >= 1 && forall p :: p in parts ==> c !in p
    ensures Split(Join(parts, c), c) == parts
    decreases |parts|
  {
    var s := Join(parts, c);
    if |parts| == 1 {
      assert c !in s;
    } else {
      var tail := Join(parts[1..], c);
      assert s == parts[0] + [c] + tail;
      IndexOfConcat(parts[0], c, tail);
      assert s[..|parts[0]|] == parts[0];
      assert s[|parts[0]| + 1..] == tail;
      SplitJoin(parts[1..], c);
    }
  }

  lemma {:induction false} IndexOfConcat(a: string, c: char, b: string)
    requires c !in a
    ensures IndexOf(a + [c] + b, c) == |a|
    decreases |a|
  {
    if |a| > 0 {
      assert (a + [c] + b)[1..] == a[1..] + [c] + b;
      IndexOfConcat(a[1..], c, b);
    }
  }

  /** Splitting `a + [c] + b` at `c`, neither part holding `c`, gives the two parts. */
  lemma SplitPair(a: string, c: char, b: string)
    requires c !in a && c !in b
    ensures Split(a + [c] + b, c) == [a, b]
    ensures c in a + [c] + b
  {
    assert Join([a, b], c) == a + [c] + b by {
      assert Join([b], c) == b;
    }
    SplitJoin([a, b], c);
    assert (a + [c] + b)[|a|] == c;
  }
}
