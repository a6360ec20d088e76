/**
 * The Python string operations the ingestion scripts depend on:
 * `str.isspace`/`str.strip`, `re.search(MARKER + "(.+)")` and `"(.*)"`,
 * line iteration over a text file, `str.endswith` and slices with
 * negative bounds.
 */
module Text {
  import opened Wrappers

  /** Python's `str.isspace()` for a single character. */
  predicate IsSpace(c: char) {
    || ('\t' <= c <= '\r')
    || ('\U{001C}' <= c <= ' ')
    || c == '\U{0085}' || c == '\U{00A0}' || c == '\U{1680}'
    || ('\U{2000}' <= c <= '\U{200A}')
    || c == '\U{2028}' || c == '\U{2029}' || c == '\U{202F}'
    || c == '\U{205F}' || c == '\U{3000}'
  }

  /** Number of leading whitespace characters of `s`. */
  function Lead(s: string): (n: nat)
    ensures n <= |s|
    ensures forall k :: 0 <= k < n ==> IsSpace(s[k])
    ensures n < |s| ==> !IsSpace(s[n])
  {
    if s == [] || !IsSpace(s[0]) then 0 else 1 + Lead(s[1..])
  }

  /** Number of trailing whitespace characters of `s`. */
  function Trail(s: string): (n: nat)
    ensures n <= |s|
    ensures forall k :: |s| - n <= k < |s| ==> IsSpace(s[k])
    ensures n < |s| ==> !IsSpace(s[|s| - 1 - n])
  {
    if s == [] || !IsSpace(s[|s| - 1]) then 0 else 1 + Trail(s[..|s| - 1])
  }

  /** Python's `str.strip()`. */
  function Strip(s: string): string {
    var t := s[Lead(s)..];
    t[..|t| - Trail(t)]
  }

  /**
   * What `strip` promises: the result is the slice of `s` that starts at
   * its first non-whitespace character, everything cut off is whitespace,
   * and the result neither starts nor ends with whitespace.
   */
  lemma StripSpec(s: string)
    ensures var r := Strip(s);
      && Lead(s) + |r| <= |s| && r == s[Lead(s) .. Lead(s) + |r|]
      && (forall k :: Lead(s) + |r| <= k < |s| ==> IsSpace(s[k]))
      && (r != [] ==> !IsSpace(r[0]) && !IsSpace(r[|r| - 1]))
      && (r == [] <==> forall k :: 0 <= k < |s| ==> IsSpace(s[k]))
  {
    StripSlice(s);
    StripCutsSpace(s);
    StripEnds(s);
    StripEmpty(s);
  }

  lemma StripSlice(s: string)
    ensures Lead(s) + |Strip(s)| <= |s| && Strip(s) == s[Lead(s) .. Lead(s) + |Strip(s)|]
  {
    var t := s[Lead(s)..];
    assert Strip(s) == t[..|t| - Trail(t)];
  }

  lemma StripCutsSpace(s: string)
    ensures forall k :: Lead(s) + |Strip(s)| <= k < |s| ==> IsSpace(s[k])
  {
    var lead := Lead(s);
    var t := s[lead..];
    var trail := Trail(t);
    assert |Strip(s)| == |t| - trail;
    assert forall i :: |t| - trail <= i < |t| ==> IsSpace(t[i]);
    forall k | |s| - trail <= k < |s| ensures IsSpace(s[k]) {
      assert s[k] == t[k - lead];
    }
  }

  lemma StripEnds(s: string)
    ensures Strip(s) != [] ==> !IsSpace(Strip(s)[0]) && !IsSpace(Strip(s)[|Strip(s)| - 1])
  {
    var t := s[Lead(s)..];
    var r := Strip(s);
    if r != [] {
      assert r[0] == t[0];
      assert r[|r| - 1] == t[|t| - 1 - Trail(t)];
    }
  }

  lemma StripEmpty(s: string)
    ensures Strip(s) == [] <==> forall k :: 0 <= k < |s| ==> IsSpace(s[k])
  {
    StripSlice(s);
    StripCutsSpace(s);
    if Strip(s) != [] {
      StripEnds(s);
      assert !IsSpace(s[Lead(s)]);
    }
  }

  lemma StripIdempotent(s: string)
    ensures Strip(Strip(s)) == Strip(s)
  {
    var r := Strip(s);
    StripSpec(s);
    assert Lead(r) == 0;
    assert Trail(r) == 0;
  }

  /** A stripped string has no character its source does not have. */
  lemma StripKeepsOut(s: string, c: char)
    requires c !in s
    ensures c !in Strip(s)
  {
    var r := Strip(s);
    StripSpec(s);
    forall k | 0 <= k < |r| ensures r[k] != c {
      assert r[k] == s[Lead(s) + k];
    }
  }

  /** Index of the first `'\n'` at or after `j`, or `|s|` when there is none. */
  function LineEnd(s: string, j: nat): (e: nat)
    requires j <= |s|
    ensures j <= e <= |s|
    ensures e < |s| ==> s[e] == '\n'
    ensures NoBreak(s, j, e)
    decreases |s| - j
  {
    if j == |s| || s[j] == '\n' then j else LineEnd(s, j + 1)
  }

  predicate NoBreak(s: string, a: nat, e: nat)
    requires a <= e <= |s|
  {
    forall k :: a <= k < e ==> s[k] != '\n'
  }

  /** The two capture groups the scripts use: `(.+)` and `(.*)`. */
  datatype Repeat = OneOrMore | ZeroOrMore

  /**
   * `marker` followed by the group can match at index `i` of `s`: the
   * marker is there and, for `(.+)`, at least one character other than
   * `'\n'` follows it.
   */
  predicate MatchesAt(marker: string, s: string, i: nat, rep: Repeat) {
    && i + |marker| <= |s|
    && s[i .. i + |marker|] == marker
    && (rep == OneOrMore ==> i + |marker| < |s| && s[i + |marker|] != '\n')
  }

  /** The leftmost index at or after `from` where the pattern matches. */
  function FirstMatch(marker: string, s: string, rep: Repeat, from: nat): (r: Option<nat>)
    ensures r.Some? ==> from <= r.value && MatchesAt(marker, s, r.value, rep)
    ensures forall i :: from <= i && (r.None? || i < r.value) ==> !MatchesAt(marker, s, i, rep)
    decreases |s| + 1 - from
  {
    if from > |s| then None
    else if MatchesAt(marker, s, from, rep) then Some(from)
    else FirstMatch(marker, s, rep, from + 1)
  }

  /**
   * `re.search(marker + "(.+)", s)` (or `"(.*)"`) and its `group(1)`:
   * the greedy group runs from the end of the leftmost marker match to
   * the next line break or the end of the text.
   */
  function Search(marker: string, s: string, rep: Repeat): (r: Option<string>)
    ensures r.Some? <==> exists i: nat :: MatchesAt(marker, s, i, rep)
    ensures r.Some? ==> '\n' !in r.value && (rep == OneOrMore ==> r.value != [])
  {
    match FirstMatch(marker, s, rep, 0)
    case None => None
    case Some(i) =>
      var e := LineEnd(s, i + |marker|);
      NoNewlineIn(s, i + |marker|, e);
      Some(s[i + |marker| .. e])
  }

  lemma NoNewlineIn(s: string, a: nat, e: nat)
    requires a <= e <= |s|
    requires forall k :: a <= k < e ==> s[k] != '\n'
    ensures '\n' !in s[a..e]
  {
    forall k | 0 <= k < e - a ensures s[a..e][k] != '\n' {
      assert s[a..e][k] == s[a + k];
    }
  }

  /** The group found at the leftmost match `i` is the rest of that line. */
  lemma SearchAt(marker: string, s: string, rep: Repeat, i: nat)
    requires MatchesAt(marker, s, i, rep)
    requires forall j :: 0 <= j < i ==> !MatchesAt(marker, s, j, rep)
    ensures Search(marker, s, rep) == Some(s[i + |marker| .. LineEnd(s, i + |marker|)])
  {
    var f := FirstMatch(marker, s, rep, 0);
    assert f.Some? && f.value == i;
  }

  /** `match.group(1).strip()` when the pattern matches. */
  function Field(marker: string, s: string, rep: Repeat): (r: Option<string>)
    ensures r.Some? <==> exists i: nat :: MatchesAt(marker, s, i, rep)
    ensures r.Some? ==> '\n' !in r.value && r.value == Strip(r.value)
  {
    match Search(marker, s, rep)
    case None => None
    case Some(g) =>
      StripKeepsOut(g, '\n');
      StripIdempotent(g);
      Some(Strip(g))
  }

  /** Python's `s.endswith(suffix)`. */
  predicate EndsWith(s: string, suffix: string) {
    |suffix| <= |s| && s[|s| - |suffix|..] == suffix
  }

  /** Python's `s[-a:-b]` for `a, b > 0`: both bounds are clamped at 0. */
  function SliceFromEnd(s: string, a: nat, b: nat): (r: string)
    requires b < a
    ensures |s| >= a ==> r == s[|s| - a .. |s| - b]
    ensures |s| < a ==> |r| < a - b
  {
    var start := if |s| >= a then |s| - a else 0;
    var stop := if |s| >= b then |s| - b else 0;
    s[start..stop]
  }

  /**
   * The lines `for line in f` yields for a file whose text is `t`: each
   * line keeps its `'\n'`; a last line without one is yielded too.
   */
  function Lines(t: string): (ls: seq<string>)
    decreases |t|
  {
    if t == [] then []
    else
      var k := LineEnd(t, 0);
      if k < |t| then [t[..k + 1]] + Lines(t[k + 1..]) else [t]
  }

  /** A text that is empty or ends with a line break: appending to it starts a new line. */
  predicate EndsLine(t: string) {
    t == [] || t[|t| - 1] == '\n'
  }

  lemma LineEndInPrefix(t: string, u: string, j: nat)
    requires j <= |t| && LineEnd(t, j) < |t|
    ensures LineEnd(t + u, j) == LineEnd(t, j)
    decreases |t| - j
  {
    if t[j] != '\n' {
      LineEndInPrefix(t, u, j + 1);
    }
  }

  /** Lines of a concatenation, when the first part ends a line. */
  lemma {:induction false} LinesAppend(t: string, u: string)
    requires EndsLine(t)
    ensures Lines(t + u) == Lines(t) + Lines(u)
    decreases |t|
  {
    if t == [] {
      assert t + u == u;
    } else {
      var k := LineEnd(t, 0);
      assert k < |t|;
      LineEndInPrefix(t, u, 0);
      var rest := t[k + 1..];
      assert EndsLine(rest);
      LinesAppend(rest, u);
      ConcatSlices(t, u, k + 1);
      LinesFirst(t + u, k);
      LinesFirst(t, k);
      SeqAssociative([t[..k + 1]], Lines(rest), Lines(u));
    }
  }

  lemma ConcatSlices(t: string, u: string, n: nat)
    requires n <= |t|
    ensures (t + u)[..n] == t[..n] && (t + u)[n..] == t[n..] + u
  {
  }

  /** `Lines` splits off the first line, ending at index `k`. */
  lemma LinesFirst(s: string, k: nat)
    requires s != [] && k == LineEnd(s, 0) && k < |s|
    ensures Lines(s) == [s[..k + 1]] + Lines(s[k + 1..])
  {
  }

  lemma SeqAssociative<T>(a: seq<T>, b: seq<T>, c: seq<T>)
    ensures a + (b + c) == (a + b) + c
  {
  }

  /** A text holding exactly one line break, at its end, is one line. */
  lemma SingleLine(t: string)
    requires t != [] && t[|t| - 1] == '\n'
    requires forall k :: 0 <= k < |t| - 1 ==> t[k] != '\n'
    ensures Lines(t) == [t]
  {
    assert LineEnd(t, 0) == |t| - 1;
    assert t[|t|..] == [];
    assert t[..|t|] == t;
  }
}
