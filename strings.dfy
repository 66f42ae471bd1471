/** The Python `str` operations the bot relies on: substring search, `split`,
    `strip`, `startswith` (written `p <= s`, Dafny's prefix test) and `join`. */
module Strings {
  import opened Outcomes

  /** Python's `str.isspace()` for one character: the characters that
      `strip()` removes and `split()` splits on. */
  predicate IsSpace(c: char) {
    || c == ' ' || c == '\t' || c == '\n' || c == '\r'
    || c == '\U{0B}' || c == '\U{0C}'
    || ('\U{1C}' <= c <= '\U{1F}')
    || c == '\U{85}' || c == '\U{A0}' || c == '\U{1680}'
    || ('\U{2000}' <= c <= '\U{200A}')
    || c == '\U{2028}' || c == '\U{2029}' || c == '\U{202F}' || c == '\U{205F}' || c == '\U{3000}'
  }

  /** Printable ASCII other than the space is never whitespace. */
  lemma PrintableNotSpace(c: char)
    requires '!' <= c <= '~'
    ensures !IsSpace(c)
  {
  }

  /** `p` occurs in `s` starting at index `i`. */
  predicate OccursAt(s: string, p: string, i: nat) {
    i + |p| <= |s| && s[i..i + |p|] == p
  }

  /** The first index at or after `i` where `p` occurs in `s` (`s.find(p, i)`). */
  function FirstIndexFrom(s: string, p: string, i: nat): (r: Option<nat>)
    ensures r.Some? ==> i <= r.value && OccursAt(s, p, r.value)
    ensures r.Some? ==> forall j :: i <= j < r.value ==> !OccursAt(s, p, j)
    ensures r.None? ==> forall j :: i <= j ==> !OccursAt(s, p, j)
    decreases |s| - i
  {
    if i + |p| > |s| then None
    else if s[i..i + |p|] == p then Some(i)
    else FirstIndexFrom(s, p, i + 1)
  }

  function FirstIndex(s: string, p: string): Option<nat> {
    FirstIndexFrom(s, p, 0)
  }

  /** Python's `p in s` for two strings. */
  predicate Contains(s: string, p: string) {
    FirstIndex(s, p).Some?
  }

  lemma ContainsAt(s: string, p: string, i: nat)
    requires OccursAt(s, p, i)
    ensures Contains(s, p)
  {
  }

  lemma NotContainsAt(s: string, p: string, i: nat)
    requires !Contains(s, p)
    ensures !OccursAt(s, p, i)
  {
  }

  /** `s.split(c)[0]`: the text before the first `c`, or all of `s`. */
  function BeforeChar(s: string, c: char): (r: string)
    ensures r <= s && c !in r
    ensures |r| < |s| ==> s[|r|] == c
  {
    if s == [] then []
    else if s[0] == c then []
    else [s[0]] + BeforeChar(s[1..], c)
  }

  /** The text before `c` is `s[..k]` when `k` is the first index of `c`. */
  lemma BeforeCharAt(s: string, c: char, k: nat)
    requires k < |s| && s[k] == c && forall j :: 0 <= j < k ==> s[j] != c
    ensures BeforeChar(s, c) == s[..k]
  {
  }

  /** The same, when the first `c` lies in the front part of a concatenation. */
  lemma BeforeCharInFront(a: string, b: string, c: char, k: nat)
    requires k < |a| && a[k] == c && c !in a[..k]
    ensures BeforeChar(a + b, c) == a[..k]
  {
    assert forall j :: 0 <= j < k ==> (a + b)[j] == a[..k][j];
    BeforeCharAt(a + b, c, k);
    assert (a + b)[..k] == a[..k];
  }

  lemma BeforeCharAbsent(s: string, c: char)
    requires c !in s
    ensures BeforeChar(s, c) == s
  {
  }

  /** The text before the first character of `s` that is in `stops`. */
  function BeforeAny(s: string, stops: set<char>): (r: string)
    ensures r <= s && forall k :: 0 <= k < |r| ==> r[k] !in stops
    ensures |r| < |s| ==> s[|r|] in stops
  {
    if s == [] then []
    else if s[0] in stops then []
    else [s[0]] + BeforeAny(s[1..], stops)
  }

  lemma BeforeAnyAt(s: string, stops: set<char>, k: nat)
    requires k < |s| && s[k] in stops && forall j :: 0 <= j < k ==> s[j] !in stops
    ensures BeforeAny(s, stops) == s[..k]
  {
  }

  lemma BeforeAnyInFront(a: string, b: string, stops: set<char>, k: nat)
    requires k < |a| && a[k] in stops && forall j :: 0 <= j < k ==> a[j] !in stops
    ensures BeforeAny(a + b, stops) == a[..k]
  {
    BeforeAnyAt(a + b, stops, k);
    assert (a + b)[..k] == a[..k];
  }

  /** `s.split(c, 1)[1]` when `c` occurs in `s`: the text after the first `c`. */
  function AfterChar(s: string, c: char): (r: Option<string>)
    ensures r.None? <==> c !in s
    ensures r.Some? ==> s == BeforeChar(s, c) + [c] + r.value
  {
    var head := BeforeChar(s, c);
    if |head| == |s| then None
    else
      assert s == head + [c] + s[|head| + 1..];
      Some(s[|head| + 1..])
  }

  lemma OccursInSuffix(s: string, p: string, m: nat, j: nat)
    requires m <= |s| && OccursAt(s[m..], p, j)
    ensures OccursAt(s, p, m + j)
  {
    assert s[m + j..m + j + |p|] == s[m..][j..j + |p|];
  }

  /** The postcondition of `AfterLast` for `r`, the text it returns for `s`. */
  predicate IsAfterLast(s: string, p: string, r: string) {
    && |r| <= |s| && r == s[|s| - |r|..]
    && !Contains(r, p)
    && (Contains(s, p) ==> |r| + |p| <= |s| && OccursAt(s, p, |s| - |r| - |p|))
    && (!Contains(s, p) ==> r == s)
  }

  /** A suffix of a suffix of `s` is a suffix of `s`. */
  lemma SuffixOfSuffix(s: string, m: nat, r: string)
    requires m <= |s| && |r| <= |s| - m && r == s[m..][|s| - m - |r|..]
    ensures |r| <= |s| && r == s[|s| - |r|..]
  {
    assert s[m..][|s| - m - |r|..] == s[|s| - |r|..];
  }

  /** Where the last occurrence lies, given where it lies in the rest after
      the first occurrence at `k`. */
  lemma LastOccurrence(s: string, p: string, k: nat, r: string)
    requires OccursAt(s, p, k) && |r| <= |s| - k - |p|
    requires var rest := s[k + |p|..];
             (Contains(rest, p) ==> |r| + |p| <= |rest| && OccursAt(rest, p, |rest| - |r| - |p|))
             && (!Contains(rest, p) ==> r == rest)
    ensures |r| + |p| <= |s| && OccursAt(s, p, |s| - |r| - |p|)
  {
    var rest := s[k + |p|..];
    if Contains(rest, p) {
      OccursInSuffix(s, p, k + |p|, |rest| - |r| - |p|);
    } else {
      assert |r| == |rest|;
    }
  }

  lemma AfterLastStep(s: string, p: string, k: nat, r: string)
    requires p != [] && FirstIndex(s, p) == Some(k)
    requires IsAfterLast(s[k + |p|..], p, r)
    ensures IsAfterLast(s, p, r)
  {
    assert OccursAt(s, p, k);
    SuffixOfSuffix(s, k + |p|, r);
    LastOccurrence(s, p, k, r);
  }

  /** `s.split(p)[-1]`: the text after the last occurrence of `p` found by
      Python's left-to-right scan, or all of `s` when `p` does not occur. */
  function AfterLast(s: string, p: string): (r: string)
    requires p != []
    ensures IsAfterLast(s, p, r)
    decreases |s|
  {
    match FirstIndex(s, p)
    case None => s
    case Some(k) =>
      var r := AfterLast(s[k + |p|..], p);
      AfterLastStep(s, p, k, r);
      r
  }

  /** `s.split(c)`: the pieces between the occurrences of `c`. */
  function SplitOn(s: string, c: char): (r: seq<string>)
    ensures |r| >= 1
    ensures forall k :: 0 <= k < |r| ==> c !in r[k]
    ensures Join(r, [c]) == s
    decreases |s|
  {
    match AfterChar(s, c)
    case None => [s]
    case Some(rest) => [BeforeChar(s, c)] + SplitOn(rest, c)
  }

  /** `sep.join(parts)`. */
  function Join(parts: seq<string>, sep: string): string
  {
    if |parts| == 0 then ""
    else if |parts| == 1 then parts[0]
    else parts[0] + sep + Join(parts[1..], sep)
  }

  /** `s.lstrip()`. */
  function TrimLeft(s: string): (r: string)
    ensures |r| <= |s| && r == s[|s| - |r|..]
    ensures forall k :: 0 <= k < |s| - |r| ==> IsSpace(s[k])
    ensures r != [] ==> !IsSpace(r[0])
    ensures s == [] || !IsSpace(s[0]) ==> r == s
  {
    if s != [] && IsSpace(s[0]) then TrimLeft(s[1..]) else s
  }

  /** `s.rstrip()`. */
  function TrimRight(s: string): (r: string)
    ensures r <= s
    ensures forall k :: |r| <= k < |s| ==> IsSpace(s[k])
    ensures r != [] ==> !IsSpace(r[|r| - 1])
    ensures s == [] || !IsSpace(s[|s| - 1]) ==> r == s
  {
    if s != [] && IsSpace(s[|s| - 1]) then TrimRight(s[..|s| - 1]) else s
  }

  /** `r` is `s[i..i + |r|]`, and everything of `s` outside it is whitespace. */
  predicate TrimmedAt(s: string, r: string, i: nat) {
    && i + |r| <= |s| && r == s[i..i + |r|]
    && (forall k :: 0 <= k < i ==> IsSpace(s[k]))
    && (forall k :: i + |r| <= k < |s| ==> IsSpace(s[k]))
  }

  /** `r` is what `s.strip()` returns: a cut of `s` with only whitespace
      around it, with non-space ends, and `s` itself when its ends are not
      whitespace. */
  ghost predicate IsStripOf(s: string, r: string) {
    && (exists i :: TrimmedAt(s, r, i))
    && (r != [] ==> !IsSpace(r[0]) && !IsSpace(r[|r| - 1]))
    && ((s == [] || (!IsSpace(s[0]) && !IsSpace(s[|s| - 1]))) ==> r == s)
  }

  /** `s.strip()`: `s` with only the whitespace at its two ends taken off. */
  function Strip(s: string): (r: string)
    ensures IsStripOf(s, r)
  {
    TrimBothEnds(s);
    TrimRight(TrimLeft(s))
  }

  lemma TrimBothEnds(s: string)
    ensures IsStripOf(s, TrimRight(TrimLeft(s)))
  {
    var t := TrimLeft(s);
    StripOfTrims(s, t, TrimRight(t));
  }

  lemma StripOfTrims(s: string, t: string, r: string)
    requires |t| <= |s| && t == s[|s| - |t|..]
    requires forall k :: 0 <= k < |s| - |t| ==> IsSpace(s[k])
    requires t != [] ==> !IsSpace(t[0])
    requires s == [] || !IsSpace(s[0]) ==> t == s
    requires r <= t
    requires forall k :: |r| <= k < |t| ==> IsSpace(t[k])
    requires r != [] ==> !IsSpace(r[|r| - 1])
    requires t == [] || !IsSpace(t[|t| - 1]) ==> r == t
    ensures IsStripOf(s, r)
  {
    TrimmedBetween(s, t, r);
  }

  /** Taking leading whitespace off `s` to get `t`, then trailing whitespace
      off `t` to get `r`, leaves `r` with only whitespace around it in `s`. */
  lemma TrimmedBetween(s: string, t: string, r: string)
    requires |t| <= |s| && t == s[|s| - |t|..]
    requires forall k :: 0 <= k < |s| - |t| ==> IsSpace(s[k])
    requires r <= t && forall k :: |r| <= k < |t| ==> IsSpace(t[k])
    ensures TrimmedAt(s, r, |s| - |t|)
  {
    assert t[..|r|] == s[|s| - |t|..|s| - |t| + |r|];
    forall k | |s| - |t| + |r| <= k < |s| ensures IsSpace(s[k]) {
      assert s[k] == t[k - (|s| - |t|)];
    }
  }

  /** A cut with only whitespace around it starts where `s` does when `s`
      starts with a non-space character. */
  lemma TrimmedAtStart(s: string, r: string, i: nat)
    requires TrimmedAt(s, r, i) && s != [] && !IsSpace(s[0])
    ensures i == 0 && r != [] && r[0] == s[0]
  {
  }

  /** `strip()` keeps a first character that is not whitespace. */
  lemma StripKeepsFirst(s: string)
    requires s != [] && !IsSpace(s[0])
    ensures Strip(s) != [] && Strip(s)[0] == s[0]
  {
    var i: nat :| TrimmedAt(s, Strip(s), i);
    TrimmedAtStart(s, Strip(s), i);
  }

  /** Text with non-space ends is the only cut of `s` that leaves only
      whitespace around it. */
  lemma TrimmedAtUnique(s: string, r: string, i: nat, core: string, j: nat)
    requires TrimmedAt(s, r, i) && TrimmedAt(s, core, j)
    requires r != [] ==> !IsSpace(r[0]) && !IsSpace(r[|r| - 1])
    requires core != [] && !IsSpace(core[0]) && !IsSpace(core[|core| - 1])
    ensures r == core
  {
    assert s[j] == core[0];
    assert s[j + |core| - 1] == core[|core| - 1];
    assert i <= j < i + |r|;
    assert s[i] == r[0] && s[i + |r| - 1] == r[|r| - 1];
    assert i == j;
    assert i + |r| == j + |core|;
  }

  /** The stripped text is the part of `s` between its first and last
      non-space characters. */
  lemma StripAround(ws: string, core: string, ws2: string)
    requires AllSpace(ws) && AllSpace(ws2)
    requires core != [] && !IsSpace(core[0]) && !IsSpace(core[|core| - 1])
    ensures Strip(ws + core + ws2) == core
  {
    var s := ws + core + ws2;
    var i :| TrimmedAt(s, Strip(s), i);
    assert s[|ws|..|ws| + |core|] == core;
    forall k | |ws| + |core| <= k < |s| ensures IsSpace(s[k]) {
      assert s[k] == ws2[k - |ws| - |core|];
    }
    assert TrimmedAt(s, core, |ws|);
    TrimmedAtUnique(s, Strip(s), i, core, |ws|);
  }

  /** The leading run of non-space characters of `s`. */
  function Word(s: string): (r: string)
    ensures r <= s && forall k :: 0 <= k < |r| ==> !IsSpace(r[k])
    ensures |r| < |s| ==> IsSpace(s[|r|])
  {
    if s == [] || IsSpace(s[0]) then [] else [s[0]] + Word(s[1..])
  }

  /** A non-empty run of non-space characters. */
  predicate IsWord(w: string) {
    w != [] && forall j :: 0 <= j < |w| ==> !IsSpace(w[j])
  }

  /** Whitespace only. */
  predicate AllSpace(g: string) {
    forall k :: 0 <= k < |g| ==> IsSpace(g[k])
  }

  /** `gaps[0] + pieces[0] + gaps[1] + ... + pieces[m - 1] + gaps[m]`. */
  function Interleave(gaps: seq<string>, pieces: seq<string>): string
    requires |gaps| == |pieces| + 1
  {
    if pieces == [] then gaps[0] else gaps[0] + pieces[0] + Interleave(gaps[1..], pieces[1..])
  }

  /** `s` is `pieces` with whitespace `gaps` around and between them; the
      gap between two pieces is never empty. */
  predicate SeparatedBy(s: string, gaps: seq<string>, pieces: seq<string>) {
    && |gaps| == |pieces| + 1
    && s == Interleave(gaps, pieces)
    && (forall k :: 0 <= k < |gaps| ==> AllSpace(gaps[k]))
    && (forall k :: 0 < k < |pieces| ==> gaps[k] != [])
  }

  /** `s` is `pieces` separated by whitespace, and when there are `n + 1`
      pieces nothing follows the last one. */
  ghost predicate SplitsAs(s: string, pieces: seq<string>, n: nat) {
    exists gaps {:trigger SeparatedBy(s, gaps, pieces)} :: SeparatedBy(s, gaps, pieces) && (|pieces| == n + 1 ==> gaps[n + 1] == [])
  }

  /** Putting a piece and its leading whitespace in front of a separated text. */
  lemma SeparatedCons(g0: string, w: string, tail: string, gaps: seq<string>, rest: seq<string>)
    requires AllSpace(g0) && (tail != [] ==> IsSpace(tail[0]))
    requires rest != [] ==> rest[0] != [] && !IsSpace(rest[0][0])
    requires SeparatedBy(tail, gaps, rest)
    ensures SeparatedBy(g0 + w + tail, [g0] + gaps, [w] + rest)
  {
    var gs := [g0] + gaps;
    assert gs[1..] == gaps && ([w] + rest)[1..] == rest;
    if rest != [] {
      assert tail == gaps[0] + rest[0] + Interleave(gaps[1..], rest[1..]);
      assert gaps[0] != [];
    }
    forall k | 0 < k < |rest| + 1 ensures gs[k] != [] {
      assert gs[k] == gaps[k - 1];
    }
    forall k | 0 <= k < |gs| ensures AllSpace(gs[k]) {
      if k > 0 { assert gs[k] == gaps[k - 1]; }
    }
  }

  lemma SplitsAsCons(g0: string, w: string, tail: string, rest: seq<string>, n: nat)
    requires AllSpace(g0) && (tail != [] ==> IsSpace(tail[0]))
    requires rest != [] ==> rest[0] != [] && !IsSpace(rest[0][0])
    requires SplitsAs(tail, rest, n)
    ensures SplitsAs(g0 + w + tail, [w] + rest, n + 1)
  {
    var gaps :| SeparatedBy(tail, gaps, rest) && (|rest| == n + 1 ==> gaps[n + 1] == []);
    SeparatedCons(g0, w, tail, gaps, rest);
    assert ([g0] + gaps)[|rest| + 1] == gaps[|rest|];
  }

  /** Whitespace alone splits into no pieces. */
  lemma SplitsAsNothing(s: string, n: nat)
    requires AllSpace(s)
    ensures SplitsAs(s, [], n)
  {
    assert SeparatedBy(s, [s], []);
  }

  /** Leading whitespace and then the remainder, as the last piece. */
  lemma SplitsAsRemainder(g0: string, t: string)
    requires AllSpace(g0)
    ensures SplitsAs(g0 + t, [t], 0)
  {
    var gaps: seq<string> := [g0, []];
    assert AllSpace(gaps[0]) && AllSpace(gaps[1]);
    assert Interleave(gaps, [t]) == g0 + t + Interleave(gaps[1..], []);
    assert SeparatedBy(g0 + t, gaps, [t]);
  }

  /** The text with its leading whitespace split off, as `TrimLeft` finds it. */
  lemma TrimLeftSplit(s: string)
    ensures AllSpace(s[..|s| - |TrimLeft(s)|]) && s == s[..|s| - |TrimLeft(s)|] + TrimLeft(s)
  {
  }

  /** The pieces of `s` when no piece is split off. */
  lemma SplitsAsBase(s: string, n: nat)
    ensures TrimLeft(s) == [] ==> SplitsAs(s, [], n)
    ensures TrimLeft(s) != [] ==> SplitsAs(s, [TrimLeft(s)], 0)
  {
    TrimLeftSplit(s);
    if TrimLeft(s) == [] {
      SplitsAsNothing(s, n);
    } else {
      SplitsAsRemainder(s[..|s| - |TrimLeft(s)|], TrimLeft(s));
    }
  }

  /** Prepending the first word of `s` to a spelling of what follows it spells `s`. */
  lemma SpellStep(s: string, rest: seq<string>, n: nat)
    requires TrimLeft(s) != []
    requires rest != [] ==> rest[0] != [] && !IsSpace(rest[0][0])
    requires SplitsAs(TrimLeft(s)[|Word(TrimLeft(s))|..], rest, n)
    ensures SplitsAs(s, [Word(TrimLeft(s))] + rest, n + 1)
  {
    var t := TrimLeft(s);
    var w := Word(t);
    FirstWordSplit(s);
    SplitsAsCons(s[..|s| - |t|], w, t[|w|..], rest, n);
  }

  lemma ConcatAssoc(a: string, b: string, c: string)
    ensures a + (b + c) == a + b + c
  {
  }

  /** `s` is its leading whitespace, its first word, and the rest, which
      starts with whitespace when not empty. */
  lemma FirstWordSplit(s: string)
    requires TrimLeft(s) != []
    ensures var t := TrimLeft(s);
            var w := Word(t);
            && AllSpace(s[..|s| - |t|])
            && s == s[..|s| - |t|] + w + t[|w|..]
            && (t[|w|..] != [] ==> IsSpace(t[|w|..][0]))
  {
    var t := TrimLeft(s);
    var w := Word(t);
    var g0 := s[..|s| - |t|];
    var tail := t[|w|..];
    TrimLeftSplit(s);
    WordSplit(t);
    ConcatAssoc(g0, w, tail);
  }

  lemma WordSplit(t: string)
    ensures t == Word(t) + t[|Word(t)|..]
  {
    var w := Word(t);
    assert t[..|w|] == w;
  }

  /** `s.split(maxsplit=n)`: at most `n` words, then the remainder from the
      next non-space character to the end of `s`. */
  function SplitMax(s: string, n: nat): (r: seq<string>)
    ensures |r| <= n + 1
    ensures forall k :: 0 <= k < |r| ==> r[k] != [] && !IsSpace(r[k][0])
    ensures forall k :: 0 <= k < |r| && k < n ==> IsWord(r[k])
    decreases |s|
  {
    var t := TrimLeft(s);
    if t == [] then []
    else if n == 0 then [t]
    else
      var w := Word(t);
      assert IsWord(w);
      var rest := SplitMax(t[|w|..], n - 1);
      PrependWord(w, rest, n - 1);
      [w] + rest
  }

  lemma PrependWord(w: string, rest: seq<string>, n: nat)
    requires IsWord(w)
    requires forall k :: 0 <= k < |rest| ==> rest[k] != [] && !IsSpace(rest[k][0])
    requires forall k :: 0 <= k < |rest| && k < n ==> IsWord(rest[k])
    ensures forall k :: 0 <= k < |rest| + 1 ==> ([w] + rest)[k] != [] && !IsSpace(([w] + rest)[k][0])
    ensures forall k :: 0 <= k < |rest| + 1 && k < n + 1 ==> IsWord(([w] + rest)[k])
  {
    forall k | 1 <= k < |rest| + 1
      ensures ([w] + rest)[k] == rest[k - 1]
    {
    }
  }

  /** `s.split()`: the maximal runs of non-space characters, in order. */
  function Words(s: string): (r: seq<string>)
    ensures forall k :: 0 <= k < |r| ==> IsWord(r[k])
    decreases |s|
  {
    var t := TrimLeft(s);
    if t == [] then []
    else
      var w := Word(t);
      assert IsWord(w);
      var rest := Words(t[|w|..]);
      PrependWord(w, rest, |rest|);
      [w] + rest
  }

  /** A run of non-space characters followed by nothing or by whitespace is
      the leading word. */
  lemma {:induction false} WordOfRun(w: string, rest: string)
    requires forall j :: 0 <= j < |w| ==> !IsSpace(w[j])
    requires rest == [] || IsSpace(rest[0])
    ensures Word(w + rest) == w
    decreases |w|
  {
    if w == [] {
      assert w + rest == rest;
    } else {
      assert (w + rest)[1..] == w[1..] + rest;
      WordOfRun(w[1..], rest);
    }
  }

  /** Whitespace in front does not change the words. */
  lemma WordsAfterSpace(j: string)
    ensures Words(" " + j) == Words(j)
  {
    assert (" " + j)[1..] == j;
  }

  /** `" ".join(ws)` of words starts and ends with a non-space character. */
  lemma {:induction false} JoinWordsEnds(ws: seq<string>)
    requires |ws| > 0 && forall k :: 0 <= k < |ws| ==> IsWord(ws[k])
    ensures Join(ws, " ") != [] && !IsSpace(Join(ws, " ")[0]) && !IsSpace(Join(ws, " ")[|Join(ws, " ")| - 1])
    decreases |ws|
  {
    if |ws| > 1 {
      var j := Join(ws[1..], " ");
      JoinWordsEnds(ws[1..]);
      assert ws[1..][0] == ws[1];
      assert Join(ws, " ") == ws[0] + " " + j;
      assert Join(ws, " ")[0] == ws[0][0];
    }
  }

  /** `" ".join(ws).strip() == " ".join(ws)` for words `ws`. */
  lemma StripJoinWords(ws: seq<string>)
    requires forall k :: 0 <= k < |ws| ==> IsWord(ws[k])
    ensures Strip(Join(ws, " ")) == Join(ws, " ")
  {
    if ws != [] {
      JoinWordsEnds(ws);
    }
  }

  /** `" ".join(ws).split() == ws` for words `ws`. */
  lemma {:induction false} WordsOfJoin(ws: seq<string>)
    requires forall k :: 0 <= k < |ws| ==> IsWord(ws[k])
    ensures Words(Join(ws, " ")) == ws
    decreases |ws|
  {
    if |ws| == 1 {
      WordsOfWord(ws[0]);
    } else if |ws| > 1 {
      var j := Join(ws[1..], " ");
      assert Join(ws, " ") == ws[0] + (" " + j);
      WordsOfJoin(ws[1..]);
      WordsCons(ws[0], j);
      assert Words(Join(ws, " ")) == [ws[0]] + ws[1..];
      assert [ws[0]] + ws[1..] == ws;
    }
  }

  lemma WordsOfWord(w: string)
    requires IsWord(w)
    ensures Words(w) == [w]
  {
    WordOfRun(w, []);
    assert w + [] == w;
    assert TrimLeft(w) == w;
    assert w[|w|..] == [];
  }

  /** A word, a space and more text split into the word and the words of the rest. */
  lemma WordsCons(w: string, j: string)
    requires IsWord(w)
    ensures Words(w + (" " + j)) == [w] + Words(j)
  {
    var s := w + (" " + j);
    assert s[0] == w[0];
    assert TrimLeft(s) == s;
    WordOfRun(w, " " + j);
    assert s[|w|..] == " " + j;
    WordsAfterSpace(j);
  }

  /** `x` is a tail end of `s`. */
  predicate IsSuffix(x: string, s: string) {
    |x| <= |s| && x == s[|s| - |x|..]
  }

  lemma SuffixTrans(x: string, y: string, s: string)
    requires IsSuffix(x, y) && IsSuffix(y, s)
    ensures IsSuffix(x, s)
  {
    SuffixOfSuffix(s, |s| - |y|, x);
  }

  /** Text that starts with a non-space character is its own left trim. */
  lemma TrimLeftFixed(t: string)
    requires t != [] && !IsSpace(t[0])
    ensures TrimLeft(t) == t
  {
  }

  /** `r` agrees with the words `ws` of `s` the way `s.split(maxsplit=n)`
      agrees with `s.split()`. */
  predicate AgreesWithWords(r: seq<string>, ws: seq<string>, s: string, n: nat) {
    && (|r| <= n ==> r == ws)
    && (|r| == n + 1 ==> n <= |ws| && r[..n] == ws[..n] && Words(r[n]) == ws[n..] && IsSuffix(r[n], s))
  }

  lemma AgreesCons(w: string, rest: seq<string>, words: seq<string>, tail: string, s: string, n: nat, m: nat)
    requires n == m + 1 && IsSuffix(tail, s)
    requires AgreesWithWords(rest, words, tail, m)
    ensures AgreesWithWords([w] + rest, [w] + words, s, n)
  {
    if |rest| == m + 1 {
      assert ([w] + rest)[..n] == [w] + rest[..m];
      assert ([w] + words)[..n] == [w] + words[..m];
      assert ([w] + words)[n..] == words[m..];
      assert ([w] + rest)[n] == rest[m];
      SuffixTrans(rest[m], tail, s);
    }
  }

  lemma SplitMaxWordsBase(s: string, n: nat)
    requires TrimLeft(s) == [] || n == 0
    ensures AgreesWithWords(SplitMax(s, n), Words(s), s, n)
  {
    var t := TrimLeft(s);
    if t != [] {
      TrimLeftFixed(t);
      assert Words(t) == Words(s);
    }
  }

  lemma SplitMaxUnfold(s: string, m: nat)
    requires TrimLeft(s) != []
    ensures SplitMax(s, m + 1) == [Word(TrimLeft(s))] + SplitMax(TrimLeft(s)[|Word(TrimLeft(s))|..], m)
  {
  }

  lemma WordsUnfold(s: string)
    requires TrimLeft(s) != []
    ensures Words(s) == [Word(TrimLeft(s))] + Words(TrimLeft(s)[|Word(TrimLeft(s))|..])
    ensures IsSuffix(TrimLeft(s)[|Word(TrimLeft(s))|..], s)
  {
    var t := TrimLeft(s);
    SuffixTrans(t[|Word(t)|..], t, s);
  }

  lemma {:induction false} SplitMaxWordsCons(s: string, n: nat, m: nat)
    requires TrimLeft(s) != [] && n == m + 1
    ensures AgreesWithWords(SplitMax(s, n), Words(s), s, n)
    decreases |s|, 0
  {
    var tail := TrimLeft(s)[|Word(TrimLeft(s))|..];
    SplitMaxUnfold(s, m);
    WordsUnfold(s);
    SplitMaxWords(tail, m);
    AgreesCons(Word(TrimLeft(s)), SplitMax(tail, m), Words(tail), tail, s, n, m);
  }

  /** `s.split(maxsplit=n)`: with fewer than `n + 1` pieces these are the
      words of `s`; with `n + 1`, the first `n` are its first `n` words and
      the last is the tail end of `s` holding exactly the remaining words. */
  lemma {:induction false} SplitMaxWords(s: string, n: nat)
    ensures AgreesWithWords(SplitMax(s, n), Words(s), s, n)
    decreases |s|, 1
  {
    if TrimLeft(s) == [] || n == 0 {
      SplitMaxWordsBase(s, n);
    } else {
      var m: nat :| m + 1 == n;
      SplitMaxWordsCons(s, n, m);
    }
  }

  /** Text starting with a non-space character has at least one word. */
  lemma WordsOfNonBlank(t: string)
    requires t != [] && !IsSpace(t[0])
    ensures Words(t) != []
  {
    assert TrimLeft(t) == t;
  }

  /** `len(s.split(maxsplit=n))` is the number of words, capped at `n + 1`. */
  lemma SplitMaxLength(s: string, n: nat)
    ensures |SplitMax(s, n)| == if |Words(s)| <= n then |Words(s)| else n + 1
  {
    SplitMaxWords(s, n);
    var r := SplitMax(s, n);
    if |r| == n + 1 {
      WordsOfNonBlank(r[n]);
    }
  }

  /** The pieces of `s.split()` are the words of `s`, separated by its
      whitespace. */
  lemma {:induction false} WordsSpell(s: string)
    ensures SplitsAs(s, Words(s), |Words(s)|)
    decreases |s|
  {
    var t := TrimLeft(s);
    if t == [] {
      SplitsAsBase(s, 0);
    } else {
      var w := Word(t);
      WordsSpell(t[|w|..]);
      SpellStep(s, Words(t[|w|..]), |Words(t[|w|..])|);
    }
  }
}
