/** Characters, ASCII case folding, substring search, stripping, number formatting and the
    splitting helpers that stand in for Python's `str` methods and for the handful of fixed
    `re.split` / `re.search` patterns the parsing engine uses.

    Conventions used throughout the project:
    - `\s` and `str.strip()` are the ASCII whitespace characters, among them the separators
      `\x1c`-`\x1f` that Python counts as space, `\d` is an ASCII digit, `\b` is a boundary
      between an ASCII word character `[A-Za-z0-9_]` and anything else;
    - `re.IGNORECASE` is matching a lower-case pattern against `Lower(text)`, whose indices
      coincide with the original text's, so a capture is read back from the original. */
module Text {

  datatype Option<T> = None | Some(value: T)

  /** A capture group: the half-open index range [lo, hi) of the searched text. */
  datatype Span = Span(lo: nat, hi: nat)

  /** What `str.isspace()` accepts among ASCII: space, `\t\n\v\f\r` and `\x1c`-`\x1f`. */
  predicate IsSpace(c: char) {
    c == ' ' || c == '\t' || c == '\n' || c == '\r' || c == '\U{B}' || c == '\U{C}' || '\U{1C}' <= c <= '\U{1F}'
  }

  predicate IsDigit(c: char) { '0' <= c <= '9' }

  predicate IsLetter(c: char) { 'a' <= c <= 'z' || 'A' <= c <= 'Z' }

  predicate IsWordChar(c: char) { IsLetter(c) || IsDigit(c) || c == '_' }

  /** The character class `[:\s]` that follows every "label:" in the source's patterns. */
  predicate IsColonOrSpace(c: char) { c == ':' || IsSpace(c) }

  predicate NotNewline(c: char) { c != '\n' }

  function LowerChar(c: char): char {
    if 'A' <= c <= 'Z' then (c as int + 32) as char else c
  }

  /** `str.lower()` on ASCII letters. */
  function Lower(s: string): (r: string)
    ensures |r| == |s|
    ensures forall i :: 0 <= i < |s| ==> r[i] == LowerChar(s[i])
  {
    seq(|s|, i requires 0 <= i < |s| => LowerChar(s[i]))
  }

  function UpperChar(c: char): char {
    if 'a' <= c <= 'z' then (c as int - 32) as char else c
  }

  /** `str.upper()` on ASCII letters. */
  function Upper(s: string): (r: string)
    ensures |r| == |s|
    ensures forall i :: 0 <= i < |s| ==> r[i] == UpperChar(s[i])
  {
    seq(|s|, i requires 0 <= i < |s| => UpperChar(s[i]))
  }

  lemma LowerConcat(a: string, b: string)
    ensures Lower(a + b) == Lower(a) + Lower(b)
  {
    assert forall i :: 0 <= i < |a + b| ==> Lower(a + b)[i] == (Lower(a) + Lower(b))[i];
  }

  lemma LowerSlice(s: string, i: nat, j: nat)
    requires i <= j <= |s|
    ensures Lower(s[i..j]) == Lower(s)[i..j]
  {
  }

  // ---------------------------------------------------------------- substrings

  predicate ContainsAt(s: string, w: string, i: int) {
    0 <= i && i + |w| <= |s| && s[i..i + |w|] == w
  }

  /** Python's `w in s`. */
  predicate Contains(s: string, w: string) {
    exists i :: 0 <= i <= |s| - |w| && ContainsAt(s, w, i)
  }

  /** Python's `any(w in s for w in ws)`. */
  predicate ContainsAny(s: string, ws: seq<string>) {
    exists k :: 0 <= k < |ws| && Contains(s, ws[k])
  }

  lemma ContainsInConcat(a: string, t: string, b: string, w: string)
    requires Contains(t, w)
    ensures Contains(a + t + b, w)
  {
    var i :| 0 <= i <= |t| - |w| && ContainsAt(t, w, i);
    assert (a + t + b)[|a| + i..|a| + i + |w|] == t[i..i + |w|];
    assert ContainsAt(a + t + b, w, |a| + i);
  }

  lemma ContainsAnyInConcat(a: string, t: string, b: string, ws: seq<string>)
    requires ContainsAny(t, ws)
    ensures ContainsAny(a + t + b, ws)
  {
    var k :| 0 <= k < |ws| && Contains(t, ws[k]);
    ContainsInConcat(a, t, b, ws[k]);
  }

  /** `\bw\b` matches at `i` (for a word `w` of word characters). */
  predicate WordAt(s: string, w: string, i: int) {
    ContainsAt(s, w, i) &&
    (i == 0 || !IsWordChar(s[i - 1])) &&
    (i + |w| == |s| || !IsWordChar(s[i + |w|]))
  }

  /** `re.search(r'\bw\b', s)` succeeds. */
  predicate HasWord(s: string, w: string) {
    exists i :: 0 <= i <= |s| - |w| && WordAt(s, w, i)
  }

  /** The first index at or after `from` where `w` occurs (`str.find`). */
  function IndexOf(s: string, w: string, from: nat): (r: Option<nat>)
    ensures r.Some? ==> from <= r.value && ContainsAt(s, w, r.value)
    ensures r.Some? ==> forall q :: from <= q < r.value ==> !ContainsAt(s, w, q)
    ensures r.None? ==> forall q :: from <= q ==> !ContainsAt(s, w, q)
    decreases |s| - from
  {
    if from + |w| > |s| then None
    else if ContainsAt(s, w, from) then Some(from)
    else IndexOf(s, w, from + 1)
  }

  /** The end of the run of characters satisfying `p` that starts at `j` (a greedy `[...]*`). */
  function SkipWhile(s: string, j: nat, p: char -> bool): (k: nat)
    requires j <= |s|
    ensures j <= k <= |s|
    ensures forall m :: j <= m < k ==> p(s[m])
    ensures k == |s| || !p(s[k])
    decreases |s| - j
  {
    if j < |s| && p(s[j]) then SkipWhile(s, j + 1, p) else j
  }

  /** The end of the current line: the first newline at or after `j`, or the end of `s`. */
  function LineEnd(s: string, j: nat): (k: nat)
    requires j <= |s|
    ensures j <= k <= |s| && (k == |s| || s[k] == '\n')
    ensures forall m :: j <= m < k ==> s[m] != '\n'
  {
    SkipWhile(s, j, NotNewline)
  }

  /** Python's `re.search` for a pattern described by `at`, which says whether (and with which
      capture) the pattern matches when the attempt starts at a given position: the leftmost
      starting position wins. */
  function SearchFrom(s: string, at: (string, nat) -> Option<Span>, from: nat): (r: Option<Span>)
    decreases |s| + 1 - from
  {
    if from > |s| then None
    else if at(s, from).Some? then at(s, from)
    else SearchFrom(s, at, from + 1)
  }

  /** The capture of a successful search, read back from the original (not lowered) text. */
  function Captured(s: string, sp: Option<Span>): Option<string> {
    match sp
    case None => None
    case Some(Span(lo, hi)) => if lo <= hi <= |s| then Some(s[lo..hi]) else None
  }

  /** `w` occurs, and a later `v` occurs on the same line: Python's `w.*v` without DOTALL. */
  predicate OnSameLine(s: string, w: string, v: string) {
    exists i :: 0 <= i <= |s| - |w| && ContainsAt(s, w, i) &&
      Contains(s[i + |w|..LineEnd(s, i + |w|)], v)
  }

  /** The words of `ws` occur at `i`, each separated from the next by one or more whitespace
      characters (`w1\s+w2\s+...`); the result is the end of the phrase. */
  function PhraseEnd(s: string, i: nat, ws: seq<string>): (r: Option<nat>)
    requires i <= |s|
    ensures r.Some? ==> i <= r.value <= |s|
    decreases |ws|
  {
    if ws == [] then Some(i)
    else if !ContainsAt(s, ws[0], i) then None
    else if |ws| == 1 then Some(i + |ws[0]|)
    else
      var j := i + |ws[0]|;
      var k := SkipWhile(s, j, IsSpace);
      if k == j then None else PhraseEnd(s, k, ws[1..])
  }

  /** The end of the first alternative of `alts` that matches at `i` (`(?:a|b c|...)`). */
  function AltEnd(s: string, i: nat, alts: seq<seq<string>>): (r: Option<nat>)
    requires i <= |s|
    ensures r.Some? ==> i <= r.value <= |s|
    decreases |alts|
  {
    if alts == [] then None
    else match PhraseEnd(s, i, alts[0])
      case Some(e) => Some(e)
      case None => AltEnd(s, i, alts[1..])
  }

  /** `\s+`-separated phrase occurring anywhere (`integer\s+overflow`). */
  predicate ContainsPhrase(s: string, ws: seq<string>) {
    exists i :: 0 <= i <= |s| && PhraseEnd(s, i, ws).Some?
  }

  // ---------------------------------------------------------------- stripping

  /** Where the run of `p` characters that ends at `hi` begins, going back no further than
      `lo` (a greedy `[...]*$` anchored at `hi`). */
  function SkipBackWhile(s: string, lo: nat, hi: nat, p: char -> bool): (k: nat)
    requires lo <= hi <= |s|
    ensures lo <= k <= hi
    ensures forall m :: k <= m < hi ==> p(s[m])
    ensures k == lo || !p(s[k - 1])
    decreases hi - lo
  {
    if lo < hi && p(s[hi - 1]) then SkipBackWhile(s, lo, hi - 1, p) else hi
  }

  predicate Stripped(s: string) {
    s == [] || (!IsSpace(s[0]) && !IsSpace(s[|s| - 1]))
  }

  /** How many characters `str.strip()` drops at the front. */
  function StripStart(s: string): nat
    ensures StripStart(s) <= |s|
  {
    SkipWhile(s, 0, IsSpace)
  }

  /** Where the whitespace that `str.strip()` drops at the back begins. */
  function StripEnd(s: string): nat
    ensures StripStart(s) <= StripEnd(s) <= |s|
  {
    SkipBackWhile(s, StripStart(s), |s|, IsSpace)
  }

  /** `str.strip()`: drops leading and trailing whitespace and nothing else. */
  function Strip(s: string): (r: string)
    ensures Stripped(r) && |r| <= |s|
    ensures StripStart(s) + |r| <= |s| && r == s[StripStart(s)..StripStart(s) + |r|]
    ensures forall i :: 0 <= i < StripStart(s) ==> IsSpace(s[i])
    ensures forall i :: StripStart(s) + |r| <= i < |s| ==> IsSpace(s[i])
  {
    var a := StripStart(s);
    var b := StripEnd(s);
    assert a < b ==> s[a..b][0] == s[a] && s[a..b][b - a - 1] == s[b - 1];
    s[a..b]
  }

  lemma StripOfStripped(s: string)
    requires Stripped(s)
    ensures Strip(s) == s
  {
  }

  /** Python's slice `xs[:n]`. */
  lemma Associative<T>(a: seq<T>, b: seq<T>, c: seq<T>)
    ensures a + b + c == a + (b + c)
  {
  }

  function Take<T>(xs: seq<T>, n: nat): (r: seq<T>)
    ensures |r| == if |xs| <= n then |xs| else n
    ensures r == xs[..|r|]
  {
    if |xs| <= n then xs else xs[..n]
  }

  // ---------------------------------------------------------------- numbers

  function DigitChar(d: nat): char
    requires d < 10
  {
    ('0' as int + d) as char
  }

  predicate AllDigits(s: string) {
    forall i :: 0 <= i < |s| ==> IsDigit(s[i])
  }

  /** `str(n)` for a non-negative integer. */
  function NatToString(n: nat): (r: string)
    ensures |r| >= 1 && AllDigits(r)
    decreases n
  {
    if n < 10 then [DigitChar(n)] else NatToString(n / 10) + [DigitChar(n % 10)]
  }

  /** `int(s)` for a string of ASCII digits. */
  function DigitsValue(s: string): nat
    requires AllDigits(s)
    decreases |s|
  {
    if s == [] then 0 else DigitsValue(s[..|s| - 1]) * 10 + (s[|s| - 1] as int - '0' as int)
  }

  /** `int(str(n)) == n`: a savings string determines the number it was made from. */
  lemma {:induction false} DigitsValueOfNatToString(n: nat)
    ensures DigitsValue(NatToString(n)) == n
  {
    if n >= 10 {
      DigitsValueOfNatToString(n / 10);
      var s := NatToString(n / 10) + [DigitChar(n % 10)];
      assert s[..|s| - 1] == NatToString(n / 10);
    }
  }

  /** `str` is injective on naturals. */
  lemma NatToStringInjective(m: nat, n: nat)
    requires NatToString(m) == NatToString(n)
    ensures m == n
  {
    DigitsValueOfNatToString(m);
    DigitsValueOfNatToString(n);
  }

  // ---------------------------------------------------------------- joining and splitting

  /** `sep.join(xs)`. */
  function Join(sep: string, xs: seq<string>): string
    decreases |xs|
  {
    if xs == [] then "" else if |xs| == 1 then xs[0] else xs[0] + sep + Join(sep, xs[1..])
  }

  /** `s.split(c)` for a single-character separator. */
  function SplitOnChar(s: string, c: char): (r: seq<string>)
    ensures |r| >= 1
    decreases |s|
  {
    if s == [] then [""]
    else
      var rest := SplitOnChar(s[1..], c);
      if s[0] == c then [""] + rest else [[s[0]] + rest[0]] + rest[1..]
  }

  /** Joining pieces whose first one is extended at its front. */
  lemma JoinExtendsHead(sep: string, x: string, rest: seq<string>)
    requires |rest| >= 1
    ensures Join(sep, [x + rest[0]] + rest[1..]) == x + Join(sep, rest)
  {
    var r := [x + rest[0]] + rest[1..];
    if |rest| > 1 {
      assert r[1..] == rest[1..];
      assert Join(sep, r) == (x + rest[0]) + sep + Join(sep, rest[1..]);
      assert Join(sep, rest) == rest[0] + sep + Join(sep, rest[1..]);
    }
  }

  /** Joining pieces after a leading empty piece. */
  lemma JoinAfterEmpty(sep: string, rest: seq<string>)
    requires |rest| >= 1
    ensures Join(sep, [""] + rest) == sep + Join(sep, rest)
  {
    var r := [""] + rest;
    assert r[1..] == rest;
  }

  /** Joining the pieces of `s.split(c)` with `c` gives `s` back. */
  lemma {:induction false} SplitOnCharJoin(s: string, c: char)
    ensures Join([c], SplitOnChar(s, c)) == s
    decreases |s|
  {
    if s != [] {
      var rest := SplitOnChar(s[1..], c);
      assert [s[0]] + s[1..] == s;
      if s[0] == c {
        JoinAfterEmpty([c], rest);
      } else {
        JoinExtendsHead([c], [s[0]], rest);
      }
      SplitOnCharJoin(s[1..], c);
    }
  }

  /** No piece of `s.split(c)` contains `c`. */
  lemma {:induction false} SplitOnCharPieces(s: string, c: char)
    ensures forall k, i :: 0 <= k < |SplitOnChar(s, c)| && 0 <= i < |SplitOnChar(s, c)[k]| ==>
      SplitOnChar(s, c)[k][i] != c
    decreases |s|
  {
    if s != [] {
      SplitOnCharPieces(s[1..], c);
      var rest := SplitOnChar(s[1..], c);
      var r := SplitOnChar(s, c);
      forall k, i | 0 <= k < |r| && 0 <= i < |r[k]| ensures r[k][i] != c {
        if s[0] == c {
          assert k > 0 && r[k] == rest[k - 1];
        } else if k == 0 {
          if i > 0 { assert r[0][i] == rest[0][i - 1]; }
        } else {
          assert r[k] == rest[k];
        }
      }
    }
  }

  /** `s.split('\n')`. */
  function Lines(s: string): seq<string> {
    SplitOnChar(s, '\n')
  }

  /** `re.split(r'[.!?]+', s)`: the pieces between maximal runs of sentence terminators. */
  predicate IsTerminator(c: char) { c == '.' || c == '!' || c == '?' }

  function Sentences(s: string): (r: seq<string>)
    ensures |r| >= 1
    decreases |s|
  {
    if s == [] then [""]
    else if IsTerminator(s[0]) then [""] + Sentences(s[SkipWhile(s, 0, IsTerminator)..])
    else
      var rest := Sentences(s[1..]);
      [[s[0]] + rest[0]] + rest[1..]
  }

  /** The last newline in s[lo..hi], if any. */
  function LastNewline(s: string, lo: nat, hi: nat): (r: Option<nat>)
    requires lo <= hi <= |s|
    ensures r.Some? ==> lo <= r.value < hi && s[r.value] == '\n'
    ensures r.Some? ==> forall m :: r.value < m < hi ==> s[m] != '\n'
    ensures r.None? ==> forall m :: lo <= m < hi ==> s[m] != '\n'
    decreases hi - lo
  {
    if lo == hi then None
    else if s[hi - 1] == '\n' then Some(hi - 1)
    else LastNewline(s, lo, hi - 1)
  }

  /** A match of `\n\s*\n` starting at the head of `s`: the greedy `\s*` gives back characters
      until a newline follows, so the match ends just after the last newline of the whitespace
      run that follows the first one. The result is the length of the match. */
  function BlankLineBreak(s: string): (r: Option<nat>)
    ensures r.Some? ==> 2 <= r.value <= |s|
  {
    if s == [] || s[0] != '\n' then None
    else
      var run := SkipWhile(s, 1, IsSpace);
      match LastNewline(s, 1, run)
      case None => None
      case Some(m) => Some(m + 1)
  }

  /** `re.split(r'\n\s*\n', s)`: the paragraphs of `s`. */
  function Paragraphs(s: string): (r: seq<string>)
    ensures |r| >= 1
    decreases |s|
  {
    if s == [] then [""]
    else match BlankLineBreak(s)
      case Some(e) => [""] + Paragraphs(s[e..])
      case None =>
        var rest := Paragraphs(s[1..]);
        [[s[0]] + rest[0]] + rest[1..]
  }

  /** `re.split(r'(?:^|\n)(?=X)', s)` where `look` says whether a string starts with X: splits
      before every line that starts with X, dropping the newline; when `s` itself starts with X
      the empty match at position 0 contributes a leading empty piece. */
  function SplitBeforeLines(s: string, look: string -> bool): (r: seq<string>)
    ensures |r| >= 1
  {
    (if look(s) then [""] else []) + SplitAtMarkedNewlines(s, look)
  }

  function SplitAtMarkedNewlines(s: string, look: string -> bool): (r: seq<string>)
    ensures |r| >= 1
    decreases |s|
  {
    if s == [] then [""]
    else if s[0] == '\n' && look(s[1..]) then [""] + SplitAtMarkedNewlines(s[1..], look)
    else
      var rest := SplitAtMarkedNewlines(s[1..], look);
      [[s[0]] + rest[0]] + rest[1..]
  }

  /** No paragraph is longer than the text it was split from. */
  lemma {:induction false} ParagraphsBounded(s: string)
    ensures forall k :: 0 <= k < |Paragraphs(s)| ==> |Paragraphs(s)[k]| <= |s|
    decreases |s|
  {
    if s != [] {
      match BlankLineBreak(s)
      case Some(e) =>
        ParagraphsBounded(s[e..]);
        assert Paragraphs(s) == [""] + Paragraphs(s[e..]);
      case None =>
        ParagraphsBounded(s[1..]);
    }
  }

  /** No piece of a split before marked lines is longer than the text. */
  lemma {:induction false} SplitAtMarkedNewlinesBounded(s: string, look: string -> bool)
    ensures forall k :: 0 <= k < |SplitAtMarkedNewlines(s, look)| ==> |SplitAtMarkedNewlines(s, look)[k]| <= |s|
    decreases |s|
  {
    if s != [] {
      SplitAtMarkedNewlinesBounded(s[1..], look);
    }
  }

  lemma SplitBeforeLinesBounded(s: string, look: string -> bool)
    ensures forall k :: 0 <= k < |SplitBeforeLines(s, look)| ==> |SplitBeforeLines(s, look)[k]| <= |s|
  {
    SplitAtMarkedNewlinesBounded(s, look);
  }
}
