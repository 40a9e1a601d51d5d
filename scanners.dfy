/** Hand-written scanners for the fixed, case-insensitive `re.search` patterns of the field
    extractors. Each pattern is a constructor of `Pattern`; `MatchAt` says whether and with which
    capture the pattern matches when the attempt starts at a position of the lower-cased text,
    and `Search` is the leftmost attempt that succeeds, as in `re.search`.

    Every pattern here is a chain of a literal, a greedy character class and a capture whose first
    character lies outside that class, so giving characters back never lets a failed attempt
    succeed; the comments name the few places where backtracking does change the capture. */
module Scanners {
  import opened Text
  import opened Cascade

  /** `[:\s]*`, `\s+` or nothing between a label and what it introduces. */
  datatype Gap = NoGap | ColonOrSpace | Spaces

  /** What has to follow the number of a gas-savings pattern. */
  datatype Tail =
    | NoTail
    | ThenGas          // \s*gas
    | ThenGasSaved     // \s*gas.*?(?:saved|reduction|less)
    | ThenGasPer       // \s*gas\s+(?:per|units)
    | ThenUnits        // \s*units
    | ThenUnitsPer     // \s*(?:gas\s+)?units\s+per

  datatype Pattern =
    /** `(?:alts)[:\s]*((?:[^\n]|\n(?!\s*\*\*))*?)(?=\n\s*\*\*|$)`: a labelled field that runs
        until the next line starting with bold markup, or the end. */
    | Field(alts: seq<seq<string>>)
    /** `(?:alts)[:\s]*([^\n]+)`: the rest of the line after a label. */
    | LineAfter(alts: seq<seq<string>>)
    /** `(?:alts)[:\s]*([a-zA-Z]+)`: the word after a label. */
    | WordAfter(alts: seq<seq<string>>)
    /** `\*\*\s*severity\s*\*\*[:\s]*([a-zA-Z]+)`. */
    | BoldSeverityWord
    /** `(?:line|lines?)[:\s]*(\d+(?:\s*-\s*\d+)?)`. */
    | LineNumber
    /** `(?:function|method)[:\s]*([a-zA-Z_][a-zA-Z0-9_]*)`. */
    | Identifier
    /** `(?:alts)[:\s]*[^\n]*\n(.*?)(?=(?:optimized|after|solution|fix|\n\s*\*\*)|$)`: the
        text after the line that a "before" label is on. */
    | BlockAfterLine(alts: seq<seq<string>>)
    /** `(?:^|\n)([^:\n]*(?:kws)[^:\n]*?)(?:\n|:)`: a line start up to its first colon or
        newline, containing a keyword. */
    | KeywordLine(kws: seq<string>)
    /** `(?:alts)<gap>(\d+)<tail>`. */
    | Number(alts: seq<seq<string>>, gap: Gap, tail: Tail)

  // ---------------------------------------------------------------- stops and gaps

  /** `\n\s*\*\*` at `q`: a line that starts with bold markup. */
  predicate BoldLineAt(s: string, q: int) {
    0 <= q < |s| && s[q] == '\n' && ContainsAt(s, "**", SkipWhile(s, q + 1, IsSpace))
  }

  /** `$` without MULTILINE: the end of the text, or just before a final newline. */
  predicate EndAt(s: string, q: int) {
    q == |s| || (0 <= q && q + 1 == |s| && s[q] == '\n')
  }

  predicate FieldStopAt(s: string, q: int) {
    BoldLineAt(s, q) || EndAt(s, q)
  }

  /** The first position at or after `q` where a labelled field ends. */
  function FieldStop(s: string, q: nat): (r: nat)
    requires q <= |s|
    ensures q <= r <= |s| && FieldStopAt(s, r)
    ensures forall m :: q <= m < r ==> !FieldStopAt(s, m)
    decreases |s| - q
  {
    if FieldStopAt(s, q) then q else FieldStop(s, q + 1)
  }

  /** The end of the gap that starts at `j`, if the gap can be matched there. */
  function GapEnd(s: string, j: nat, g: Gap): (r: Option<nat>)
    requires j <= |s|
    ensures r.Some? ==> j <= r.value <= |s|
  {
    match g
    case NoGap => Some(j)
    case ColonOrSpace => Some(SkipWhile(s, j, IsColonOrSpace))
    case Spaces => var k := SkipWhile(s, j, IsSpace); if k == j then None else Some(k)
  }

  /** The end of a run of at least one digit starting at `j`. */
  function DigitsEnd(s: string, j: nat): (r: Option<nat>)
    requires j <= |s|
    ensures r.Some? ==> j < r.value <= |s| && AllDigits(s[j..r.value])
  {
    var k := SkipWhile(s, j, IsDigit);
    if k == j then None else Some(k)
  }

  /** The last position in [lo, hi) that does not hold a newline. */
  function LastNonNewline(s: string, lo: nat, hi: nat): (r: Option<nat>)
    requires lo <= hi <= |s|
    ensures r.Some? ==> lo <= r.value < hi && s[r.value] != '\n'
    decreases hi - lo
  {
    if lo == hi then None
    else if s[hi - 1] != '\n' then Some(hi - 1)
    else LastNonNewline(s, lo, hi - 1)
  }

  predicate NoColonOrNewline(c: char) { c != ':' && c != '\n' }

  predicate IsIdentStart(c: char) { IsLetter(c) || c == '_' }

  // ---------------------------------------------------------------- tails of the savings patterns

  function TailEnd(s: string, d: nat, t: Tail): (r: Option<nat>)
    requires d <= |s|
    ensures r.Some? ==> d <= r.value <= |s|
  {
    var g := SkipWhile(s, d, IsSpace);
    match t
    case NoTail => Some(d)
    case ThenGas => if ContainsAt(s, "gas", g) then Some(g + 3) else None
    case ThenGasSaved =>
      if ContainsAt(s, "gas", g) && ContainsAny(s[g + 3..LineEnd(s, g + 3)], ["saved", "reduction", "less"])
      then Some(g + 3) else None
    case ThenGasPer =>
      if !ContainsAt(s, "gas", g) then None
      else
        var k := SkipWhile(s, g + 3, IsSpace);
        if k > g + 3 && (ContainsAt(s, "per", k) || ContainsAt(s, "units", k)) then Some(k) else None
    case ThenUnits => if ContainsAt(s, "units", g) then Some(g + 5) else None
    case ThenUnitsPer =>
      var u := if ContainsAt(s, "gas", g) && SkipWhile(s, g + 3, IsSpace) > g + 3
               then SkipWhile(s, g + 3, IsSpace) else g;
      var v := if ContainsAt(s, "units", u) then u else g;
      if ContainsAt(s, "units", v) && SkipWhile(s, v + 5, IsSpace) > v + 5 &&
         ContainsAt(s, "per", SkipWhile(s, v + 5, IsSpace))
      then Some(v + 5) else None
  }

  // ---------------------------------------------------------------- one attempt

  /** The capture of `pat` when the attempt starts at `p` of the lower-cased text `s`. */
  function MatchAt(s: string, p: nat, pat: Pattern): (r: Option<Span>)
    requires p <= |s|
    ensures r.Some? ==> r.value.lo <= r.value.hi <= |s|
  {
    match pat
    case Field(alts) => FieldAt(s, p, alts)
    case LineAfter(alts) => LineAfterAt(s, p, alts)
    case WordAfter(alts) => WordAfterAt(s, p, alts)
    case BoldSeverityWord => BoldSeverityAt(s, p)
    case LineNumber => LineNumberAt(s, p)
    case Identifier => IdentifierAt(s, p)
    case BlockAfterLine(alts) => BlockAfterLineAt(s, p, alts)
    case KeywordLine(kws) =>
      if p == 0 && KeywordLineFrom(s, 0, kws).Some? then KeywordLineFrom(s, 0, kws)
      else if p < |s| && s[p] == '\n' then KeywordLineFrom(s, p + 1, kws)
      else None
    case Number(alts, gap, tail) => NumberAt(s, p, alts, gap, tail)
  }

  function FieldAt(s: string, p: nat, alts: seq<seq<string>>): (r: Option<Span>)
    requires p <= |s|
    ensures r.Some? ==> r.value.lo <= r.value.hi <= |s| && r.value.hi == FieldStop(s, r.value.lo)
  {
    match AltEnd(s, p, alts)
    case None => None
    case Some(e0) =>
      var e := SkipWhile(s, e0, IsColonOrSpace);
      Some(Span(e, FieldStop(s, e)))
  }

  function LineAfterAt(s: string, p: nat, alts: seq<seq<string>>): (r: Option<Span>)
    requires p <= |s|
    ensures r.Some? ==> r.value.lo <= r.value.hi <= |s|
  {
    match AltEnd(s, p, alts)
    case None => None
    case Some(e0) =>
      var e := SkipWhile(s, e0, IsColonOrSpace);
      if e < |s| then Some(Span(e, LineEnd(s, e)))
      else
        // the greedy run reached the end: it gives back characters until the capture can
        // start on a character that is not a newline
        match LastNonNewline(s, e0, e)
        case None => None
        case Some(q) => Some(Span(q, LineEnd(s, q)))
  }

  function WordAfterAt(s: string, p: nat, alts: seq<seq<string>>): (r: Option<Span>)
    requires p <= |s|
    ensures r.Some? ==> r.value.lo < r.value.hi <= |s|
  {
    match AltEnd(s, p, alts)
    case None => None
    case Some(e0) =>
      var e := SkipWhile(s, e0, IsColonOrSpace);
      var w := SkipWhile(s, e, IsLetter);
      if w == e then None else Some(Span(e, w))
  }

  function BoldSeverityAt(s: string, p: nat): (r: Option<Span>)
    requires p <= |s|
    ensures r.Some? ==> r.value.lo < r.value.hi <= |s|
  {
    if !ContainsAt(s, "**", p) then None
    else
      var a := SkipWhile(s, p + 2, IsSpace);
      if !ContainsAt(s, "severity", a) then None
      else
        var b := SkipWhile(s, a + 8, IsSpace);
        if !ContainsAt(s, "**", b) then None
        else
          var e := SkipWhile(s, b + 2, IsColonOrSpace);
          var w := SkipWhile(s, e, IsLetter);
          if w == e then None else Some(Span(e, w))
  }

  function LineNumberAt(s: string, p: nat): (r: Option<Span>)
    requires p <= |s|
    ensures r.Some? ==> r.value.lo < r.value.hi <= |s|
  {
    match AltEnd(s, p, [["lines"], ["line"]])
    case None => None
    case Some(e0) =>
      var e := SkipWhile(s, e0, IsColonOrSpace);
      match DigitsEnd(s, e)
      case None => None
      case Some(d) =>
        var h := SkipWhile(s, d, IsSpace);
        if h < |s| && s[h] == '-' then
          match DigitsEnd(s, SkipWhile(s, h + 1, IsSpace))
          case Some(d2) => Some(Span(e, d2))
          case None => Some(Span(e, d))
        else Some(Span(e, d))
  }

  function IdentifierAt(s: string, p: nat): (r: Option<Span>)
    requires p <= |s|
    ensures r.Some? ==> r.value.lo < r.value.hi <= |s|
  {
    match AltEnd(s, p, [["function"], ["method"]])
    case None => None
    case Some(e0) =>
      var e := SkipWhile(s, e0, IsColonOrSpace);
      if e < |s| && IsIdentStart(s[e]) then Some(Span(e, SkipWhile(s, e + 1, IsWordChar))) else None
  }

  function BlockAfterLineAt(s: string, p: nat, alts: seq<seq<string>>): (r: Option<Span>)
    requires p <= |s|
    ensures r.Some? ==> r.value.lo <= r.value.hi <= |s|
  {
    match AltEnd(s, p, alts)
    case None => None
    case Some(e0) =>
      var e := SkipWhile(s, e0, IsColonOrSpace);
      var n := LineEnd(s, e);
      // `[^\n]*\n` needs a newline: the first one after the run, or else the last one that
      // the run itself gave back
      var c := if n < |s| then Some(n + 1)
               else match LastNewline(s, e0, e) case Some(m) => Some(m + 1) case None => None;
      match c
      case None => None
      case Some(c) => Some(Span(c, BlockStop(s, c)))
  }

  function NumberAt(s: string, p: nat, alts: seq<seq<string>>, gap: Gap, tail: Tail): (r: Option<Span>)
    requires p <= |s|
    ensures r.Some? ==> r.value.lo < r.value.hi <= |s| && AllDigits(s[r.value.lo..r.value.hi])
  {
    match AltEnd(s, p, alts)
    case None => None
    case Some(e0) =>
      match GapEnd(s, e0, gap)
      case None => None
      case Some(e) =>
        match DigitsEnd(s, e)
        case None => None
        case Some(d) => if TailEnd(s, d, tail).Some? then Some(Span(e, d)) else None
  }

  predicate BlockStopAt(s: string, q: int) {
    EndAt(s, q) || BoldLineAt(s, q) ||
    ContainsAt(s, "optimized", q) || ContainsAt(s, "after", q) ||
    ContainsAt(s, "solution", q) || ContainsAt(s, "fix", q)
  }

  /** The first position at or after `q` where the lazy block capture may stop. */
  function BlockStop(s: string, q: nat): (r: nat)
    requires q <= |s|
    ensures q <= r <= |s| && BlockStopAt(s, r)
    ensures forall m :: q <= m < r ==> !BlockStopAt(s, m)
    decreases |s| - q
  {
    if BlockStopAt(s, q) then q else BlockStop(s, q + 1)
  }

  /** The segment of the line starting at `q` up to its first colon or newline, if that
      terminator exists and the segment contains a keyword. */
  function KeywordLineFrom(s: string, q: nat, kws: seq<string>): (r: Option<Span>)
    requires q <= |s|
    ensures r.Some? ==> r.value.lo == q <= r.value.hi < |s|
  {
    var t := SkipWhile(s, q, NoColonOrNewline);
    if t < |s| && ContainsAny(s[q..t], kws) then Some(Span(q, t)) else None
  }

  // ---------------------------------------------------------------- leftmost search

  /** The leftmost position at or after `from` where an attempt of `pat` succeeds. */
  function SearchPos(s: string, pat: Pattern, from: nat): (r: Option<nat>)
    ensures r.Some? ==> from <= r.value <= |s| && MatchAt(s, r.value, pat).Some?
    ensures r.Some? ==> forall m :: from <= m < r.value ==> MatchAt(s, m, pat).None?
    ensures r.None? ==> forall q :: from <= q <= |s| ==> MatchAt(s, q, pat).None?
  {
    var ok := (m: nat) => m <= |s| && MatchAt(s, m, pat).Some?;
    assert forall m: nat :: ok(m) == (m <= |s| && MatchAt(s, m, pat).Some?);
    FirstPosition(|s|, ok, from)
  }

  /** `re.search`: the capture of the leftmost attempt at or after `from` that succeeds. */
  function Search(s: string, pat: Pattern, from: nat): (r: Option<Span>)
  {
    match SearchPos(s, pat, from)
    case None => None
    case Some(q) => MatchAt(s, q, pat)
  }

  lemma SearchBounds(s: string, pat: Pattern, from: nat)
    ensures Search(s, pat, from).Some? ==> Search(s, pat, from).value.lo <= Search(s, pat, from).value.hi <= |s|
  {
  }

  /** The capture of a case-insensitive search of `pat` in `s`, read from `s` itself. */
  function Find(s: string, pat: Pattern): (r: Option<string>)
    ensures r.Some? ==> |r.value| <= |s|
  {
    var sp := Search(Lower(s), pat, 0);
    SearchBounds(Lower(s), pat, 0);
    match sp
    case None => None
    case Some(Span(lo, hi)) => Some(s[lo..hi])
  }

  // ---------------------------------------------------------------- range patterns

  /** The two numbers of `(\d+)[-–]\s*(\d+)\s*gas` (k = 0), `(\d+)\s*to\s*(\d+)\s*gas` (k = 1)
      or `between\s+(\d+)\s+and\s+(\d+)\s*gas` (k = 2) when the attempt starts at `p`. */
  function RangeAt(s: string, p: nat, k: nat): (r: Option<(Span, Span)>)
    requires p <= |s|
    ensures r.Some? ==> r.value.0.lo < r.value.0.hi <= |s| && r.value.1.lo < r.value.1.hi <= |s|
    ensures r.Some? ==> AllDigits(s[r.value.0.lo..r.value.0.hi]) && AllDigits(s[r.value.1.lo..r.value.1.hi])
  {
    var first: Option<(nat, nat)> :=
      if k == 2 then
        (match PhraseEnd(s, p, ["between"])
         case None => None
         case Some(b) =>
           var j := SkipWhile(s, b, IsSpace);
           if j == b then None else match DigitsEnd(s, j) case None => None case Some(d) => Some((j, d)))
      else match DigitsEnd(s, p) case None => None case Some(d) => Some((p, d));
    match first
    case None => None
    case Some((a, d)) =>
      var j: Option<nat> :=
        if k == 0 then
          (if d < |s| && (s[d] == '-' || s[d] == '–') then Some(SkipWhile(s, d + 1, IsSpace)) else None)
        else if k == 1 then
          (var t := SkipWhile(s, d, IsSpace);
           if ContainsAt(s, "to", t) then Some(SkipWhile(s, t + 2, IsSpace)) else None)
        else
          (var t := SkipWhile(s, d, IsSpace);
           if t > d && ContainsAt(s, "and", t) && SkipWhile(s, t + 3, IsSpace) > t + 3
           then Some(SkipWhile(s, t + 3, IsSpace)) else None);
      match j
      case None => None
      case Some(j) =>
        match DigitsEnd(s, j)
        case None => None
        case Some(d2) =>
          if ContainsAt(s, "gas", SkipWhile(s, d2, IsSpace)) then Some((Span(a, d), Span(j, d2))) else None
  }

  function RangeSearch(s: string, k: nat, from: nat): (r: Option<(Span, Span)>)
    ensures r.Some? ==> r.value.0.lo < r.value.0.hi <= |s| && r.value.1.lo < r.value.1.hi <= |s|
    ensures r.Some? ==> AllDigits(s[r.value.0.lo..r.value.0.hi]) && AllDigits(s[r.value.1.lo..r.value.1.hi])
    ensures r.None? ==> forall q :: from <= q <= |s| ==> RangeAt(s, q, k).None?
    decreases |s| + 1 - from
  {
    if from > |s| then None
    else if RangeAt(s, from, k).Some? then RangeAt(s, from, k)
    else RangeSearch(s, k, from + 1)
  }

  // ---------------------------------------------------------------- field-capture properties

  /** A run that ends inside a slice ends at the same place in the whole text. */
  lemma {:induction false} SkipWhileInSlice(s: string, a: nat, b: nat, j: nat, p: char -> bool)
    requires a <= b <= |s| && j <= b - a
    requires SkipWhile(s[a..b], j, p) < b - a
    ensures SkipWhile(s, a + j, p) == a + SkipWhile(s[a..b], j, p)
    decreases b - a - j
  {
    assert s[a..b][j] == s[a + j];
    if p(s[a + j]) {
      SkipWhileInSlice(s, a, b, j + 1, p);
    }
  }

  /** A line starting with bold markup inside a slice is one in the whole text. */
  lemma BoldLineInSlice(s: string, a: nat, b: nat, m: nat)
    requires a <= b <= |s| && m < b - a
    requires BoldLineAt(s[a..b], m)
    ensures BoldLineAt(s, a + m)
  {
    var t := s[a..b];
    var k := SkipWhile(t, m + 1, IsSpace);
    assert ContainsAt(t, "**", k);
    assert k + 2 <= |t|;
    SkipWhileInSlice(s, a, b, m + 1, IsSpace);
    assert t[k] == s[a + k] && t[k + 1] == s[a + k + 1];
    assert s[a + k..a + k + 2] == t[k..k + 2];
  }

  /** A labelled field never runs into a line that starts with bold markup: it ends before the
      next `**` header. */
  lemma FieldHasNoBoldLine(s: string, alts: seq<seq<string>>)
    requires Find(s, Field(alts)).Some?
    ensures forall m :: 0 <= m < |Find(s, Field(alts)).value| ==> !BoldLineAt(Find(s, Field(alts)).value, m)
  {
    var ls := Lower(s);
    var sp := Search(ls, Field(alts), 0);
    var q := SearchPos(ls, Field(alts), 0).value;
    assert sp == FieldAt(ls, q, alts);
    var Span(lo, hi) := sp.value;
    var cap := s[lo..hi];
    forall m | 0 <= m < |cap| ensures !BoldLineAt(cap, m) {
      if BoldLineAt(cap, m) {
        BoldLineIgnoresCase(s, lo, hi, m);
        BoldLineInSlice(ls, lo, hi, m);
        assert FieldStopAt(ls, lo + m);
        assert false;
      }
    }
  }

  lemma BoldLineIgnoresCase(s: string, lo: nat, hi: nat, m: nat)
    requires lo <= hi <= |s| && m < hi - lo
    requires BoldLineAt(s[lo..hi], m)
    ensures BoldLineAt(Lower(s)[lo..hi], m)
  {
    var t := s[lo..hi];
    var u := Lower(s)[lo..hi];
    forall i | 0 <= i < |t| ensures u[i] == LowerChar(t[i]) {
      assert u[i] == Lower(s)[lo + i] && t[i] == s[lo + i];
    }
    BoldLineLower(t, u, m);
  }

  lemma BoldLineLower(t: string, u: string, m: nat)
    requires |t| == |u| && BoldLineAt(t, m)
    requires forall i :: 0 <= i < |t| ==> u[i] == LowerChar(t[i])
    ensures BoldLineAt(u, m)
  {
    SkipWhileLower(t, u, m + 1);
  }

  /** Whitespace, newlines and `*` are unchanged by lower-casing, so a run of whitespace ends at
      the same place in both texts. */
  lemma SkipWhileLower(t: string, u: string, j: nat)
    requires |t| == |u| && j <= |t|
    requires forall i :: 0 <= i < |t| ==> u[i] == LowerChar(t[i])
    ensures SkipWhile(u, j, IsSpace) == SkipWhile(t, j, IsSpace)
    ensures var k := SkipWhile(t, j, IsSpace); ContainsAt(t, "**", k) ==> ContainsAt(u, "**", k)
    decreases |t| - j
  {
    if j < |t| && IsSpace(t[j]) {
      SkipWhileLower(t, u, j + 1);
    }
    var k := SkipWhile(t, j, IsSpace);
    if ContainsAt(t, "**", k) {
      assert u[k..k + 2] == t[k..k + 2];
    }
  }
}
