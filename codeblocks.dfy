/** Code blocks and code rewrites: the `re.findall` scanners for fenced and inline code (which
    are case-sensitive and use DOTALL), and the `re.sub` rewrites between `public` and `external`
    and between `i++` and `++i` used to synthesise a missing code example. */
module CodeBlocks {
  import opened Text

  // ---------------------------------------------------------------- fenced blocks

  /** The first character of a fence, or of a code span. */
  predicate NotBacktick(c: char) { c != '`' }

  /** One match of ```` ```(?:solidity|sol)?\s*(.*?)``` ```` whose opening fence is at `p`: the
      capture and the index just past the closing fence. The tag and the whitespace are taken
      greedily; the lazy capture then ends at the first closing fence. */
  function FenceAt(s: string, p: nat): (r: Option<(string, nat)>)
    requires ContainsAt(s, "```", p)
    ensures r.Some? ==> p + 6 <= r.value.1 <= |s| && !Contains(r.value.0, "```")
  {
    var j := p + 3;
    var t := if ContainsAt(s, "solidity", j) then j + 8 else if ContainsAt(s, "sol", j) then j + 3 else j;
    var c := SkipWhile(s, t, IsSpace);
    match IndexOf(s, "```", c)
    case None => None
    case Some(q) =>
      NoFenceInside(s, c, q);
      Some((s[c..q], q + 3))
  }

  lemma NoFenceInside(s: string, c: nat, q: nat)
    requires c <= q <= |s|
    requires forall m :: c <= m < q ==> !ContainsAt(s, "```", m)
    ensures !Contains(s[c..q], "```")
  {
    if Contains(s[c..q], "```") {
      var i :| 0 <= i <= |s[c..q]| - 3 && ContainsAt(s[c..q], "```", i);
      assert s[c..q][i] == s[c + i] && s[c..q][i + 1] == s[c + i + 1] && s[c..q][i + 2] == s[c + i + 2];
      assert s[c + i..c + i + 3] == s[c..q][i..i + 3];
      assert ContainsAt(s, "```", c + i);
      assert false;
    }
  }

  /** `re.findall(r'```(?:solidity|sol)?\s*(.*?)```', s, re.DOTALL)` from index `from`. An
      opening fence without a closing one ends the scan: no later fence can close either. */
  function FencedBlocks(s: string, from: nat): (r: seq<string>)
    ensures forall k :: 0 <= k < |r| ==> !Contains(r[k], "```")
    decreases |s| - from
  {
    match IndexOf(s, "```", from)
    case None => []
    case Some(p) =>
      match FenceAt(s, p)
      case None => []
      case Some((cap, e)) => [cap] + FencedBlocks(s, e)
  }

  /** One match of ```` ```(?:solidity)?\s*([^`]+?)``` ```` whose opening fence is at `p`. The
      capture cannot cross a backtick, so the first backtick `b` after the opening fence has to
      begin the closing fence. When the whitespace run reaches `b`, the run gives back its last
      character to the capture; when the tag is directly followed by the fence, the tag is
      given back instead. */
  function StrictFenceAt(s: string, p: nat): (r: Option<(string, nat)>)
    requires ContainsAt(s, "```", p)
    ensures r.Some? ==> p + 3 < r.value.1 <= |s|
    ensures r.Some? ==> forall i :: 0 <= i < |r.value.0| ==> r.value.0[i] != '`'
  {
    var j := p + 3;
    match IndexOf(s, "`", j)
    case None => None
    case Some(b) =>
      if b == j || !ContainsAt(s, "```", b) then None
      else
        var tagged := ContainsAt(s, "solidity", j);
        var t := if tagged then j + 8 else j;
        assert tagged ==> b >= j + 8 by { if tagged { TagHasNoBacktick(s, j); } }
        assert t <= b;
        var c := SkipWhile(s, t, IsSpace);
        assert c <= b by { assert !IsSpace(s[b]); }
        NoBacktickBefore(s, j, b);
        var a := if c < b then c else if c > t then b - 1 else j;
        NoBacktickIn(s, a, b);
        Some((s[a..b], b + 3))
  }

  /** The tag `solidity` holds no backtick. */
  lemma TagHasNoBacktick(s: string, j: nat)
    requires ContainsAt(s, "solidity", j)
    ensures forall m :: j <= m < j + 8 ==> !ContainsAt(s, "`", m)
  {
    forall m | j <= m < j + 8 ensures !ContainsAt(s, "`", m) {
      assert s[m] == s[j..j + 8][m - j];
      assert s[m..m + 1] == [s[m]];
    }
  }

  lemma NoBacktickBefore(s: string, j: nat, b: nat)
    requires j <= b < |s|
    requires forall q :: j <= q < b ==> !ContainsAt(s, "`", q)
    ensures forall q :: j <= q < b ==> s[q] != '`'
  {
    forall q | j <= q < b ensures s[q] != '`' {
      if s[q] == '`' { assert s[q..q + 1] == "`"; assert ContainsAt(s, "`", q); }
    }
  }

  lemma NoBacktickIn(s: string, a: nat, b: nat)
    requires a <= b <= |s|
    requires forall q :: a <= q < b ==> s[q] != '`'
    ensures forall i :: 0 <= i < |s[a..b]| ==> s[a..b][i] != '`'
  {
  }

  /** `re.findall(r'```(?:solidity)?\s*([^`]+?)```', s, re.DOTALL)` from index `from`; a failed
      attempt resumes one character later. */
  function StrictFencedBlocks(s: string, from: nat): (r: seq<string>)
    ensures forall k, i :: 0 <= k < |r| && 0 <= i < |r[k]| ==> r[k][i] != '`'
    decreases |s| - from
  {
    match IndexOf(s, "```", from)
    case None => []
    case Some(p) =>
      match StrictFenceAt(s, p)
      case Some((cap, e)) => [cap] + StrictFencedBlocks(s, e)
      case None => StrictFencedBlocks(s, p + 1)
  }

  // ---------------------------------------------------------------- inline code

  predicate NotBacktickOrNewline(c: char) { c != '`' && c != '\n' }

  /** One match of `` `([^`\n]{min,})` `` whose opening backtick is at `p`. */
  function InlineAt(s: string, p: nat, min: nat): (r: Option<(string, nat)>)
    requires ContainsAt(s, "`", p)
    ensures r.Some? ==> p < r.value.1 <= |s| && |r.value.0| >= min
    ensures r.Some? ==> forall i :: 0 <= i < |r.value.0| ==> NotBacktickOrNewline(r.value.0[i])
  {
    var e := SkipWhile(s, p + 1, NotBacktickOrNewline);
    if e - (p + 1) >= min && e < |s| && s[e] == '`' then Some((s[p + 1..e], e + 1)) else None
  }

  /** `re.findall(r'`([^`\n]{min,})`', s)` from index `from`. */
  function InlineBlocks(s: string, from: nat, min: nat): (r: seq<string>)
    ensures forall k :: 0 <= k < |r| ==> |r[k]| >= min
    ensures forall k, i :: 0 <= k < |r| && 0 <= i < |r[k]| ==> NotBacktickOrNewline(r[k][i])
    decreases |s| - from
  {
    match IndexOf(s, "`", from)
    case None => []
    case Some(p) =>
      match InlineAt(s, p, min)
      case Some((cap, e)) => [cap] + InlineBlocks(s, e, min)
      case None => InlineBlocks(s, p + 1, min)
  }

  /** Every candidate code block of the gas extractor, fenced blocks first, then inline code of
      at least twenty characters. */
  function GasCodeCandidates(s: string): seq<string> {
    FencedBlocks(s, 0) + InlineBlocks(s, 0, 20)
  }

  /** Every candidate code block of the vulnerability extractor: fenced blocks first, then
      inline code of at least fifteen characters. */
  function SecurityCodeCandidates(s: string): seq<string> {
    StrictFencedBlocks(s, 0) + InlineBlocks(s, 0, 15)
  }

  // ---------------------------------------------------------------- rewrites

  /** The four `re.sub` rewrites of the code generators. */
  datatype Substitution =
    | PublicToExternal    // \bpublic\b  -> external
    | PostToPreIncrement  // \bi\+\+     -> ++i
    | ExternalToPublic    // \bexternal\b -> public
    | PreToPostIncrement  // \+\+i\b     -> i++

  function Target(rw: Substitution): string {
    match rw
    case PublicToExternal => "public"
    case PostToPreIncrement => "i++"
    case ExternalToPublic => "external"
    case PreToPostIncrement => "++i"
  }

  function Replacement(rw: Substitution): string {
    match rw
    case PublicToExternal => "external"
    case PostToPreIncrement => "++i"
    case ExternalToPublic => "public"
    case PreToPostIncrement => "i++"
  }

  /** `\bpublic\b` matches at `i`. */
  predicate PublicAt(s: string, i: nat) { WordAt(s, "public", i) }

  /** `\bi\+\+` matches at `i`. */
  predicate PostIncrementAt(s: string, i: nat) {
    ContainsAt(s, "i++", i) && (i == 0 || !IsWordChar(s[i - 1]))
  }

  /** `\bexternal\b` matches at `i`. */
  predicate ExternalAt(s: string, i: nat) { WordAt(s, "external", i) }

  /** `\+\+i\b` matches at `i`. */
  predicate PreIncrementAt(s: string, i: nat) {
    ContainsAt(s, "++i", i) && (i + 3 == |s| || !IsWordChar(s[i + 3]))
  }

  /** Where the pattern of `rw` matches in the original text. */
  function MatcherOf(rw: Substitution): (string, nat) -> bool {
    match rw
    case PublicToExternal => PublicAt
    case PostToPreIncrement => PostIncrementAt
    case ExternalToPublic => ExternalAt
    case PreToPostIncrement => PreIncrementAt
  }

  /** `re.sub` on `s[i..]` of a pattern of length `n` that `at` recognises, by `rep`: matches
      are replaced left to right without overlapping, and the boundary tests look at the
      original text. */
  function Rewritten(s: string, i: nat, at: (string, nat) -> bool, n: nat, rep: string): string
    requires i <= |s|
    decreases |s| - i
  {
    if i == |s| then []
    else if at(s, i) && 0 < n <= |s| - i then rep + Rewritten(s, i + n, at, n, rep)
    else [s[i]] + Rewritten(s, i + 1, at, n, rep)
  }

  function Rewrite(s: string, rw: Substitution): string {
    Rewritten(s, 0, MatcherOf(rw), |Target(rw)|, Replacement(rw))
  }

  /** Text in which the pattern never matches comes back unchanged. */
  lemma {:induction false} RewriteWithoutMatches(s: string, i: nat, at: (string, nat) -> bool, n: nat, rep: string)
    requires i <= |s|
    requires forall j :: i <= j < |s| ==> !at(s, j)
    ensures Rewritten(s, i, at, n, rep) == s[i..]
    decreases |s| - i
  {
    if i < |s| {
      RewriteWithoutMatches(s, i + 1, at, n, rep);
      assert [s[i]] + s[i + 1..] == s[i..];
    }
  }

  /** `_generate_realistic_optimization`. */
  function GenerateRealisticOptimization(originalCode: string): (r: string)
    ensures r != []
  {
    if originalCode == [] then "// Gas-optimized version"
    else "// Gas-optimized version:\n" + Rewrite(Rewrite(originalCode, PublicToExternal), PostToPreIncrement)
  }

  /** `_generate_realistic_original`. */
  function GenerateRealisticOriginal(optimizedCode: string): (r: string)
    ensures r != []
  {
    if optimizedCode == [] then "// Original inefficient code"
    else "// Original inefficient version:\n" + Rewrite(Rewrite(optimizedCode, ExternalToPublic), PreToPostIncrement)
  }

  predicate NoMatches(s: string, at: (string, nat) -> bool) {
    forall j :: 0 <= j < |s| ==> !at(s, j)
  }

  /** Code with nothing to optimise is only labelled. */
  lemma OptimizationOfOptimalCode(code: string)
    requires code != []
    requires NoMatches(code, PublicAt) && NoMatches(code, PostIncrementAt)
    ensures GenerateRealisticOptimization(code) == "// Gas-optimized version:\n" + code
  {
    RewriteWithoutMatches(code, 0, PublicAt, 6, "external");
    RewriteWithoutMatches(code, 0, PostIncrementAt, 3, "++i");
  }

  /** Code with nothing to de-optimise is only labelled. */
  lemma OriginalOfPlainCode(code: string)
    requires code != []
    requires NoMatches(code, ExternalAt) && NoMatches(code, PreIncrementAt)
    ensures GenerateRealisticOriginal(code) == "// Original inefficient version:\n" + code
  {
    RewriteWithoutMatches(code, 0, ExternalAt, 8, "public");
    RewriteWithoutMatches(code, 0, PreIncrementAt, 3, "i++");
  }

  // ---------------------------------------------------------------- no `public` survives

  /** A whole-word `public` at `j` of `o`, where `ctx` says whether the character before `o`
      is a word character. */
  predicate PublicWordIn(o: string, ctx: bool, j: int) {
    ContainsAt(o, "public", j) &&
    (if j == 0 then !ctx else !IsWordChar(o[j - 1])) &&
    (j + 6 == |o| || !IsWordChar(o[j + 6]))
  }

  /** Output either begins with the replacement's first character or with a copied one. */
  lemma RewrittenHead(s: string, k: nat, at: (string, nat) -> bool, n: nat, rep: string)
    requires k < |s| && rep != []
    ensures Rewritten(s, k, at, n, rep) != []
    ensures Rewritten(s, k, at, n, rep)[0] == rep[0] ||
      Rewritten(s, k, at, n, rep) == [s[k]] + Rewritten(s, k + 1, at, n, rep)
  {
  }

  /** Output that begins with `w`, a word without the replacement's first character, was
      copied from the text. */
  lemma {:induction false} CopiedPrefix(s: string, k: nat, w: string, at: (string, nat) -> bool, n: nat, rep: string)
    requires k <= |s| && rep != []
    requires forall i :: 0 <= i < |w| ==> w[i] != rep[0]
    requires |w| <= |Rewritten(s, k, at, n, rep)| && Rewritten(s, k, at, n, rep)[..|w|] == w
    ensures k + |w| <= |s| && s[k..k + |w|] == w
    ensures Rewritten(s, k, at, n, rep) == w + Rewritten(s, k + |w|, at, n, rep)
    decreases |w|
  {
    if w == [] {
      assert s[k..k] == w;
    } else {
      CopiedHead(s, k, w, at, n, rep);
      CopiedPrefix(s, k + 1, w[1..], at, n, rep);
      SliceCons(s, k, k + |w|);
      ConsJoin(Rewritten(s, k, at, n, rep), s[k], Rewritten(s, k + 1, at, n, rep),
        w, Rewritten(s, k + |w|, at, n, rep));
    }
  }

  lemma CopiedHead(s: string, k: nat, w: string, at: (string, nat) -> bool, n: nat, rep: string)
    requires k <= |s| && w != [] && rep != [] && w[0] != rep[0]
    requires |w| <= |Rewritten(s, k, at, n, rep)| && Rewritten(s, k, at, n, rep)[..|w|] == w
    ensures k < |s| && s[k] == w[0]
    ensures Rewritten(s, k, at, n, rep) == [s[k]] + Rewritten(s, k + 1, at, n, rep)
    ensures |w| - 1 <= |Rewritten(s, k + 1, at, n, rep)|
    ensures Rewritten(s, k + 1, at, n, rep)[..|w| - 1] == w[1..]
  {
    var o := Rewritten(s, k, at, n, rep);
    RewrittenHead(s, k, at, n, rep);
    assert o[0] == o[..|w|][0];
    var o' := Rewritten(s, k + 1, at, n, rep);
    assert o'[..|w| - 1] == o[1..|w|];
  }

  /** A text that is a character followed by the rest of a word, then a tail, is the word
      followed by the tail. */
  lemma ConsJoin<T>(o: seq<T>, x: T, o': seq<T>, w: seq<T>, tail: seq<T>)
    requires w != [] && x == w[0]
    requires o == [x] + o' && o' == w[1..] + tail
    ensures o == w + tail
  {
    assert w == [w[0]] + w[1..];
  }

  lemma SliceCons<T>(s: seq<T>, k: nat, e: nat)
    requires k < e <= |s|
    ensures s[k..e] == [s[k]] + s[k + 1..e]
  {
  }

  /** The visibility rewrite starts its output with a word character exactly when the text
      does. */
  lemma RewriteHead(s: string, i: nat)
    requires i < |s|
    ensures Rewritten(s, i, PublicAt, 6, "external") != []
    ensures IsWordChar(Rewritten(s, i, PublicAt, 6, "external")[0]) == IsWordChar(s[i])
  {
    if PublicAt(s, i) {
      assert s[i] == "public"[0];
    }
  }

  /** The invariant behind `PublicRewriteRemovesPublic`, for the output produced from `i` on. */
  lemma {:induction false} NoPublicWordFrom(s: string, i: nat, j: nat)
    requires i <= |s|
    ensures !PublicWordIn(Rewritten(s, i, PublicAt, 6, "external"), i > 0 && IsWordChar(s[i - 1]), j)
    decreases |s| - i, 1
  {
    if i < |s| {
      if PublicAt(s, i) {
        NoPublicAfterReplacement(s, i, j);
      } else if j == 0 {
        NoPublicAtCopiedStart(s, i);
      } else {
        NoPublicAfterCopy(s, i, j);
      }
    }
  }

  lemma {:induction false} NoPublicAfterReplacement(s: string, i: nat, j: nat)
    requires i < |s| && PublicAt(s, i)
    ensures !PublicWordIn(Rewritten(s, i, PublicAt, 6, "external"), i > 0 && IsWordChar(s[i - 1]), j)
    decreases |s| - i, 0
  {
    var ctx := i > 0 && IsWordChar(s[i - 1]);
    var o := Rewritten(s, i, PublicAt, 6, "external");
    var o' := Rewritten(s, i + 6, PublicAt, 6, "external");
    assert o == "external" + o';
    if j < 8 {
      assert o[j] == "external"[j];
    } else if j == 8 {
      assert o[7] == 'l';
    } else if PublicWordIn(o, ctx, j) {
      PublicWordShift(o, "external", o', ctx, true, j);
      NoPublicWordFrom(s, i + 6, j - 8);
    }
  }

  /** A whole-word `public` that lies past a prefix lies in the rest of the text. */
  lemma PublicWordShift(o: string, p: string, o': string, ctx: bool, ctx': bool, j: nat)
    requires o == p + o' && j > |p| && PublicWordIn(o, ctx, j)
    ensures PublicWordIn(o', ctx', j - |p|)
  {
    var k := j - |p|;
    assert o[j..j + 6] == o'[k..k + 6];
    assert o[j - 1] == o'[k - 1];
    assert j + 6 < |o| ==> o[j + 6] == o'[k + 6];
  }

  /** A whole-word `public` right after a prefix starts the rest of the text. */
  lemma PublicWordAfter(o: string, p: string, o': string, ctx: bool, j: nat)
    requires o == p + o' && p != [] && j == |p| && PublicWordIn(o, ctx, j)
    ensures PublicWordIn(o', IsWordChar(p[|p| - 1]), 0)
  {
    assert o[j..j + 6] == o'[..6];
    assert o[j - 1] == p[|p| - 1];
    assert j + 6 < |o| ==> o[j + 6] == o'[6];
  }

  lemma NoPublicAtCopiedStart(s: string, i: nat)
    requires i < |s| && !PublicAt(s, i)
    ensures !PublicWordIn(Rewritten(s, i, PublicAt, 6, "external"), i > 0 && IsWordChar(s[i - 1]), 0)
  {
    var o := Rewritten(s, i, PublicAt, 6, "external");
    if PublicWordIn(o, i > 0 && IsWordChar(s[i - 1]), 0) {
      PublicCopiedFromText(s, i);
    }
  }

  /** A whole-word `public` at the start of the output of a copying step was in the text. */
  lemma PublicCopiedFromText(s: string, i: nat)
    requires i < |s|
    requires Rewritten(s, i, PublicAt, 6, "external") == [s[i]] + Rewritten(s, i + 1, PublicAt, 6, "external")
    requires PublicWordIn(Rewritten(s, i, PublicAt, 6, "external"), i > 0 && IsWordChar(s[i - 1]), 0)
    ensures PublicAt(s, i)
  {
    var o := Rewritten(s, i, PublicAt, 6, "external");
    var o' := Rewritten(s, i + 1, PublicAt, 6, "external");
    assert o[..6] == "public";
    assert o'[..5] == o[1..6];
    CopiedPrefix(s, i + 1, "ublic", PublicAt, 6, "external");
    SliceCons(s, i, i + 6);
    if i + 6 < |s| {
      RewriteHead(s, i + 6);
      assert o[6] == Rewritten(s, i + 6, PublicAt, 6, "external")[0];
    }
    assert WordAt(s, "public", i);
  }

  lemma {:induction false} NoPublicAfterCopy(s: string, i: nat, j: nat)
    requires i < |s| && !PublicAt(s, i) && j > 0
    ensures !PublicWordIn(Rewritten(s, i, PublicAt, 6, "external"), i > 0 && IsWordChar(s[i - 1]), j)
    decreases |s| - i, 0
  {
    var ctx := i > 0 && IsWordChar(s[i - 1]);
    var o := Rewritten(s, i, PublicAt, 6, "external");
    var o' := Rewritten(s, i + 1, PublicAt, 6, "external");
    assert o == [s[i]] + o';
    if PublicWordIn(o, ctx, j) {
      if j == 1 {
        PublicWordAfter(o, [s[i]], o', ctx, j);
      } else {
        PublicWordShift(o, [s[i]], o', ctx, IsWordChar(s[i]), j);
      }
      NoPublicWordFrom(s, i + 1, j - 1);
    }
  }

  /** After `re.sub(r'\bpublic\b', 'external', code)` no whole-word `public` is left. */
  lemma PublicRewriteRemovesPublic(code: string)
    ensures forall j :: !WordAt(Rewrite(code, PublicToExternal), "public", j)
  {
    forall j ensures !WordAt(Rewrite(code, PublicToExternal), "public", j) {
      if j >= 0 {
        NoPublicWordFrom(code, 0, j);
      }
    }
  }
}
