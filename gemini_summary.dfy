/**
 * `summarizeToSentences` (lib/gemini-services.ts): tidy the text, split it
 * after sentence marks, keep the first `maxSentences` sentences and join
 * them with single spaces.
 */
module GeminiSummary {
  import opened Wrappers
  import opened JsStrings
  import opened GeminiSplit

  // ---------------------------------------------------------------------------
  // The clean-up chain.

  /** The text after its leading run of line feeds. */
  function DropNewlines(s: string): (r: string)
    ensures |r| <= |s| && (|s| > 0 && s[0] == '\n' ==> |r| < |s|)
    ensures r == s[|s| - |r|..] && (r == [] || r[0] != '\n')
    ensures forall i :: 0 <= i < |s| - |r| ==> s[i] == '\n'
    decreases |s|
  {
    if |s| == 0 || s[0] != '\n' then s else DropNewlines(s[1..])
  }

  /** `replace(/\n+/g, " ")`: each run of line feeds becomes one space. */
  function NewlinesToSpaces(s: string): (r: string)
    ensures '\n' !in r
    decreases |s|
  {
    if |s| == 0 then ""
    else if s[0] == '\n' then " " + NewlinesToSpaces(DropNewlines(s))
    else [s[0]] + NewlinesToSpaces(s[1..])
  }

  /** Text without line feeds is left as it is. */
  lemma {:induction false} NoNewlineUnchanged(s: string)
    requires '\n' !in s
    ensures NewlinesToSpaces(s) == s
    decreases |s|
  {
    if |s| > 0 {
      assert s == [s[0]] + s[1..];
      NoNewlineUnchanged(s[1..]);
    }
  }

  /** Dropping the leading line feeds of a concatenation. */
  lemma {:induction false} DropNewlinesConcat(a: string, b: string)
    ensures DropNewlines(a + b) == if DropNewlines(a) == "" then DropNewlines(b) else DropNewlines(a) + b
    decreases |a|
  {
    if |a| == 0 {
      assert a + b == b;
    } else if a[0] == '\n' {
      assert (a + b)[1..] == a[1..] + b;
      DropNewlinesConcat(a[1..], b);
    }
  }

  /**
   * Rewriting a concatenation rewrites each side, unless the seam falls
   * inside a run of line feeds.
   */
  lemma {:induction false} NewlinesToSpacesConcat(a: string, b: string)
    requires a == "" || b == "" || a[|a| - 1] != '\n' || b[0] != '\n'
    ensures NewlinesToSpaces(a + b) == NewlinesToSpaces(a) + NewlinesToSpaces(b)
    decreases |a|, 1
  {
    if |a| == 0 {
      assert a + b == b;
    } else if a[0] != '\n' {
      ConcatTail(a, b);
      NewlinesToSpacesConcat(a[1..], b);
      assert [a[0]] + (NewlinesToSpaces(a[1..]) + NewlinesToSpaces(b))
          == ([a[0]] + NewlinesToSpaces(a[1..])) + NewlinesToSpaces(b);
    } else {
      NewlineRunConcat(a, b);
    }
  }

  lemma ConcatTail(a: string, b: string)
    requires |a| > 0
    ensures (a + b)[0] == a[0] && (a + b)[1..] == a[1..] + b
  {
  }

  /** The case of NewlinesToSpacesConcat where `a` starts with a line feed. */
  lemma {:induction false} NewlineRunConcat(a: string, b: string)
    requires |a| > 0 && a[0] == '\n'
    requires b == "" || a[|a| - 1] != '\n' || b[0] != '\n'
    ensures NewlinesToSpaces(a + b) == NewlinesToSpaces(a) + NewlinesToSpaces(b)
    decreases |a|, 0
  {
    var d := DropNewlines(a);
    if d == "" {
      OnlyNewlinesConcat(a, b);
    } else {
      assert d[|d| - 1] == a[|a| - 1];
      NewlinesToSpacesConcat(d, b);
      NewlineThenText(a, b);
    }
  }

  /** `a` is all line feeds: it becomes one space in front of `b`'s rewrite. */
  lemma OnlyNewlinesConcat(a: string, b: string)
    requires |a| > 0 && a[0] == '\n' && DropNewlines(a) == ""
    requires b == "" || a[|a| - 1] != '\n' || b[0] != '\n'
    ensures NewlinesToSpaces(a + b) == NewlinesToSpaces(a) + NewlinesToSpaces(b)
  {
    assert a[|a| - 1] == '\n';
    ConcatTail(a, b);
    NewlineRun(a);
    NewlineHead(a + b);
    DropNewlinesAll(a, b);
  }

  /** `a` has text after its leading line feeds, whose rewrite is already known to split. */
  lemma NewlineThenText(a: string, b: string)
    requires |a| > 0 && a[0] == '\n' && DropNewlines(a) != ""
    requires NewlinesToSpaces(DropNewlines(a) + b) == NewlinesToSpaces(DropNewlines(a)) + NewlinesToSpaces(b)
    ensures NewlinesToSpaces(a + b) == NewlinesToSpaces(a) + NewlinesToSpaces(b)
  {
    var d := DropNewlines(a);
    DropNewlinesConcat(a, b);
    ConcatTail(a, b);
    NewlineHead(a);
    NewlineHead(a + b);
    Assoc(" ", NewlinesToSpaces(d), NewlinesToSpaces(b));
  }

  /** A text starting with a line feed: one space, then the rest after the run. */
  lemma NewlineHead(s: string)
    requires |s| > 0 && s[0] == '\n'
    ensures NewlinesToSpaces(s) == " " + NewlinesToSpaces(DropNewlines(s))
  {
  }

  /** When `a` is all line feeds, so is everything dropped from `a + b`. */
  lemma DropNewlinesAll(a: string, b: string)
    requires DropNewlines(a) == "" && (b == "" || b[0] != '\n')
    ensures DropNewlines(a + b) == b
  {
    DropNewlinesConcat(a, b);
  }

  /** A run of line feeds becomes exactly one space. */
  lemma NewlineRun(run: string)
    requires |run| >= 1 && forall i :: 0 <= i < |run| ==> run[i] == '\n'
    ensures NewlinesToSpaces(run) == " "
  {
    AllNewlinesDropped(run);
  }

  /** A whole run of line feeds between two texts becomes one space, and each text is rewritten on its own. */
  lemma NewlineRunBecomesSpace(a: string, run: string, b: string)
    requires |run| >= 1 && forall i :: 0 <= i < |run| ==> run[i] == '\n'
    requires a == "" || a[|a| - 1] != '\n'
    requires b == "" || b[0] != '\n'
    ensures NewlinesToSpaces(a + run + b) == NewlinesToSpaces(a) + " " + NewlinesToSpaces(b)
  {
    assert (run + b)[0] == '\n';
    NewlinesToSpacesConcat(run, b);
    NewlineRun(run);
    NewlinesToSpacesConcat(a, run + b);
    Assoc(a, run, b);
    Assoc(NewlinesToSpaces(a), " ", NewlinesToSpaces(b));
  }

  lemma {:induction false} AllNewlinesDropped(run: string)
    requires forall i :: 0 <= i < |run| ==> run[i] == '\n'
    ensures DropNewlines(run) == ""
    decreases |run|
  {
    if |run| > 0 {
      AllNewlinesDropped(run[1..]);
    }
  }

  predicate Mark(c: char) {
    c == '_' || c == '#' || c == '*'
  }

  /** `replace(/[_#*]+/g, "")`: the marks are deleted and every other character is kept. */
  function DropMarks(s: string): (r: string)
    ensures forall i :: 0 <= i < |r| ==> !Mark(r[i])
    ensures (forall i :: 0 <= i < |s| ==> !Mark(s[i])) ==> r == s
    decreases |s|
  {
    if |s| == 0 then ""
    else if Mark(s[0]) then DropMarks(s[1..])
    else [s[0]] + DropMarks(s[1..])
  }

  /** Deleting marks from a concatenation deletes them from each side, keeping the order. */
  lemma {:induction false} DropMarksConcat(a: string, b: string)
    ensures DropMarks(a + b) == DropMarks(a) + DropMarks(b)
    decreases |a|
  {
    if |a| == 0 {
      assert a + b == b;
    } else {
      assert (a + b)[0] == a[0];
      assert (a + b)[1..] == a[1..] + b;
      DropMarksConcat(a[1..], b);
    }
  }

  /** `replace(/\s{2,}/g, " ")`: each run of two or more white-space characters becomes one space. */
  function CollapseSpaces(s: string): string
    decreases |s|
  {
    if |s| == 0 then ""
    else if SpaceRun(s, 0) >= 2 then " " + CollapseSpaces(s[SpaceRun(s, 0)..])
    else [s[0]] + CollapseSpaces(s[1..])
  }

  function Clean(text: string): string {
    Trim(CollapseSpaces(DropMarks(NewlinesToSpaces(text))))
  }

  /** `clean.split(/(?<=[.!?])\s+/).filter(Boolean)`. */
  function Sentences(s: string): seq<string> {
    NonEmpty(RegexSplit(SentenceEnd, s))
  }

  function SummarizeToSentences(text: string, maxSentences: nat): string {
    Join(Take(Sentences(Clean(text)), maxSentences), " ")
  }

  // ---------------------------------------------------------------------------
  // What a sentence piece looks like.

  predicate Trimmed(x: string) {
    x == [] || (!IsSpace(x[0]) && !IsSpace(x[|x| - 1]))
  }

  /** No sentence mark followed by white space inside. */
  predicate NoBreak(x: string) {
    forall k :: 1 <= k < |x| ==> !(SentenceMark(x[k - 1]) && IsSpace(x[k]))
  }

  predicate GoodPiece(x: string) {
    x != [] && Trimmed(x) && NoBreak(x)
  }

  /** Non-empty, trimmed, unbroken pieces, each but the last ending in a sentence mark. */
  predicate GoodPieces(ps: seq<string>) {
    (forall i :: 0 <= i < |ps| ==> GoodPiece(ps[i]))
    && (forall i :: 0 <= i < |ps| - 1 ==> SentenceMark(ps[i][|ps[i]| - 1]))
  }

  lemma GoodPiecesCons(x: string, rest: seq<string>)
    requires GoodPiece(x) && SentenceMark(x[|x| - 1]) && GoodPieces(rest)
    ensures GoodPieces([x] + rest)
  {
    var ps := [x] + rest;
    assert forall i :: 1 <= i < |ps| ==> ps[i] == rest[i - 1];
  }

  lemma GoodPiecesPrefix(ps: seq<string>, n: nat)
    requires GoodPieces(ps) && n <= |ps|
    ensures GoodPieces(ps[..n])
  {
  }

  lemma GoodPiecesTail(ps: seq<string>)
    requires GoodPieces(ps) && |ps| >= 1
    ensures GoodPieces(ps[1..])
  {
    assert forall i :: 0 <= i < |ps| - 1 ==> ps[1..][i] == ps[i + 1];
  }

  /** Sentence marks are not white space. */
  lemma MarkNotSpace(c: char)
    requires SentenceMark(c)
    ensures !IsSpace(c)
  {
  }

  // ---------------------------------------------------------------------------
  // Splitting a trimmed text gives good pieces.

  lemma PieceIsGood(c: string, p: nat, q: nat)
    requires p < q <= |c| && !IsSpace(c[p]) && !IsSpace(c[q - 1])
    requires NoMatchBetween(SentenceEnd, c, p + 1, q)
    ensures GoodPiece(c[p..q])
  {
    var x := c[p..q];
    forall k | 1 <= k < |x| ensures !(SentenceMark(x[k - 1]) && IsSpace(x[k])) {
      assert MatchAt(SentenceEnd, c, p + k).None?;
      assert x[k - 1] == c[p + k - 1] && x[k] == c[p + k];
    }
  }

  lemma {:induction false} SplitPiecesGood(c: string, p: nat, q: nat)
    requires Trimmed(c) && p <= q <= |c| && p < |c| && !IsSpace(c[p])
    requires NoMatchBetween(SentenceEnd, c, p + 1, q)
    ensures GoodPieces(SplitFrom(SentenceEnd, c, p, q))
    decreases |c| - q
  {
    if q == |c| {
      PieceIsGood(c, p, q);
      assert c[p..] == c[p..q];
    } else {
      match MatchAt(SentenceEnd, c, q)
      case None =>
        assert NoMatchBetween(SentenceEnd, c, p + 1, q + 1);
        SplitPiecesGood(c, p, q + 1);
      case Some(e) =>
        assert q >= 1 && SentenceMark(c[q - 1]) && IsSpace(c[q]);
        MarkNotSpace(c[q - 1]);
        assert q > p;
        PieceIsGood(c, p, q);
        SpaceRunSpaces(c, q);
        assert IsSpace(c[e - 1]);
        assert e < |c| && !IsSpace(c[e]);
        SplitPiecesGood(c, e, e);
        GoodPiecesCons(c[p..q], SplitFrom(SentenceEnd, c, e, e));
    }
  }

  /** Splitting a trimmed non-empty text gives good pieces. */
  lemma SentencesOfTrimmed(c: string)
    requires Trimmed(c) && c != ""
    ensures GoodPieces(RegexSplit(SentenceEnd, c))
  {
    SplitPiecesGood(c, 0, 0);
  }

  // ---------------------------------------------------------------------------
  // Joining good pieces with spaces and splitting again gives them back.

  lemma JoinHead(ps: seq<string>)
    requires |ps| >= 1 && ps[0] != ""
    ensures |Join(ps, " ")| > 0 && Join(ps, " ")[0] == ps[0][0]
  {
  }

  /** No sentence break inside a good piece laid out at position k. */
  lemma NoMatchInPiece(x: string, s: string, k: nat)
    requires GoodPiece(x) && k + |x| <= |s| && s[k..k + |x|] == x
    ensures NoMatchBetween(SentenceEnd, s, k, k + |x|)
  {
    forall j | k <= j < k + |x| ensures MatchAt(SentenceEnd, s, j).None? {
      assert s[j] == x[j - k];
      if j > k {
        assert s[j - 1] == x[j - 1 - k];
      }
    }
  }

  /** The break after a piece: its closing mark, one space, then a non-space. */
  lemma BreakAfter(s: string, m: nat)
    requires 1 <= m && m + 1 < |s| && SentenceMark(s[m - 1]) && s[m] == ' ' && !IsSpace(s[m + 1])
    ensures MatchAt(SentenceEnd, s, m) == Some(m + 1)
  {
    assert SpaceRun(s, m + 1) == 0;
  }

  /** Where the pieces of `x + " " + j` lie. */
  lemma JoinLayout(s: string, k: nat, x: string, j: string)
    requires k <= |s| && s[k..] == x + " " + j
    ensures k + |x| < |s| && s[k..k + |x|] == x && s[k + |x|] == ' ' && s[k + |x| + 1..] == j
  {
    assert s[k..][..|x|] == x;
    assert s[k..][|x| + 1..] == j;
  }

  /**
   * Good pieces joined with single spaces, found at position k of a text,
   * are split there into exactly those pieces.
   */
  lemma {:induction false} ResplitFrom(s: string, k: nat, ps: seq<string>)
    requires GoodPieces(ps) && |ps| >= 1
    requires k <= |s| && s[k..] == Join(ps, " ")
    ensures SplitFrom(SentenceEnd, s, k, k) == ps
    decreases |ps|
  {
    var x := ps[0];
    assert GoodPiece(x);
    if |ps| == 1 {
      assert s[k..k + |x|] == x;
      NoMatchInPiece(x, s, k);
      SkipNoMatch(SentenceEnd, s, k, k, |s|);
    } else {
      var rest := ps[1..];
      var m := k + |x|;
      JoinLayout(s, k, x, Join(rest, " "));
      GoodPiecesTail(ps);
      assert GoodPiece(rest[0]);
      JoinHead(rest);
      NoMatchInPiece(x, s, k);
      SkipNoMatch(SentenceEnd, s, k, k, m);
      assert SentenceMark(x[|x| - 1]) && s[m - 1] == x[|x| - 1];
      BreakAfter(s, m);
      ResplitFrom(s, m + 1, rest);
    }
  }

  lemma ResplitJoin(ps: seq<string>)
    requires GoodPieces(ps) && |ps| >= 1
    ensures RegexSplit(SentenceEnd, Join(ps, " ")) == ps
  {
    ResplitFrom(Join(ps, " "), 0, ps);
  }

  lemma {:induction false} NonEmptyOfGood(ps: seq<string>)
    requires GoodPieces(ps)
    ensures NonEmpty(ps) == ps
    decreases |ps|
  {
    if |ps| > 0 {
      assert GoodPiece(ps[0]);
      GoodPiecesTail(ps);
      NonEmptyOfGood(ps[1..]);
      assert ps == [ps[0]] + ps[1..];
    }
  }

  /**
   * The summary holds at most `maxSentences` sentences: split again the same
   * way, it gives back exactly the first `maxSentences` sentences of the
   * cleaned text.
   */
  lemma SummaryResplits(text: string, maxSentences: nat)
    ensures Sentences(SummarizeToSentences(text, maxSentences)) == Take(Sentences(Clean(text)), maxSentences)
    ensures |Sentences(SummarizeToSentences(text, maxSentences))| <= maxSentences
  {
    var c := Clean(text);
    if c == "" {
      assert RegexSplit(SentenceEnd, c) == [""];
      assert Sentences(c) == [];
      assert Sentences("") == [];
    } else {
      SentencesOfTrimmed(c);
      var ps := RegexSplit(SentenceEnd, c);
      NonEmptyOfGood(ps);
      var t := Take(ps, maxSentences);
      if t == [] {
        assert RegexSplit(SentenceEnd, "") == [""];
      } else {
        GoodPiecesPrefix(ps, |t|);
        ResplitJoin(t);
        NonEmptyOfGood(t);
      }
    }
  }
}
