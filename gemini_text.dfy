/**
 * The text helpers of lib/gemini-services.ts: `truncateWords`,
 * `splitLongClause` and `summarizeToSentences`, with the two regular
 * expressions they split on written out as matchers over `seq<char>`.
 */
module GeminiText {
  import opened JsStrings

  // ---------------------------------------------------------------------------
  // Words: `text.split(/\s+/).filter(Boolean)`, the maximal runs of non-space.

  predicate IsWord(w: string) {
    w != "" && NoSpace(w)
  }

  predicate AllWords(ws: seq<string>) {
    forall i :: 0 <= i < |ws| ==> IsWord(ws[i])
  }

  lemma ConsWords(w: string, rest: seq<string>)
    requires IsWord(w) && AllWords(rest)
    ensures AllWords([w] + rest)
  {
    var ws := [w] + rest;
    assert forall i :: 1 <= i < |ws| ==> ws[i] == rest[i - 1];
  }

  /** The word being read, if any, as a list. */
  function Flush(cur: string): seq<string> {
    if cur == "" then [] else [cur]
  }

  /** Reads `s` left to right; `cur` is the word read so far. */
  function Scan(s: string, cur: string): seq<string>
    decreases |s|
  {
    if |s| == 0 then Flush(cur)
    else if IsSpace(s[0]) then Flush(cur) + Scan(s[1..], "")
    else Scan(s[1..], cur + [s[0]])
  }

  lemma {:induction false} ScanAllWords(s: string, cur: string)
    requires NoSpace(cur)
    ensures AllWords(Scan(s, cur))
    decreases |s|
  {
    if |s| > 0 {
      if IsSpace(s[0]) {
        ScanAllWords(s[1..], "");
        if cur != "" {
          ConsWords(cur, Scan(s[1..], ""));
        }
      } else {
        var cur' := cur + [s[0]];
        assert forall i :: 0 <= i < |cur| ==> cur'[i] == cur[i];
        ScanAllWords(s[1..], cur');
      }
    }
  }

  /** The words of a text: non-empty and free of white space. */
  function Words(s: string): (ws: seq<string>)
    ensures AllWords(ws)
  {
    ScanAllWords(s, "");
    Scan(s, "")
  }

  /** Reading through a run of non-space characters extends the current word. */
  lemma {:induction false} ScanThroughWord(w: string, rest: string, cur: string)
    requires NoSpace(w)
    ensures Scan(w + rest, cur) == Scan(rest, cur + w)
    decreases |w|
  {
    if |w| == 0 {
      assert w + rest == rest;
      assert cur + w == cur;
    } else {
      assert (w + rest)[0] == w[0];
      assert (w + rest)[1..] == w[1..] + rest;
      ScanThroughWord(w[1..], rest, cur + [w[0]]);
      assert cur + [w[0]] + w[1..] == cur + w;
    }
  }

  lemma WordsOfWord(w: string)
    requires IsWord(w)
    ensures Words(w) == [w]
  {
    ScanThroughWord(w, "", "");
    assert w + "" == w;
    assert "" + w == w;
  }

  lemma WordsOfWordThenSpace(w: string, j: string)
    requires IsWord(w)
    ensures Words(w + " " + j) == [w] + Words(j)
  {
    assert w + " " + j == w + (" " + j);
    ScanThroughWord(w, " " + j, "");
    assert "" + w == w;
    assert (" " + j)[1..] == j;
  }

  lemma AllWordsSlice(ws: seq<string>, i: nat, j: nat)
    requires AllWords(ws) && i <= j <= |ws|
    ensures AllWords(ws[i..j])
  {
    assert forall k :: 0 <= k < j - i ==> ws[i..j][k] == ws[i + k];
  }

  /** Joining words with single spaces and reading the words back gives them again. */
  lemma {:induction false} WordsOfJoin(ws: seq<string>)
    requires AllWords(ws)
    ensures Words(Join(ws, " ")) == ws
    decreases |ws|
  {
    if |ws| == 1 {
      assert IsWord(ws[0]);
      WordsOfWord(ws[0]);
    } else if |ws| > 1 {
      assert IsWord(ws[0]);
      AllWordsSlice(ws, 1, |ws|);
      WordsOfJoin(ws[1..]);
      WordsOfWordThenSpace(ws[0], Join(ws[1..], " "));
    }
  }

  // ---------------------------------------------------------------------------
  // truncateWords.

  const Ellipsis := "…"

  function TruncateWords(text: string, maxWords: nat): string {
    var words := Words(text);
    if |words| <= maxWords then text
    else if maxWords >= 20 then
      var last := words[maxWords - 1];
      var next := words[maxWords];
      if |last| <= 3 && |next| <= 8 then Join(words[..maxWords + 1], " ")
      else Join(words[..maxWords], " ")
    else Join(words[..maxWords], " ") + Ellipsis
  }

  /** Joining the first n words and reading the words back gives those n words. */
  lemma WordsOfPrefix(text: string, n: nat)
    requires n <= |Words(text)|
    ensures Words(Join(Words(text)[..n], " ")) == Words(text)[..n]
  {
    AllWordsSlice(Words(text), 0, n);
    WordsOfJoin(Words(text)[..n]);
  }

  /**
   * A text within the limit is returned as it is. A longer one is cut to its
   * first `maxWords` words, single-spaced: with "…" after them below 20 words;
   * from 20 words on without it, and with one word more exactly when the last
   * kept word has at most 3 characters and the next at most 8.
   */
  lemma TruncateWordsSpec(text: string, maxWords: nat)
    ensures var words := Words(text);
      var r := TruncateWords(text, maxWords);
      (|words| <= maxWords ==> r == text)
      && (|words| > maxWords && maxWords < 20 ==>
            r == Join(words[..maxWords], " ") + "…" && Words(Join(words[..maxWords], " ")) == words[..maxWords])
      && (|words| > maxWords && maxWords >= 20 ==>
            var longer := |words[maxWords - 1]| <= 3 && |words[maxWords]| <= 8;
            var kept := if longer then maxWords + 1 else maxWords;
            r == Join(words[..kept], " ") && Words(r) == words[..kept])
  {
    if |Words(text)| > maxWords {
      WordsOfPrefix(text, maxWords);
      if maxWords >= 20 {
        WordsOfPrefix(text, maxWords + 1);
      }
    }
  }
}

module GeminiSplit {
  import opened Wrappers
  import opened JsStrings

  // ---------------------------------------------------------------------------
  // `String.prototype.split` with a regular expression, for the two patterns
  // used here. A match is tried at each position in turn; a match at `q`
  // ending at `e` cuts the piece before `q` and resumes at `e`.

  /**
   * `splitLongClause`'s `/\s*(?:and|or|as well as|, but|;|:|—|–)\s+/i` and
   * `summarizeToSentences`'s `/(?<=[.!?])\s+/`.
   */
  datatype Separator = Connector | SentenceEnd

  const Connectors: seq<string> := ["and", "or", "as well as", ", but", ";", ":", "—", "–"]

  /** The first alternative matching at `q` (ASCII case-insensitively) that white space follows. */
  function AlternativeAt(s: string, q: nat, alts: seq<string>): (r: Option<nat>)
    requires q <= |s|
    ensures r.Some? ==> q < r.value <= |s|
    decreases |alts|
  {
    if |alts| == 0 then None
    else
      var a := alts[0];
      if a != "" && q + |a| <= |s| && ToLower(s[q..q + |a|]) == a && SpaceRun(s, q + |a|) >= 1 then
        Some(q + |a| + SpaceRun(s, q + |a|))
      else AlternativeAt(s, q, alts[1..])
  }

  predicate SentenceMark(c: char) {
    c == '.' || c == '!' || c == '?'
  }

  /** Where a match starting at `q` ends, if one does. */
  function MatchAt(sep: Separator, s: string, q: nat): (r: Option<nat>)
    requires q < |s|
    ensures r.Some? ==> q < r.value <= |s|
  {
    match sep
    case Connector => AlternativeAt(s, q + SpaceRun(s, q), Connectors)
    case SentenceEnd =>
      if q >= 1 && SentenceMark(s[q - 1]) && IsSpace(s[q]) then Some(q + SpaceRun(s, q)) else None
  }

  /** The split loop: the current piece starts at `p`; a match is tried at `q`. */
  function SplitFrom(sep: Separator, s: string, p: nat, q: nat): (r: seq<string>)
    requires p <= q <= |s|
    ensures |r| >= 1
    decreases |s| - q
  {
    if q == |s| then [s[p..]]
    else
      match MatchAt(sep, s, q)
      case None => SplitFrom(sep, s, p, q + 1)
      case Some(e) => [s[p..q]] + SplitFrom(sep, s, e, e)
  }

  function RegexSplit(sep: Separator, s: string): seq<string> {
    SplitFrom(sep, s, 0, 0)
  }

  predicate NoMatchBetween(sep: Separator, s: string, q: nat, k: nat)
    requires k <= |s|
  {
    forall j :: q <= j < k ==> MatchAt(sep, s, j).None?
  }

  /** Positions without a match are passed over. */
  lemma {:induction false} SkipNoMatch(sep: Separator, s: string, p: nat, q: nat, k: nat)
    requires p <= q <= k <= |s| && NoMatchBetween(sep, s, q, k)
    ensures SplitFrom(sep, s, p, q) == SplitFrom(sep, s, p, k)
    decreases k - q
  {
    if q < k {
      assert MatchAt(sep, s, q).None?;
      SkipNoMatch(sep, s, p, q + 1, k);
    }
  }

  /** A text is split into more than one piece exactly when the pattern matches somewhere in it. */
  lemma {:induction false} SplitSingleIff(sep: Separator, s: string, p: nat, q: nat)
    requires p <= q <= |s|
    ensures |SplitFrom(sep, s, p, q)| == 1 <==> NoMatchBetween(sep, s, q, |s|)
    ensures NoMatchBetween(sep, s, q, |s|) ==> SplitFrom(sep, s, p, q) == [s[p..]]
    decreases |s| - q
  {
    if q < |s| {
      SplitSingleIff(sep, s, p, q + 1);
      SplitStep(sep, s, p, q);
      NoMatchCons(sep, s, q);
    }
  }

  /** One step of the split loop: no match at `q` moves on; a match cuts a piece. */
  lemma SplitStep(sep: Separator, s: string, p: nat, q: nat)
    requires p <= q < |s|
    ensures MatchAt(sep, s, q).None? ==> SplitFrom(sep, s, p, q) == SplitFrom(sep, s, p, q + 1)
    ensures MatchAt(sep, s, q).Some? ==> |SplitFrom(sep, s, p, q)| >= 2
  {
  }

  lemma NoMatchCons(sep: Separator, s: string, q: nat)
    requires q < |s|
    ensures NoMatchBetween(sep, s, q, |s|) <==> MatchAt(sep, s, q).None? && NoMatchBetween(sep, s, q + 1, |s|)
  {
    if MatchAt(sep, s, q).None? && NoMatchBetween(sep, s, q + 1, |s|) {
      forall j | q <= j < |s| ensures MatchAt(sep, s, j).None? {
        if j > q {
          assert q + 1 <= j < |s|;
        }
      }
    }
  }

  /** The texts the pattern matched, in order: what the split loop cuts out. */
  function Separators(sep: Separator, s: string, q: nat): seq<string>
    requires q <= |s|
    decreases |s| - q
  {
    if q == |s| then []
    else
      match MatchAt(sep, s, q)
      case None => Separators(sep, s, q + 1)
      case Some(e) => [s[q..e]] + Separators(sep, s, e)
  }

  /** `pieces[0] + seps[0] + pieces[1] + … + pieces[n]`. */
  function Interleave(pieces: seq<string>, seps: seq<string>): string
    requires |pieces| == |seps| + 1
    decreases |seps|
  {
    if |seps| == 0 then pieces[0] else pieces[0] + seps[0] + Interleave(pieces[1..], seps[1..])
  }

  /**
   * Splitting loses nothing: there is one matched separator between each two
   * pieces, and the pieces with the separators put back between them are
   * the text.
   */
  lemma {:induction false} SplitReassembles(sep: Separator, s: string, p: nat, q: nat)
    requires p <= q <= |s|
    ensures |SplitFrom(sep, s, p, q)| == |Separators(sep, s, q)| + 1
    ensures Interleave(SplitFrom(sep, s, p, q), Separators(sep, s, q)) == s[p..]
    decreases |s| - q
  {
    if q < |s| {
      if MatchAt(sep, s, q).None? {
        SplitReassembles(sep, s, p, q + 1);
        ReassembleSkip(sep, s, p, q);
      } else {
        var e := MatchAt(sep, s, q).value;
        SplitReassembles(sep, s, e, e);
        ReassembleCut(sep, s, p, q, e);
      }
    }
  }

  lemma ReassembleSkip(sep: Separator, s: string, p: nat, q: nat)
    requires p <= q < |s| && MatchAt(sep, s, q).None?
    requires |SplitFrom(sep, s, p, q + 1)| == |Separators(sep, s, q + 1)| + 1
    requires Interleave(SplitFrom(sep, s, p, q + 1), Separators(sep, s, q + 1)) == s[p..]
    ensures |SplitFrom(sep, s, p, q)| == |Separators(sep, s, q)| + 1
    ensures Interleave(SplitFrom(sep, s, p, q), Separators(sep, s, q)) == s[p..]
  {
    CutStep(sep, s, p, q);
  }

  lemma ReassembleCut(sep: Separator, s: string, p: nat, q: nat, e: nat)
    requires p <= q < |s| && MatchAt(sep, s, q) == Some(e)
    requires |SplitFrom(sep, s, e, e)| == |Separators(sep, s, e)| + 1
    requires Interleave(SplitFrom(sep, s, e, e), Separators(sep, s, e)) == s[e..]
    ensures |SplitFrom(sep, s, p, q)| == |Separators(sep, s, q)| + 1
    ensures Interleave(SplitFrom(sep, s, p, q), Separators(sep, s, q)) == s[p..]
  {
    CutStep(sep, s, p, q);
    InterleaveCons(s[p..q], s[q..e], SplitFrom(sep, s, e, e), Separators(sep, s, e));
    SlicesJoin(s, p, q, e);
  }

  lemma SlicesJoin(s: string, p: nat, q: nat, e: nat)
    requires p <= q <= e <= |s|
    ensures s[p..q] + s[q..e] + s[e..] == s[p..]
  {
  }

  /** One step of the split loop and of the separators it cuts. */
  lemma CutStep(sep: Separator, s: string, p: nat, q: nat)
    requires p <= q < |s|
    ensures MatchAt(sep, s, q).None? ==>
      SplitFrom(sep, s, p, q) == SplitFrom(sep, s, p, q + 1) && Separators(sep, s, q) == Separators(sep, s, q + 1)
    ensures MatchAt(sep, s, q).Some? ==>
      var e := MatchAt(sep, s, q).value;
      SplitFrom(sep, s, p, q) == [s[p..q]] + SplitFrom(sep, s, e, e)
      && Separators(sep, s, q) == [s[q..e]] + Separators(sep, s, e)
  {
  }

  lemma InterleaveCons(x: string, m: string, ps: seq<string>, ss: seq<string>)
    requires |ps| == |ss| + 1
    ensures Interleave([x] + ps, [m] + ss) == x + m + Interleave(ps, ss)
  {
    assert ([x] + ps)[1..] == ps;
    assert ([m] + ss)[1..] == ss;
  }

  // ---------------------------------------------------------------------------
  // splitLongClause.

  lemma TrimIdempotent(s: string)
    ensures Trim(Trim(s)) == Trim(s)
  {
    TrimOfNoSpace(Trim(s));
  }

  /** `map(s => s.trim())`: every piece comes back trimmed, so trimming again changes nothing. */
  function TrimAll(parts: seq<string>): (r: seq<string>)
    ensures |r| == |parts|
    ensures forall i :: 0 <= i < |parts| ==> r[i] == Trim(parts[i])
    ensures forall i {:trigger Trim(r[i])} :: 0 <= i < |r| ==> Trim(r[i]) == r[i]
  {
    var r := seq(|parts|, i requires 0 <= i < |parts| => Trim(parts[i]));
    assert forall i :: 0 <= i < |r| ==> Trim(r[i]) == r[i] by {
      forall i | 0 <= i < |r| ensures Trim(r[i]) == r[i] {
        TrimIdempotent(parts[i]);
      }
    }
    r
  }

  lemma TrimAllTwo(x: string, y: string)
    ensures TrimAll([x, y]) == [Trim(x), Trim(y)]
  {
  }

  /** `filter(Boolean)` on strings: the non-empty strings, in order and with repeats. */
  function NonEmpty(parts: seq<string>): (r: seq<string>)
    ensures |r| <= |parts|
    ensures forall x :: x in r <==> x in parts && x != ""
    ensures (forall i :: 0 <= i < |parts| ==> parts[i] != "") ==> r == parts
    decreases |parts|
  {
    if |parts| == 0 then []
    else if parts[0] == "" then NonEmpty(parts[1..])
    else [parts[0]] + NonEmpty(parts[1..])
  }

  /** Filtering a concatenation filters each side and keeps them in order. */
  lemma {:induction false} NonEmptyConcat(a: seq<string>, b: seq<string>)
    ensures NonEmpty(a + b) == NonEmpty(a) + NonEmpty(b)
    decreases |a|
  {
    if |a| == 0 {
      assert a + b == b;
    } else {
      assert (a + b)[0] == a[0];
      assert (a + b)[1..] == a[1..] + b;
      NonEmptyConcat(a[1..], b);
    }
  }

  function SplitLongClause(line: string): seq<string> {
    var parts := TrimAll(RegexSplit(Connector, line));
    if |parts| > 1 then NonEmpty(parts) else [line]
  }

  /**
   * A line without a connector comes back alone and unchanged; a line with
   * one comes back as its trimmed, non-empty pieces.
   */
  lemma SplitLongClauseSpec(line: string)
    ensures NoMatchBetween(Connector, line, 0, |line|) ==> SplitLongClause(line) == [line]
    ensures !NoMatchBetween(Connector, line, 0, |line|) ==>
      forall x :: x in SplitLongClause(line) ==> x != "" && Trim(x) == x
  {
    SplitSingleIff(Connector, line, 0, 0);
  }

  /** At the seam of `a + " and " + b` the connector matches " and ". */
  lemma AndMatchesAtSeam(a: string, b: string)
    requires b != "" && !IsSpace(b[0])
    ensures MatchAt(Connector, a + " and " + b, |a|) == Some(|a| + 5)
  {
    var s := a + " and " + b;
    var n := |a|;
    assert s[n] == ' ' && s[n + 1] == 'a' && s[n + 4] == ' ' && s[n + 5] == b[0];
    assert SpaceRun(s, n + 1) == 0;
    assert SpaceRun(s, n) == 1;
    assert SpaceRun(s, n + 5) == 0;
    assert SpaceRun(s, n + 4) == 1;
    assert s[n + 1..n + 4] == "and";
    assert ToLower("and") == "and";
    assert Connectors[0] == "and";
  }

  /**
   * Two trimmed clauses joined by " and " come back as those two clauses,
   * provided the connector matches nowhere inside either of them. The
   * condition is stated on the joined text: a clause ending in a
   * connector, such as "band", is matched there once the space after it
   * follows.
   */
  lemma SplitAroundAnd(a: string, b: string)
    requires a != "" && b != "" && Trim(a) == a && Trim(b) == b
    requires NoMatchBetween(Connector, a + " and " + b, 0, |a|)
    requires NoMatchBetween(Connector, a + " and " + b, |a| + 5, |a| + 5 + |b|)
    ensures SplitLongClause(a + " and " + b) == [a, b]
  {
    var s := a + " and " + b;
    AndMatchesAtSeam(a, b);
    RegexSplitAtSeam(s, |a|, |a| + 5);
    JoinedParts(a, b);
    TrimAllTwo(a, b);
    NonEmptyTwo(a, b);
    assert SplitLongClause(s) == NonEmpty(TrimAll([a, b]));
  }

  lemma NonEmptyTwo(a: string, b: string)
    requires a != "" && b != ""
    ensures NonEmpty([a, b]) == [a, b]
  {
  }

  /** A text matched exactly once, at `q` up to `e`, splits into the text before `q` and after `e`. */
  lemma RegexSplitAtSeam(s: string, q: nat, e: nat)
    requires q < e <= |s| && MatchAt(Connector, s, q) == Some(e)
    requires NoMatchBetween(Connector, s, 0, q) && NoMatchBetween(Connector, s, e, |s|)
    ensures RegexSplit(Connector, s) == [s[..q], s[e..]]
  {
    SkipNoMatch(Connector, s, 0, 0, q);
    SplitSingleIff(Connector, s, e, e);
  }

  lemma JoinedParts(a: string, b: string)
    ensures (a + " and " + b)[..|a|] == a && (a + " and " + b)[|a| + 5..] == b
  {
  }
}
