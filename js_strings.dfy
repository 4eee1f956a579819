/**
 * The handful of JavaScript string primitives the modelled code relies on,
 * over `seq<char>`: the white-space class shared by `\s` and `trim()`,
 * `split` on a one-character separator, `join`, `includes`, an ASCII
 * `toLowerCase`, and the `a || b` fallback on strings.
 */
module JsStrings {

  /** The characters matched by `\s` and removed by `String.prototype.trim`. */
  predicate IsSpace(c: char) {
    var n := c as int;
    n == 0x09 || n == 0x0A || n == 0x0B || n == 0x0C || n == 0x0D || n == 0x20
    || n == 0xA0 || n == 0x1680 || (0x2000 <= n <= 0x200A) || n == 0x2028
    || n == 0x2029 || n == 0x202F || n == 0x205F || n == 0x3000 || n == 0xFEFF
  }

  predicate NoSpace(s: string) {
    forall i :: 0 <= i < |s| ==> !IsSpace(s[i])
  }

  /** `a || b` where both sides are strings: the empty string is falsy. */
  function Or(a: string, b: string): (r: string)
    ensures a != "" ==> r == a
    ensures a == "" ==> r == b
  {
    if a != "" then a else b
  }

  function TrimStart(s: string): (r: string)
    ensures |r| <= |s| && r == s[|s| - |r|..]
    ensures r == [] || !IsSpace(r[0])
    ensures forall i :: 0 <= i < |s| - |r| ==> IsSpace(s[i])
  {
    if |s| > 0 && IsSpace(s[0]) then TrimStart(s[1..]) else s
  }

  function TrimEnd(s: string): (r: string)
    ensures |r| <= |s| && r == s[..|r|]
    ensures r == [] || !IsSpace(r[|r| - 1])
    ensures forall i :: |r| <= i < |s| ==> IsSpace(s[i])
  {
    if |s| > 0 && IsSpace(s[|s| - 1]) then TrimEnd(s[..|s| - 1]) else s
  }

  /** `String.prototype.trim`: white space removed from both ends. */
  function Trim(s: string): (r: string)
    ensures |r| <= |s|
    ensures r == [] || (!IsSpace(r[0]) && !IsSpace(r[|r| - 1]))
    ensures Contains(s, r)
  {
    var q := SpaceRun(s, 0);
    SpaceRunSpaces(s, 0);
    var r := TrimEnd(s[q..]);
    PrefixOfSuffix(s, s[q..], r);
    r
  }

  /** Every character of `s` from `lo` up to `hi` is white space. */
  predicate SpaceBetween(s: string, lo: nat, hi: nat)
    requires lo <= hi <= |s|
  {
    forall i :: lo <= i < hi ==> IsSpace(s[i])
  }

  /**
   * Trimming removes white space and nothing else: the result starts right
   * after the leading run of white space, and everything after it is white
   * space.
   */
  lemma TrimRemovesOnlySpace(s: string)
    ensures SpaceRun(s, 0) + |Trim(s)| <= |s|
    ensures SpaceBetween(s, 0, SpaceRun(s, 0))
    ensures Trim(s) == s[SpaceRun(s, 0)..SpaceRun(s, 0) + |Trim(s)|]
    ensures SpaceBetween(s, SpaceRun(s, 0) + |Trim(s)|, |s|)
  {
    var q := SpaceRun(s, 0);
    SpaceRunSpaces(s, 0);
    var t := s[q..];
    SuffixTrimmedEnd(s, t, TrimEnd(t));
  }

  /** `trimStart` removes exactly the leading run of white space, and that run is white space. */
  lemma TrimStartRun(s: string)
    ensures |s| - |TrimStart(s)| == SpaceRun(s, 0)
    ensures SpaceBetween(s, 0, SpaceRun(s, 0))
  {
    var t := TrimStart(s);
    var q := |s| - |t|;
    assert t != [] ==> s[q] == t[0];
    SpaceRunTo(s, 0, q);
  }

  /** The end-trimmed form of the suffix `t` of `s` is a slice of `s` followed only by white space. */
  lemma SuffixTrimmedEnd(s: string, t: string, r: string)
    requires |t| <= |s| && t == s[|s| - |t|..]
    requires |r| <= |t| && r == t[..|r|]
    requires forall i :: |r| <= i < |t| ==> IsSpace(t[i])
    ensures var q := |s| - |t|; r == s[q..q + |r|] && SpaceBetween(s, q + |r|, |s|)
  {
    var q := |s| - |t|;
    assert forall i :: q + |r| <= i < |s| ==> s[i] == t[i - q];
  }

  /** A run of white space from `j` up to a non-space (or the end) at `q` is the run `SpaceRun` measures. */
  lemma {:induction false} SpaceRunTo(s: string, j: nat, q: nat)
    requires j <= q <= |s|
    requires forall i :: j <= i < q ==> IsSpace(s[i])
    requires q == |s| || !IsSpace(s[q])
    ensures SpaceRun(s, j) == q - j
    decreases q - j
  {
    if j < q {
      SpaceRunTo(s, j + 1, q);
    }
  }

  /** A prefix of a suffix of s occurs in s. */
  lemma PrefixOfSuffix(s: string, t: string, r: string)
    requires |t| <= |s| && t == s[|s| - |t|..] && |r| <= |t| && r == t[..|r|]
    ensures Contains(s, r)
  {
    assert s[|s| - |t|..|s| - |t| + |r|] == r;
    ContainsAt(s, r, |s| - |t|);
  }

  lemma Assoc(x: string, y: string, z: string)
    ensures x + (y + z) == (x + y) + z
  {
  }

  /** White space in front of a text is all `trimStart` removes of it. */
  lemma {:induction false} TrimStartSkipsSpaces(spaces: string, rest: string)
    requires forall i :: 0 <= i < |spaces| ==> IsSpace(spaces[i])
    ensures TrimStart(spaces + rest) == TrimStart(rest)
    decreases |spaces|
  {
    if |spaces| > 0 {
      assert (spaces + rest)[1..] == spaces[1..] + rest;
      TrimStartSkipsSpaces(spaces[1..], rest);
    } else {
      assert spaces + rest == rest;
    }
  }

  /** The length of the run of white space starting at `q`. */
  function SpaceRun(s: string, q: nat): (n: nat)
    requires q <= |s|
    ensures q + n <= |s|
    decreases |s| - q
  {
    if q < |s| && IsSpace(s[q]) then 1 + SpaceRun(s, q + 1) else 0
  }

  /** The run is white space throughout and is not followed by more. */
  lemma {:induction false} SpaceRunSpaces(s: string, q: nat)
    requires q <= |s|
    ensures forall i :: q <= i < q + SpaceRun(s, q) ==> IsSpace(s[i])
    ensures q + SpaceRun(s, q) == |s| || !IsSpace(s[q + SpaceRun(s, q)])
    decreases |s| - q
  {
    if q < |s| && IsSpace(s[q]) {
      SpaceRunSpaces(s, q + 1);
    }
  }

  lemma TrimOfNoSpace(s: string)
    requires s == [] || (!IsSpace(s[0]) && !IsSpace(s[|s| - 1]))
    ensures Trim(s) == s
  {
  }

  /** `s.split(c)` for a one-character separator `c`. */
  function Split(s: string, c: char): (r: seq<string>)
    ensures |r| >= 1
    ensures forall i :: 0 <= i < |r| ==> c !in r[i]
    decreases |s|
  {
    if |s| == 0 then [""]
    else
      var rest := Split(s[1..], c);
      if s[0] == c then [""] + rest
      else [[s[0]] + rest[0]] + rest[1..]
  }

  /** `parts.join(sep)`. */
  function Join(parts: seq<string>, sep: string): string
  {
    if |parts| == 0 then ""
    else if |parts| == 1 then parts[0]
    else parts[0] + sep + Join(parts[1..], sep)
  }

  /** Splitting and re-joining with the same separator gives back the text. */
  lemma {:induction false} JoinSplit(s: string, c: char)
    ensures Join(Split(s, c), [c]) == s
    decreases |s|
  {
    if |s| > 0 {
      var rest := Split(s[1..], c);
      JoinSplit(s[1..], c);
      if s[0] == c {
        assert Split(s, c) == [""] + rest;
        assert Join([""] + rest, [c]) == "" + [c] + Join(rest, [c]);
        assert s == [s[0]] + s[1..];
      } else {
        var r := Split(s, c);
        assert r == [[s[0]] + rest[0]] + rest[1..];
        if |rest| == 1 {
          assert Join(r, [c]) == [s[0]] + rest[0];
          assert s == [s[0]] + s[1..];
        } else {
          assert r[1..] == rest[1..];
          assert Join(rest, [c]) == rest[0] + [c] + Join(rest[1..], [c]);
          assert Join(r, [c]) == [s[0]] + rest[0] + [c] + Join(rest[1..], [c]);
          assert s == [s[0]] + s[1..];
        }
      }
    }
  }

  /** A piece free of the separator, with the separator in front of some text. */
  lemma {:induction false} SplitPrefix(a: string, c: char, b: string)
    requires c !in a
    ensures Split(a + [c] + b, c) == [a] + Split(b, c)
    decreases |a|
  {
    if |a| == 0 {
      assert a + [c] + b == [c] + b;
      assert ([c] + b)[1..] == b;
    } else {
      SplitPrefix(a[1..], c, b);
      assert (a + [c] + b)[1..] == a[1..] + [c] + b;
      assert a == [a[0]] + a[1..];
    }
  }

  lemma SplitCons(x: char, t: string, c: char)
    ensures x == c ==> Split([x] + t, c) == [""] + Split(t, c)
    ensures x != c ==> Split([x] + t, c) == [[x] + Split(t, c)[0]] + Split(t, c)[1..]
  {
    assert ([x] + t)[1..] == t;
  }

  /** Text on either side of a separator splits into the pieces of each side. */
  lemma {:induction false} SplitConcat(a: string, c: char, b: string)
    ensures Split(a + [c] + b, c) == Split(a, c) + Split(b, c)
    decreases |a|
  {
    if |a| == 0 {
      assert a + [c] + b == [c] + b;
      SplitCons(c, b, c);
    } else {
      SplitConcat(a[1..], c, b);
      assert a == [a[0]] + a[1..];
      assert a + [c] + b == [a[0]] + (a[1..] + [c] + b);
      SplitConcatStep(a[0], a[1..], c, b);
    }
  }

  /** One more character in front of the left side. */
  lemma SplitConcatStep(x: char, a: string, c: char, b: string)
    requires Split(a + [c] + b, c) == Split(a, c) + Split(b, c)
    ensures Split([x] + (a + [c] + b), c) == Split([x] + a, c) + Split(b, c)
  {
    SplitCons(x, a + [c] + b, c);
    SplitCons(x, a, c);
    if x != c {
      ExtendFirst(x, Split(a, c), Split(b, c));
    } else {
      assert [""] + (Split(a, c) + Split(b, c)) == ([""] + Split(a, c)) + Split(b, c);
    }
  }

  lemma ExtendFirst(x: char, ta: seq<string>, tb: seq<string>)
    requires |ta| >= 1
    ensures [[x] + (ta + tb)[0]] + (ta + tb)[1..] == ([[x] + ta[0]] + ta[1..]) + tb
  {
    assert (ta + tb)[1..] == ta[1..] + tb;
  }

  lemma {:induction false} SplitNoSep(a: string, c: char)
    requires c !in a
    ensures Split(a, c) == [a]
    decreases |a|
  {
    if |a| > 0 {
      SplitNoSep(a[1..], c);
      assert a == [a[0]] + a[1..];
    }
  }

  /** Joining separator-free pieces and splitting again gives back the pieces. */
  lemma {:induction false} SplitJoin(parts: seq<string>, c: char)
    requires |parts| >= 1
    requires forall i :: 0 <= i < |parts| ==> c !in parts[i]
    ensures Split(Join(parts, [c]), c) == parts
    decreases |parts|
  {
    if |parts| == 1 {
      SplitNoSep(parts[0], c);
    } else {
      SplitJoin(parts[1..], c);
      SplitPrefix(parts[0], c, Join(parts[1..], [c]));
      assert parts == [parts[0]] + parts[1..];
    }
  }

  /** `s.includes(w)`. */
  predicate Contains(s: string, w: string)
    decreases |s|
  {
    w <= s || (|s| > 0 && Contains(s[1..], w))
  }

  lemma {:induction false} ContainsAt(s: string, w: string, i: nat)
    requires i + |w| <= |s| && s[i..i + |w|] == w
    ensures Contains(s, w)
    decreases i
  {
    if i > 0 {
      assert s[1..][i - 1..i - 1 + |w|] == w;
      ContainsAt(s[1..], w, i - 1);
    }
  }

  lemma {:induction false} ContainsWitness(s: string, w: string) returns (i: nat)
    requires Contains(s, w)
    ensures i + |w| <= |s| && s[i..i + |w|] == w
    decreases |s|
  {
    if w <= s {
      i := 0;
    } else {
      var j := ContainsWitness(s[1..], w);
      i := j + 1;
      assert s[i..i + |w|] == s[1..][j..j + |w|];
    }
  }

  /** Text containing a word still contains it with anything added on either side. */
  lemma ContainsConcat(a: string, b: string, w: string)
    ensures Contains(a, w) ==> Contains(a + b, w)
    ensures Contains(b, w) ==> Contains(a + b, w)
  {
    if Contains(a, w) {
      var i := ContainsWitness(a, w);
      assert (a + b)[i..i + |w|] == a[i..i + |w|];
      ContainsAt(a + b, w, i);
    }
    if Contains(b, w) {
      var i := ContainsWitness(b, w);
      assert (a + b)[|a| + i..|a| + i + |w|] == b[i..i + |w|];
      ContainsAt(a + b, w, |a| + i);
    }
  }

  function LowerChar(c: char): char {
    if 'A' <= c <= 'Z' then (c as int + 32) as char else c
  }

  /** `toLowerCase()` on the ASCII letters; every other character is kept. */
  function ToLower(s: string): (r: string)
    ensures |r| == |s|
    ensures forall i :: 0 <= i < |s| ==> r[i] == LowerChar(s[i])
  {
    seq(|s|, i requires 0 <= i < |s| => LowerChar(s[i]))
  }

  lemma ToLowerConcat(a: string, b: string)
    ensures ToLower(a + b) == ToLower(a) + ToLower(b)
  {
  }

  // Decimal digits.

  predicate IsDigit(c: char) {
    '0' <= c <= '9'
  }

  predicate AllDigits(s: string) {
    forall i :: 0 <= i < |s| ==> IsDigit(s[i])
  }

  function DigitChar(d: nat): char
    requires d < 10
  {
    ('0' as int + d) as char
  }

  /** The number a string of decimal digits denotes. */
  function DigitsValue(s: string): nat
    requires AllDigits(s)
    decreases |s|
  {
    if |s| == 0 then 0
    else DigitsValue(s[..|s| - 1]) * 10 + (s[|s| - 1] as int - '0' as int)
  }

  function Pow10(k: nat): (r: nat)
    ensures r >= 1
  {
    if k == 0 then 1 else 10 * Pow10(k - 1)
  }

  /** First index of `c` in `s`, or -1: `s.indexOf(c)`. */
  function IndexOf(s: string, c: char): (r: int)
    ensures -1 <= r < |s|
    ensures r == -1 <==> c !in s
    ensures r >= 0 ==> s[r] == c && c !in s[..r]
    decreases |s|
  {
    if |s| == 0 then -1
    else if s[0] == c then 0
    else
      var k := IndexOf(s[1..], c);
      assert s[1..][..if k < 0 then 0 else k] == s[1..1 + (if k < 0 then 0 else k)];
      if k == -1 then -1 else k + 1
  }

  /** An occurrence with none before it is the one `indexOf` finds. */
  lemma {:induction false} IndexOfFirst(s: string, c: char, i: nat)
    requires i < |s| && s[i] == c && c !in s[..i]
    ensures IndexOf(s, c) == i
    decreases i
  {
    if i > 0 {
      assert s[..i][0] == s[0];
      assert s[1..][..i - 1] == s[1..i];
      assert forall j :: 0 <= j < i - 1 ==> s[1..i][j] == s[..i][j + 1];
      IndexOfFirst(s[1..], c, i - 1);
    }
  }

  /** The first `n` elements, or all of them: `xs.slice(0, n)`. */
  function Take<T>(xs: seq<T>, n: nat): (r: seq<T>)
    ensures |r| <= n && |r| <= |xs|
    ensures r == xs[..|r|]
    ensures |r| == if n <= |xs| then n else |xs|
  {
    if n <= |xs| then xs[..n] else xs
  }
}
