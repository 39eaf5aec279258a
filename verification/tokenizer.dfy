/**
  The tokenizer of ITMUtils: a query or a searchable string is lowercased, every
  character outside [a-z0-9] becomes a space, the result is trimmed, runs of
  spaces are collapsed to one, and the string is split on the single spaces.

  The pipeline is modelled stage by stage (Lower, Blank, Trim, Collapse, Split)
  and proved equal to an independent description: the maximal alphanumeric
  runs of the lowercased input (Words), or the single empty token when there
  are none.
*/
module Tokenizer {

  // ---------------------------------------------------------------------------
  // Characters
  // ---------------------------------------------------------------------------

  /** The characters the tokenizer keeps: [a-z0-9]. */
  predicate IsAlnum(c: char) {
    ('a' <= c <= 'z') || ('0' <= c <= '9')
  }

  /** ASCII lowercasing of one character. */
  function LowerChar(c: char): char {
    if 'A' <= c <= 'Z' then (c as int + 32) as char else c
  }

  /** String.toLowerCase, restricted to the ASCII letters. */
  function Lower(s: string): string {
    seq(|s|, i requires 0 <= i < |s| => LowerChar(s[i]))
  }

  predicate AllAlnum(w: string) {
    forall i :: 0 <= i < |w| ==> IsAlnum(w[i])
  }

  predicate NoAlnum(s: string) {
    forall i :: 0 <= i < |s| ==> !IsAlnum(s[i])
  }

  /** Every character is kept by the tokenizer or is a space. */
  predicate AlnumOrSpace(s: string) {
    forall i :: 0 <= i < |s| ==> IsAlnum(s[i]) || s[i] == ' '
  }

  // ---------------------------------------------------------------------------
  // The reference description: maximal alphanumeric runs
  // ---------------------------------------------------------------------------

  /** Length of the longest alphanumeric prefix of s. */
  function WordLen(s: string): (n: nat)
    ensures n <= |s|
    ensures forall i :: 0 <= i < n ==> IsAlnum(s[i])
    ensures n < |s| ==> !IsAlnum(s[n])
  {
    if s == [] || !IsAlnum(s[0]) then 0 else 1 + WordLen(s[1..])
  }

  /** The maximal runs of [a-z0-9] characters of s, left to right. */
  function Words(s: string): (ws: seq<string>)
    ensures forall k :: 0 <= k < |ws| ==> ws[k] != [] && AllAlnum(ws[k])
    decreases |s|
  {
    if s == [] then []
    else if !IsAlnum(s[0]) then Words(s[1..])
    else
      var n := WordLen(s);
      [s[..n]] + Words(s[n..])
  }

  // ---------------------------------------------------------------------------
  // The pipeline of ITMUtils.tokenize, stage by stage
  // ---------------------------------------------------------------------------

  /** replaceAll("[^a-z0-9]", " "). */
  function Blank(s: string): string {
    seq(|s|, i requires 0 <= i < |s| => if IsAlnum(s[i]) then s[i] else ' ')
  }

  /** The leading half of String.trim: drops characters up to and including U+0020. */
  function TrimStart(s: string): (r: string)
    ensures |r| <= |s| && r == s[|s| - |r|..]
    ensures r == [] || r[0] > ' '
  {
    if s != [] && s[0] <= ' ' then TrimStart(s[1..]) else s
  }

  /** The trailing half of String.trim. */
  function TrimEnd(s: string): (r: string)
    ensures |r| <= |s| && r == s[..|r|]
    ensures r == [] || r[|r| - 1] > ' '
  {
    if s != [] && s[|s| - 1] <= ' ' then TrimEnd(s[..|s| - 1]) else s
  }

  function Trim(s: string): string {
    TrimEnd(TrimStart(s))
  }

  /** Drops the leading spaces of s. */
  function DropSpaces(s: string): (r: string)
    ensures |r| <= |s| && r == s[|s| - |r|..]
    ensures r == [] || r[0] != ' '
    ensures s != [] && s[0] == ' ' ==> |r| < |s|
    ensures s != [] && s[|s| - 1] != ' ' ==> r != []
  {
    if s != [] && s[0] == ' ' then DropSpaces(s[1..]) else s
  }

  /** replaceAll("[ ]+", " "): every run of spaces becomes a single space. */
  function Collapse(s: string): (r: string)
    ensures r == [] <==> s == []
    ensures s != [] && s[0] != ' ' ==> r[0] == s[0]
    ensures s != [] && s[|s| - 1] != ' ' ==> r[|r| - 1] == s[|s| - 1]
    ensures forall i :: 0 <= i < |r| - 1 ==> !(r[i] == ' ' && r[i + 1] == ' ')
    ensures forall c :: c in r ==> c in s
    decreases |s|
  {
    if s == [] then []
    else if s[0] == ' ' then
      var d := DropSpaces(s);
      var c := Collapse(d);
      var r := [' '] + c;
      assert c == [] || c[0] == d[0];
      r
    else [s[0]] + Collapse(s[1..])
  }

  /** Length of the prefix of s before its first space. */
  function SegLen(s: string): (n: nat)
    ensures n <= |s|
    ensures forall i :: 0 <= i < n ==> s[i] != ' '
    ensures n < |s| ==> s[n] == ' '
  {
    if s == [] || s[0] == ' ' then 0 else 1 + SegLen(s[1..])
  }

  /** The pieces of s between its spaces, before String.split drops trailing empty strings. */
  function Pieces(s: string): (ps: seq<string>)
    ensures |ps| >= 1
    decreases |s|
  {
    var n := SegLen(s);
    if n == |s| then [s] else [s[..n]] + Pieces(s[n + 1..])
  }

  function DropTrailingEmpty(ps: seq<string>): seq<string> {
    if ps != [] && ps[|ps| - 1] == "" then DropTrailingEmpty(ps[..|ps| - 1]) else ps
  }

  /** String.split(" "): the whole string when there is no space, else the pieces
      with the trailing empty ones removed. */
  function Split(s: string): seq<string> {
    if ' ' !in s then [s] else DropTrailingEmpty(Pieces(s))
  }

  /** ITMUtils.tokenize. */
  function Tokenize(s: string): (toks: seq<string>)
    ensures |toks| >= 1
    ensures forall k :: 0 <= k < |toks| ==> AllAlnum(toks[k])
    ensures toks == [""] <==> NoAlnum(Lower(s))
    ensures !NoAlnum(Lower(s)) ==> toks == Words(Lower(s))
  {
    TokenizeIsWords(s);
    WordsEmptyIff(Lower(s));
    Split(Collapse(Trim(Blank(Lower(s)))))
  }

  // ---------------------------------------------------------------------------
  // Facts about Words
  // ---------------------------------------------------------------------------

  lemma {:induction false} WordsEmptyIff(s: string)
    ensures Words(s) == [] <==> NoAlnum(s)
    decreases |s|
  {
    if s != [] {
      if !IsAlnum(s[0]) {
        WordsEmptyIff(s[1..]);
        assert NoAlnum(s) <==> NoAlnum(s[1..]) by {
          if NoAlnum(s[1..]) {
            forall i | 0 <= i < |s| ensures !IsAlnum(s[i]) {
              if i > 0 { assert s[i] == s[1..][i - 1]; }
            }
          }
        }
      }
    }
  }

  /** WordLen of a concatenation. */
  lemma {:induction false} WordLenAppend(a: string, b: string)
    ensures WordLen(a + b) == if WordLen(a) < |a| then WordLen(a) else |a| + WordLen(b)
    decreases |a|
  {
    if a == [] {
      assert a + b == b;
    } else if IsAlnum(a[0]) {
      assert (a + b)[1..] == a[1..] + b;
      WordLenAppend(a[1..], b);
    }
  }

  /** Prepending one character to a string. */
  lemma WordsCons(c: char, x: string)
    ensures Words([c] + x) ==
      if !IsAlnum(c) then Words(x)
      else if x != [] && IsAlnum(x[0]) then [[c] + Words(x)[0]] + Words(x)[1..]
      else [[c]] + Words(x)
  {
    var s := [c] + x;
    assert s[1..] == x;
    if IsAlnum(c) {
      var m := WordLen(x);
      assert WordLen(s) == 1 + m;
      assert s[1 + m..] == x[m..];
      assert s[..1 + m] == [c] + x[..m];
      if x != [] && IsAlnum(x[0]) {
        assert Words(x) == [x[..m]] + Words(x[m..]);
      } else {
        assert m == 0;
        assert x[0..] == x;
      }
    }
  }

  /** The first word of a string that starts with one. */
  lemma WordsUnfold(s: string)
    requires s != [] && IsAlnum(s[0])
    ensures Words(s) == [s[..WordLen(s)]] + Words(s[WordLen(s)..])
  {
  }

  /** The first run of a + b ends inside a when the seam is not inside a run. */
  lemma WordLenSeam(a: string, b: string)
    requires a != [] && IsAlnum(a[0])
    requires b == [] || !IsAlnum(a[|a| - 1]) || !IsAlnum(b[0])
    ensures WordLen(a + b) == WordLen(a)
  {
    WordLenAppend(a, b);
    if WordLen(a) == |a| {
      assert IsAlnum(a[|a| - 1]);
    }
  }

  lemma SliceAppend(a: string, b: string, n: nat)
    requires n <= |a|
    ensures (a + b)[..n] == a[..n] && (a + b)[n..] == a[n..] + b
  {
  }

  /** The first word of a + b, when a starts with one and the seam is not inside a run. */
  lemma WordsAlnumHead(a: string, b: string)
    requires a != [] && IsAlnum(a[0])
    requires b == [] || !IsAlnum(a[|a| - 1]) || !IsAlnum(b[0])
    ensures 0 < WordLen(a) <= |a|
    ensures Words(a + b) == [a[..WordLen(a)]] + Words(a[WordLen(a)..] + b)
  {
    WordLenSeam(a, b);
    WordsUnfold(a + b);
    SliceAppend(a, b, WordLen(a));
  }

  /** Words distributes over a concatenation whose seam is not inside a run. */
  lemma {:induction false} WordsAppend(a: string, b: string)
    requires a == [] || b == [] || !IsAlnum(a[|a| - 1]) || !IsAlnum(b[0])
    ensures Words(a + b) == Words(a) + Words(b)
    decreases |a|
  {
    if a == [] {
      assert a + b == b;
    } else if !IsAlnum(a[0]) {
      assert (a + b)[1..] == a[1..] + b;
      WordsAppend(a[1..], b);
    } else {
      WordsAlnumHead(a, b);
      var n := WordLen(a);
      var rest := a[n..];
      assert rest != [] ==> rest[|rest| - 1] == a[|a| - 1];
      WordsAppend(rest, b);
    }
  }

  /** A non-empty run of alphanumerics is a single word. */
  lemma WordsOfWord(w: string)
    requires w != [] && AllAlnum(w)
    ensures Words(w) == [w]
  {
    WordLenAppend(w, []);
    assert w + [] == w;
    assert w[|w|..] == [];
  }

  lemma WordsOfSeparator(s: string)
    requires NoAlnum(s)
    ensures Words(s) == []
  {
    WordsEmptyIff(s);
  }

  /** Blanking the separators does not change the runs. */
  lemma {:induction false} WordsBlank(s: string)
    ensures Words(Blank(s)) == Words(s)
    decreases |s|
  {
    if s != [] {
      var x := Blank(s);
      assert x[1..] == Blank(s[1..]);
      if !IsAlnum(s[0]) {
        WordsBlank(s[1..]);
      } else {
        WordsCons(s[0], s[1..]);
        WordsCons(x[0], x[1..]);
        assert [s[0]] + s[1..] == s;
        assert [x[0]] + x[1..] == x;
        WordsBlank(s[1..]);
        if s[1..] != [] {
          assert IsAlnum(x[1..][0]) <==> IsAlnum(s[1..][0]);
        }
      }
    }
  }

  lemma {:induction false} WordsTrimStart(s: string)
    ensures Words(TrimStart(s)) == Words(s)
    decreases |s|
  {
    if s != [] && s[0] <= ' ' {
      WordsTrimStart(s[1..]);
    }
  }

  lemma {:induction false} WordsTrimEnd(s: string)
    ensures Words(TrimEnd(s)) == Words(s)
    decreases |s|
  {
    if s != [] && s[|s| - 1] <= ' ' {
      var a := s[..|s| - 1];
      assert s == a + [s[|s| - 1]];
      WordsAppend(a, [s[|s| - 1]]);
      WordsOfSeparator([s[|s| - 1]]);
      WordsTrimEnd(a);
    }
  }

  lemma {:induction false} WordsDropSpaces(s: string)
    ensures Words(DropSpaces(s)) == Words(s)
    decreases |s|
  {
    if s != [] && s[0] == ' ' {
      WordsDropSpaces(s[1..]);
    }
  }

  lemma {:induction false} WordsCollapse(s: string)
    ensures Words(Collapse(s)) == Words(s)
    decreases |s|
  {
    if s != [] {
      if s[0] == ' ' {
        var d := DropSpaces(s);
        WordsCons(' ', Collapse(d));
        WordsCollapse(d);
        WordsDropSpaces(s);
      } else {
        var rest := s[1..];
        WordsCons(s[0], Collapse(rest));
        WordsCons(s[0], rest);
        assert [s[0]] + rest == s;
        WordsCollapse(rest);
      }
    }
  }

  // ---------------------------------------------------------------------------
  // Split on a normalised string
  // ---------------------------------------------------------------------------

  /** The shape of the string after trim and collapse, when it is not empty. */
  predicate Normalized(y: string) {
    && y != []
    && AlnumOrSpace(y)
    && y[0] != ' '
    && y[|y| - 1] != ' '
    && forall i :: 0 <= i < |y| - 1 ==> !(y[i] == ' ' && y[i + 1] == ' ')
  }

  lemma {:induction false} PiecesAreWords(y: string)
    requires Normalized(y)
    ensures Pieces(y) == Words(y)
    decreases |y|
  {
    var n := SegLen(y);
    var m := WordLen(y);
    assert n == m;
    assert IsAlnum(y[0]);
    if n < |y| {
      var z := y[n + 1..];
      assert y[n] == ' ';
      assert n + 1 < |y|;
      assert z[0] == y[n + 1];
      assert Normalized(z) by {
        forall i | 0 <= i < |z| ensures IsAlnum(z[i]) || z[i] == ' ' {
          assert z[i] == y[n + 1 + i];
        }
        forall i | 0 <= i < |z| - 1 ensures !(z[i] == ' ' && z[i + 1] == ' ') {
          assert z[i] == y[n + 1 + i] && z[i + 1] == y[n + 2 + i];
        }
      }
      PiecesAreWords(z);
      assert y[n..][1..] == z;
    } else {
      assert y[..n] == y;
      assert y[n..] == [];
    }
  }

  lemma SplitNormalized(y: string)
    requires Normalized(y)
    ensures Split(y) == Words(y)
  {
    PiecesAreWords(y);
    var ws := Words(y);
    assert ws != [] by { assert IsAlnum(y[0]); WordsEmptyIff(y); }
    if ' ' in y {
      assert ws[|ws| - 1] != "";
    } else {
      assert SegLen(y) == |y|;
    }
  }

  // ---------------------------------------------------------------------------
  // The pipeline equals its reference description
  // ---------------------------------------------------------------------------

  lemma BlankAlnumOrSpace(s: string)
    ensures AlnumOrSpace(Blank(s))
  {
  }

  /** A suffix of a string within [a-z0-9 ] is within it too. */
  lemma SuffixAlnumOrSpace(x: string, n: nat)
    requires AlnumOrSpace(x) && n <= |x|
    ensures AlnumOrSpace(x[n..])
  {
    forall i | 0 <= i < |x| - n ensures IsAlnum(x[n..][i]) || x[n..][i] == ' ' {
      assert x[n..][i] == x[n + i];
    }
  }

  /** A prefix of a string within [a-z0-9 ] is within it too. */
  lemma PrefixAlnumOrSpace(x: string, n: nat)
    requires AlnumOrSpace(x) && n <= |x|
    ensures AlnumOrSpace(x[..n])
  {
    forall i | 0 <= i < n ensures IsAlnum(x[..n][i]) || x[..n][i] == ' ' {
      assert x[..n][i] == x[i];
    }
  }

  /** Trimming keeps the characters of a blanked string within [a-z0-9 ]. */
  lemma TrimAlnumOrSpace(x: string)
    requires AlnumOrSpace(x)
    ensures AlnumOrSpace(Trim(x))
  {
    var t0 := TrimStart(x);
    SuffixAlnumOrSpace(x, |x| - |t0|);
    PrefixAlnumOrSpace(t0, |TrimEnd(t0)|);
  }

  /** Collapsing a trimmed, blanked, non-empty string leaves the shape Split expects. */
  lemma CollapseNormalized(t: string)
    requires AlnumOrSpace(t)
    requires t != [] && t[0] > ' ' && t[|t| - 1] > ' '
    ensures Normalized(Collapse(t))
    ensures IsAlnum(Collapse(t)[0])
  {
    var y := Collapse(t);
    forall i | 0 <= i < |y| ensures IsAlnum(y[i]) || y[i] == ' ' {
      assert y[i] in y;
      var j :| 0 <= j < |t| && t[j] == y[i];
    }
  }

  lemma TokenizeIsWords(s: string)
    ensures Split(Collapse(Trim(Blank(Lower(s))))) ==
      if Words(Lower(s)) == [] then [""] else Words(Lower(s))
  {
    var x := Blank(Lower(s));
    var t0 := TrimStart(x);
    var t := TrimEnd(t0);
    var y := Collapse(t);
    WordsBlank(Lower(s));
    WordsTrimStart(x);
    WordsTrimEnd(t0);
    WordsCollapse(t);
    if y == [] {
      assert ' ' !in y;
    } else {
      BlankAlnumOrSpace(Lower(s));
      TrimAlnumOrSpace(x);
      CollapseNormalized(t);
      SplitNormalized(y);
      WordsEmptyIff(y);
    }
  }

  // ---------------------------------------------------------------------------
  // Properties of the tokenizer
  // ---------------------------------------------------------------------------

  predicate NoUpper(s: string) {
    forall i :: 0 <= i < |s| ==> !('A' <= s[i] <= 'Z')
  }

  lemma LowerFixed(s: string)
    requires NoUpper(s)
    ensures Lower(s) == s
  {
  }

  lemma LowerIdempotent(s: string)
    ensures Lower(Lower(s)) == Lower(s)
  {
  }

  /** The tokens do not depend on the case of the input. */
  lemma TokenizeCaseInsensitive(s: string)
    ensures Tokenize(Lower(s)) == Tokenize(s)
  {
    LowerIdempotent(s);
    TokenizeIsWords(s);
    TokenizeIsWords(Lower(s));
  }

  /** The tokens joined by single spaces. */
  function Join(toks: seq<string>): string {
    if toks == [] then ""
    else if |toks| == 1 then toks[0]
    else toks[0] + " " + Join(toks[1..])
  }

  /** What the tokenizer can return for an input with at least one alphanumeric character. */
  predicate ProperTokens(toks: seq<string>) {
    && toks != []
    && forall k :: 0 <= k < |toks| ==> toks[k] != [] && AllAlnum(toks[k])
  }

  lemma {:induction false} JoinShape(toks: seq<string>)
    requires forall k :: 0 <= k < |toks| ==> AllAlnum(toks[k])
    ensures AlnumOrSpace(Join(toks))
  {
    if |toks| > 1 {
      JoinShape(toks[1..]);
      var j := Join(toks[1..]);
      assert Join(toks) == toks[0] + (" " + j);
      forall i | 0 <= i < |Join(toks)|
        ensures IsAlnum(Join(toks)[i]) || Join(toks)[i] == ' '
      {
        if i > |toks[0]| { assert Join(toks)[i] == j[i - |toks[0]| - 1]; }
      }
    }
  }

  lemma {:induction false} WordsJoin(toks: seq<string>)
    requires ProperTokens(toks)
    ensures Words(Join(toks)) == toks
  {
    if |toks| == 1 {
      WordsOfWord(toks[0]);
    } else {
      var j := Join(toks[1..]);
      assert Join(toks) == toks[0] + (" " + j);
      WordsAppend(toks[0], " " + j);
      WordsOfWord(toks[0]);
      WordsCons(' ', j);
      WordsJoin(toks[1..]);
    }
  }

  /** Tokenizing the tokens joined by single spaces gives them back. */
  lemma TokenizeJoin(toks: seq<string>)
    requires ProperTokens(toks)
    ensures Tokenize(Join(toks)) == toks
  {
    var j := Join(toks);
    JoinShape(toks);
    LowerFixed(j);
    WordsJoin(toks);
    WordsEmptyIff(j);
  }

  /** Tokenizing is idempotent: re-tokenizing the joined tokens changes nothing. */
  lemma TokenizeIdempotent(s: string)
    ensures Tokenize(Join(Tokenize(s))) == Tokenize(s)
  {
    if !NoAlnum(Lower(s)) {
      TokenizeJoin(Tokenize(s));
    }
  }

  /** A separator between two strings splits their runs apart. */
  lemma WordsAroundSeparator(a: string, sep: string, b: string)
    requires sep != [] && NoAlnum(sep)
    ensures Words(a + sep + b) == Words(a) + Words(b)
  {
    assert a + sep + b == a + (sep + b);
    WordsAppend(a, sep + b);
    WordsAppend(sep, b);
    WordsOfSeparator(sep);
  }

  /** Some token starts with q. */
  ghost predicate StartsSome(q: string, tokens: seq<string>) {
    exists j :: 0 <= j < |tokens| && q <= tokens[j]
  }

  /** Every query token starts at least one of the tokens. */
  ghost predicate TokensCovered(queryTokens: seq<string>, tokens: seq<string>) {
    forall i :: 0 <= i < |queryTokens| ==> StartsSome(queryTokens[i], tokens)
  }

  lemma CoveredCons(w: string, ws: seq<string>, v: string, vs: seq<string>)
    requires w <= v && TokensCovered(ws, vs)
    ensures TokensCovered([w] + ws, [v] + vs)
  {
    var a, b := [w] + ws, [v] + vs;
    forall i | 0 <= i < |a| ensures StartsSome(a[i], b) {
      if i == 0 {
        assert a[0] == w && b[0] == v;
      } else {
        assert StartsSome(ws[i - 1], vs);
        var j :| 0 <= j < |vs| && ws[i - 1] <= vs[j];
        assert a[i] == ws[i - 1] && b[j + 1] == vs[j];
      }
    }
  }

  /** Each run of a prefix is the prefix of a run of the whole string. */
  lemma {:induction false} WordsOfPrefix(p: string, rest: string)
    ensures TokensCovered(Words(p), Words(p + rest))
    decreases |p|
  {
    if p == [] {
      assert Words(p) == [];
    } else if !IsAlnum(p[0]) {
      assert (p + rest)[1..] == p[1..] + rest;
      assert Words(p) == Words(p[1..]);
      assert Words(p + rest) == Words(p[1..] + rest);
      WordsOfPrefix(p[1..], rest);
    } else {
      var n := WordLen(p);
      WordLenAppend(p, rest);
      var m := WordLen(p + rest);
      assert (p + rest)[..m][..n] == p[..n];
      var tailRest := Words((p + rest)[m..]);
      assert Words(p + rest) == [(p + rest)[..m]] + tailRest;
      if n < |p| {
        assert m == n;
        assert (p + rest)[n..] == p[n..] + rest;
        assert Words(p) == [p[..n]] + Words(p[n..]);
        WordsOfPrefix(p[n..], rest);
        CoveredCons(p[..n], Words(p[n..]), (p + rest)[..m], tailRest);
      } else {
        assert p[n..] == [];
        assert Words(p) == [p[..n]] + [];
        CoveredCons(p[..n], [], (p + rest)[..m], tailRest);
      }
    }
  }

  /** When one lowercased string starts with another, every token of the shorter one
      starts some token of the longer one. */
  lemma TokensOfPrefix(q: string, s: string)
    requires Lower(q) <= Lower(s)
    ensures TokensCovered(Tokenize(q), Tokenize(s))
  {
    var lq, ls := Lower(q), Lower(s);
    if NoAlnum(lq) {
      assert Tokenize(q) == [""];
      assert "" <= Tokenize(s)[0];
    } else {
      assert ls == lq + ls[|lq|..];
      var i :| 0 <= i < |lq| && IsAlnum(lq[i]);
      assert ls[i] == lq[i];
      assert !NoAlnum(ls);
      WordsOfPrefix(lq, ls[|lq|..]);
    }
  }
}
