/**
  IndexedObject and IndexedResult: the objects handed to the matcher, and the
  match records built from them, one per (object, searchable string) pair.
  A record caches the lowercase form and the tokens of its string, classifies
  itself against a query into one of six match codes, renders a display value,
  and is ordered by a comparator (the object's own, else term then unique key).
*/
module MatchRecord {
  import opened Wrappers
  import opened Tokenizer
  import opened Sorting

  // ---------------------------------------------------------------------------
  // Data
  // ---------------------------------------------------------------------------

  /** An object to be searched. `comparator` names the Comparator the object
      supplies (null when absent); what a name means is the `interp` argument of
      CompareResults. The payload is getObject(). */
  datatype IndexedObject<T, C> = IndexedObject(
    uniqueKey: Option<string>,
    term: Option<string>,
    synonyms: seq<string>,
    payload: T,
    comparator: Option<C>)

  /** One searchable string of an object: its term (isTerm) or one synonym. */
  datatype IndexedResult<T, C> = IndexedResult(
    obj: IndexedObject<T, C>,
    isTerm: bool,
    tokens: seq<string>,
    lowerString: string,
    sortableTerm: Option<string>)

  // The match codes.
  const NO_MATCH: int := 0
  const EXACT_TERM_MATCH: int := 1
  const EXACT_SYNONYM_MATCH: int := 2
  const BEGINS_TERM_MATCH: int := 3
  const BEGINS_SYNONYM_MATCH: int := 4
  const OTHER_MATCH: int := 5

  /** What construction guarantees of a record: its string is lowercase and its
      tokens are the tokens of that string. */
  ghost predicate WellFormed<T, C>(r: IndexedResult<T, C>) {
    && Lower(r.lowerString) == r.lowerString
    && r.tokens == Tokenize(r.lowerString)
  }

  /** The IndexedResult constructor. */
  function NewResult<T, C>(o: IndexedObject<T, C>, isTerm: bool, s: string): (r: IndexedResult<T, C>)
    ensures r.obj == o && r.isTerm == isTerm && r.sortableTerm == o.term
    ensures r.lowerString == Lower(s)
    ensures WellFormed(r)
  {
    TokenizeCaseInsensitive(s);
    LowerIdempotent(s);
    IndexedResult(o, isTerm, Tokenize(s), Lower(s), o.term)
  }

  // ---------------------------------------------------------------------------
  // Classification (getMatchType)
  // ---------------------------------------------------------------------------

  /** The inner loop of getMatchType: does some token start with q? */
  function TokenFound(q: string, tokens: seq<string>): (found: bool)
    ensures found <==> StartsSome(q, tokens)
  {
    if tokens == [] then false
    else if q <= tokens[0] then true
    else
      assert forall j :: 1 <= j < |tokens| ==> tokens[j] == tokens[1..][j - 1];
      TokenFound(q, tokens[1..])
  }

  /** The outer loop of getMatchType: no query token is left unmatched. */
  function AllTokensFound(queryTokens: seq<string>, tokens: seq<string>): (found: bool)
    ensures found <==> TokensCovered(queryTokens, tokens)
  {
    if queryTokens == [] then true
    else if !TokenFound(queryTokens[0], tokens) then false
    else
      assert forall i :: 1 <= i < |queryTokens| ==> queryTokens[i] == queryTokens[1..][i - 1];
      AllTokensFound(queryTokens[1..], tokens)
  }

  /** getMatchType(queryStringLower, queryTokens). */
  function MatchType<T, C>(r: IndexedResult<T, C>, queryLower: string, queryTokens: seq<string>): (m: int)
    ensures NO_MATCH <= m <= OTHER_MATCH
    ensures r.isTerm ==> m != EXACT_SYNONYM_MATCH && m != BEGINS_SYNONYM_MATCH
    ensures !r.isTerm ==> m != EXACT_TERM_MATCH && m != BEGINS_TERM_MATCH
    ensures (m == EXACT_TERM_MATCH || m == EXACT_SYNONYM_MATCH) <==> r.lowerString == queryLower
    ensures (m == BEGINS_TERM_MATCH || m == BEGINS_SYNONYM_MATCH) <==> queryLower < r.lowerString
    ensures m == NO_MATCH <==> !(queryLower <= r.lowerString) && !TokensCovered(queryTokens, r.tokens)
    ensures m == OTHER_MATCH <==> !(queryLower <= r.lowerString) && TokensCovered(queryTokens, r.tokens)
  {
    var exactFlag := if r.isTerm then EXACT_TERM_MATCH else EXACT_SYNONYM_MATCH;
    var beginsFlag := if r.isTerm then BEGINS_TERM_MATCH else BEGINS_SYNONYM_MATCH;
    if queryLower <= r.lowerString then
      if r.lowerString == queryLower then exactFlag else beginsFlag
    else if AllTokensFound(queryTokens, r.tokens) then OTHER_MATCH
    else NO_MATCH
  }

  /** getMatchType(queryString): the query is tokenized but not lowercased. */
  function MatchTypeOf<T, C>(r: IndexedResult<T, C>, query: string): (m: int)
    ensures NO_MATCH <= m <= OTHER_MATCH
    ensures (m == EXACT_TERM_MATCH || m == EXACT_SYNONYM_MATCH) <==> r.lowerString == query
    ensures (m == BEGINS_TERM_MATCH || m == BEGINS_SYNONYM_MATCH) <==> query < r.lowerString
    ensures m == OTHER_MATCH <==> !(query <= r.lowerString) && TokensCovered(Tokenize(query), r.tokens)
  {
    MatchType(r, query, Tokenize(query))
  }

  /** The tiers are nested: an exact or begins match also has every query token
      starting one of the record's tokens. */
  lemma MatchImpliesTokensCovered<T, C>(r: IndexedResult<T, C>, query: string)
    requires WellFormed(r)
    requires MatchType(r, Lower(query), Tokenize(query)) != NO_MATCH
    ensures TokensCovered(Tokenize(query), r.tokens)
  {
    if Lower(query) <= r.lowerString {
      TokensOfPrefix(query, r.lowerString);
    }
  }

  /** A string equal to the query up to case is an exact match, of the term or of a synonym. */
  lemma ExactMatchIgnoresCase<T, C>(o: IndexedObject<T, C>, isTerm: bool, s: string, query: string)
    requires Lower(s) == Lower(query)
    ensures MatchType(NewResult(o, isTerm, s), Lower(query), Tokenize(query)) ==
      if isTerm then EXACT_TERM_MATCH else EXACT_SYNONYM_MATCH
  {
    var r := NewResult(o, isTerm, s);
    assert r.lowerString == Lower(query);
  }

  /** The one-argument form on a lowercase query agrees with the two-argument form
      that search uses; on a query with an upper-case letter it can only give an
      OTHER_MATCH or NO_MATCH, because it does not lowercase the query. */
  lemma MatchTypeOfCase<T, C>(r: IndexedResult<T, C>, query: string)
    requires WellFormed(r)
    ensures MatchTypeOf(r, Lower(query)) == MatchType(r, Lower(query), Tokenize(query))
    ensures !NoUpper(query) ==> MatchTypeOf(r, query) == NO_MATCH || MatchTypeOf(r, query) == OTHER_MATCH
  {
    TokenizeCaseInsensitive(query);
  }

  // ---------------------------------------------------------------------------
  // Display value
  // ---------------------------------------------------------------------------

  /** getDisplayValue: "term" for a term, "term (synonym)" for a synonym. The
      source dereferences the object's term for a synonym; a null term there is
      excluded by the precondition. */
  function DisplayValue<T, C>(r: IndexedResult<T, C>): (d: string)
    requires r.isTerm || r.sortableTerm.Some?
    ensures r.isTerm ==> d == r.lowerString
    ensures !r.isTerm ==> |d| == |r.sortableTerm.value| + |r.lowerString| + 3
    ensures !r.isTerm ==> Lower(r.sortableTerm.value) <= d && d[|r.sortableTerm.value|..] == " (" + r.lowerString + ")"
  {
    if r.isTerm then r.lowerString
    else Lower(r.sortableTerm.value) + " (" + r.lowerString + ")"
  }

  lemma LowerAppend(a: string, b: string)
    ensures Lower(a + b) == Lower(a) + Lower(b)
  {
  }

  lemma LowerFixedAppend(a: string, b: string)
    requires Lower(a) == a && Lower(b) == b
    ensures Lower(a + b) == a + b
  {
    LowerAppend(a, b);
  }

  /** The words of "t (l)" are the words of t followed by those of l. */
  lemma WordsOfDisplay(t: string, l: string)
    ensures Words(t + " (" + l + ")") == Words(t) + Words(l)
  {
    WordsAroundSeparator(t, " (", l + ")");
    assert t + " (" + l + ")" == t + " (" + (l + ")");
    WordsAppend(l, ")");
    WordsOfSeparator(")");
  }

  /** The display value is already lowercase. */
  lemma DisplayValueLower<T, C>(r: IndexedResult<T, C>)
    requires WellFormed(r)
    requires r.isTerm || r.sortableTerm.Some?
    ensures Lower(DisplayValue(r)) == DisplayValue(r)
  {
    if !r.isTerm {
      var t, l := Lower(r.sortableTerm.value), r.lowerString;
      LowerIdempotent(r.sortableTerm.value);
      LowerFixed(" (");
      LowerFixed(")");
      LowerFixedAppend(t, " (");
      LowerFixedAppend(t + " (", l);
      LowerFixedAppend(t + " (" + l, ")");
    }
  }

  /** The display value is lowercase, and for a synonym its tokens are the term's
      tokens followed by the synonym's (when both have alphanumeric characters). */
  lemma DisplayValueTokens<T, C>(r: IndexedResult<T, C>)
    requires WellFormed(r)
    requires r.isTerm || r.sortableTerm.Some?
    ensures Lower(DisplayValue(r)) == DisplayValue(r)
    ensures r.isTerm ==> Tokenize(DisplayValue(r)) == r.tokens
    ensures !r.isTerm && !NoAlnum(Lower(r.sortableTerm.value)) && !NoAlnum(r.lowerString) ==>
      Tokenize(DisplayValue(r)) == Tokenize(r.sortableTerm.value) + r.tokens
  {
    DisplayValueLower(r);
    if !r.isTerm && !NoAlnum(Lower(r.sortableTerm.value)) && !NoAlnum(r.lowerString) {
      var t, l := Lower(r.sortableTerm.value), r.lowerString;
      var d := DisplayValue(r);
      assert d == t + " (" + l + ")";
      WordsOfDisplay(t, l);
      WordsEmptyIff(t);
      WordsEmptyIff(l);
      WordsEmptyIff(d);
      assert Tokenize(r.sortableTerm.value) == Words(t);
      assert r.tokens == Words(l);
      assert Tokenize(d) == Words(d);
    }
  }

  // ---------------------------------------------------------------------------
  // Ordering (IndexedResultComparator)
  // ---------------------------------------------------------------------------

  /** The UTF-16 code units of one character: the character itself below U+10000,
      otherwise its high and low surrogates. */
  function Utf16Units(c: char): (u: seq<int>)
    ensures 1 <= |u| <= 2
    ensures |u| == 1 <==> (c as int) < 0x1_0000
    ensures (0xD800 <= u[0] < 0xDC00) <==> |u| == 2
    ensures forall k :: 0 <= k < |u| ==> 0 <= u[k] < 0x1_0000
  {
    if (c as int) < 0x1_0000 then [c as int]
    else
      var v := c as int - 0x1_0000;
      [0xD800 + v / 0x400, 0xDC00 + v % 0x400]
  }

  /** A Java string: the UTF-16 encoding of a sequence of characters. */
  function Utf16(s: string): (u: seq<int>)
    ensures |s| <= |u| <= 2 * |s|
  {
    if s == [] then [] else Utf16Units(s[0]) + Utf16(s[1..])
  }

  /** Characters with the same code units are equal. */
  lemma Utf16UnitsInjective(c: char, d: char)
    requires Utf16Units(c) == Utf16Units(d)
    ensures c == d
  {
    if (c as int) >= 0x1_0000 {
      var v, w := c as int - 0x1_0000, d as int - 0x1_0000;
      assert v / 0x400 == w / 0x400 && v % 0x400 == w % 0x400;
      assert v == 0x400 * (v / 0x400) + v % 0x400;
      assert w == 0x400 * (w / 0x400) + w % 0x400;
    }
  }

  /** UTF-16 is a prefix code: a first code unit that is a high surrogate starts
      a pair, any other starts a one-unit character. So strings with the same
      encoding are equal. */
  lemma {:induction false} Utf16Injective(a: string, b: string)
    requires Utf16(a) == Utf16(b)
    ensures a == b
  {
    if a != [] && b != [] {
      var ua, ub := Utf16Units(a[0]), Utf16Units(b[0]);
      assert Utf16(a)[0] == ua[0] && Utf16(b)[0] == ub[0];
      assert |ua| == |ub|;
      assert Utf16(a)[..|ua|] == ua && Utf16(b)[..|ub|] == ub;
      assert Utf16(a)[|ua|..] == Utf16(a[1..]) && Utf16(b)[|ub|..] == Utf16(b[1..]);
      Utf16UnitsInjective(a[0], b[0]);
      Utf16Injective(a[1..], b[1..]);
      assert a == [a[0]] + a[1..] && b == [b[0]] + b[1..];
    }
  }

  /** Lexicographic comparison of code-unit sequences: the difference of the first
      differing units, else of the lengths. */
  function UnitCompare(x: seq<int>, y: seq<int>): int {
    if x == [] || y == [] then |x| - |y|
    else if x[0] != y[0] then x[0] - y[0]
    else UnitCompare(x[1..], y[1..])
  }

  /** String.compareTo, which compares the UTF-16 code units of the two strings. */
  function JavaCompare(a: string, b: string): int {
    UnitCompare(Utf16(a), Utf16(b))
  }

  lemma {:induction false} UnitCompareZero(x: seq<int>, y: seq<int>)
    ensures UnitCompare(x, y) == 0 <==> x == y
  {
    if x != [] && y != [] && x[0] == y[0] {
      UnitCompareZero(x[1..], y[1..]);
      assert x == [x[0]] + x[1..] && y == [y[0]] + y[1..];
    }
  }

  lemma {:induction false} UnitCompareFlip(x: seq<int>, y: seq<int>)
    ensures UnitCompare(x, y) == -UnitCompare(y, x)
  {
    if x != [] && y != [] && x[0] == y[0] {
      UnitCompareFlip(x[1..], y[1..]);
    }
  }

  lemma {:induction false} UnitCompareTrans(x: seq<int>, y: seq<int>, z: seq<int>)
    requires UnitCompare(x, y) <= 0 && UnitCompare(y, z) <= 0
    ensures UnitCompare(x, z) <= 0
  {
    if x != [] && y != [] && z != [] && x[0] == y[0] && y[0] == z[0] {
      UnitCompareTrans(x[1..], y[1..], z[1..]);
    }
  }

  lemma JavaCompareZero(a: string, b: string)
    ensures JavaCompare(a, b) == 0 <==> a == b
  {
    UnitCompareZero(Utf16(a), Utf16(b));
    if Utf16(a) == Utf16(b) {
      Utf16Injective(a, b);
    }
  }

  lemma JavaCompareFlip(a: string, b: string)
    ensures JavaCompare(a, b) == -JavaCompare(b, a)
  {
    UnitCompareFlip(Utf16(a), Utf16(b));
  }

  lemma JavaCompareTrans(a: string, b: string, c: string)
    requires JavaCompare(a, b) <= 0 && JavaCompare(b, c) <= 0
    ensures JavaCompare(a, c) <= 0
  {
    UnitCompareTrans(Utf16(a), Utf16(b), Utf16(c));
  }

  /** A character beyond U+FFFF sorts before U+FF21 (a fullwidth A), although its
      code point is larger: its high surrogate 0xD83D is the unit compared. */
  lemma JavaCompareSurrogate()
    ensures "\U{1F600}"[0] as int > "\U{FF21}"[0] as int
    ensures JavaCompare("\U{1F600}", "\U{FF21}") == 0xD83D - 0xFF21
  {
    var a, b := "\U{1F600}", "\U{FF21}";
    assert Utf16Units(a[0]) == [0xD83D, 0xDE00];
    assert Utf16(a) == [0xD83D, 0xDE00] by {
      assert a[1..] == [];
    }
    assert Utf16(b) == [0xFF21] by {
      assert b[1..] == [];
    }
  }

  /** The term part of the default comparison: a present term sorts before an absent one. */
  function TermOrder<T, C>(a: IndexedObject<T, C>, b: IndexedObject<T, C>): int {
    match (a.term, b.term)
    case (Some(x), Some(y)) => JavaCompare(x, y)
    case (Some(_), None) => -1
    case (None, Some(_)) => 1
    case (None, None) => 0
  }

  /** The default comparison reads both unique keys only on a term tie; the source
      fails there when one is null. */
  predicate KeysComparable<T, C>(a: IndexedObject<T, C>, b: IndexedObject<T, C>) {
    TermOrder(a, b) != 0 || (a.uniqueKey.Some? && b.uniqueKey.Some?)
  }

  /** The default comparison: by term, then by unique key. */
  function DefaultCompare<T, C>(a: IndexedObject<T, C>, b: IndexedObject<T, C>): (c: int)
    requires KeysComparable(a, b)
    ensures c == 0 <==> a.term == b.term && a.uniqueKey == b.uniqueKey
    ensures a.term != b.term ==> c == TermOrder(a, b)
  {
    TermOrderFlip(a, b);
    var i := TermOrder(a, b);
    if i != 0 then i
    else
      JavaCompareZero(a.uniqueKey.value, b.uniqueKey.value);
      JavaCompare(a.uniqueKey.value, b.uniqueKey.value)
  }

  predicate Comparable<T, C>(a: IndexedResult<T, C>, b: IndexedResult<T, C>) {
    a.obj.comparator.Some? || KeysComparable(a.obj, b.obj)
  }

  /** IndexedResultComparator.compare: the first record's object comparator when it
      has one, interpreted by `interp`; otherwise the default comparison. */
  function CompareResults<T, C>(interp: (C, IndexedObject<T, C>, IndexedObject<T, C>) -> int,
                                a: IndexedResult<T, C>, b: IndexedResult<T, C>): (c: int)
    requires Comparable(a, b)
    ensures a.obj.comparator.Some? ==> c == interp(a.obj.comparator.value, a.obj, b.obj)
    ensures a.obj.comparator.None? ==> (c == 0 <==> a.obj.term == b.obj.term && a.obj.uniqueKey == b.obj.uniqueKey)
  {
    if a.obj.comparator.Some? then interp(a.obj.comparator.value, a.obj, b.obj)
    else DefaultCompare(a.obj, b.obj)
  }

  /** The comparator as a value, for the sort. */
  function ResultOrder<T, C>(interp: (C, IndexedObject<T, C>, IndexedObject<T, C>) -> int)
    : (IndexedResult<T, C>, IndexedResult<T, C>) --> int
  {
    (a, b) requires Comparable(a, b) => CompareResults(interp, a, b)
  }

  /** The contract of CompareResults, clause by clause as IndexedResult.java states it. */
  lemma CompareResultsCases<T, C>(interp: (C, IndexedObject<T, C>, IndexedObject<T, C>) -> int,
                                  a: IndexedResult<T, C>, b: IndexedResult<T, C>)
    requires Comparable(a, b)
    ensures a.obj.comparator.Some? ==> CompareResults(interp, a, b) == interp(a.obj.comparator.value, a.obj, b.obj)
    ensures a.obj.comparator.None? && a.obj.term.Some? && b.obj.term.None? ==> CompareResults(interp, a, b) < 0
    ensures a.obj.comparator.None? && a.obj.term.None? && b.obj.term.Some? ==> CompareResults(interp, a, b) > 0
    ensures a.obj.comparator.None? && a.obj.term.Some? && b.obj.term.Some? && a.obj.term != b.obj.term ==>
      CompareResults(interp, a, b) == JavaCompare(a.obj.term.value, b.obj.term.value) != 0
    ensures a.obj.comparator.None? && a.obj.term == b.obj.term && a.obj.uniqueKey.Some? && b.obj.uniqueKey.Some? ==>
      CompareResults(interp, a, b) == JavaCompare(a.obj.uniqueKey.value, b.obj.uniqueKey.value)
  {
    if a.obj.term.Some? && b.obj.term.Some? {
      JavaCompareZero(a.obj.term.value, b.obj.term.value);
    }
  }

  lemma TermOrderFlip<T, C>(a: IndexedObject<T, C>, b: IndexedObject<T, C>)
    ensures TermOrder(a, b) == -TermOrder(b, a)
    ensures TermOrder(a, b) == 0 <==> a.term == b.term
  {
    if a.term.Some? && b.term.Some? {
      JavaCompareFlip(a.term.value, b.term.value);
      JavaCompareZero(a.term.value, b.term.value);
    }
  }

  lemma TermOrderTrans<T, C>(a: IndexedObject<T, C>, b: IndexedObject<T, C>, c: IndexedObject<T, C>)
    requires TermOrder(a, b) <= 0 && TermOrder(b, c) <= 0
    ensures TermOrder(a, c) <= 0
  {
    if a.term.Some? && b.term.Some? && c.term.Some? {
      JavaCompareTrans(a.term.value, b.term.value, c.term.value);
    }
  }

  lemma DefaultCompareFlip<T, C>(a: IndexedObject<T, C>, b: IndexedObject<T, C>)
    requires a.uniqueKey.Some? && b.uniqueKey.Some?
    ensures DefaultCompare(a, b) == -DefaultCompare(b, a)
  {
    TermOrderFlip(a, b);
    JavaCompareFlip(a.uniqueKey.value, b.uniqueKey.value);
  }

  lemma DefaultCompareTrans<T, C>(a: IndexedObject<T, C>, b: IndexedObject<T, C>, c: IndexedObject<T, C>)
    requires a.uniqueKey.Some? && b.uniqueKey.Some? && c.uniqueKey.Some?
    requires DefaultCompare(a, b) <= 0 && DefaultCompare(b, c) <= 0
    ensures DefaultCompare(a, c) <= 0
  {
    TermOrderFlip(a, b);
    TermOrderFlip(b, c);
    TermOrderFlip(a, c);
    TermOrderTrans(a, b, c);
    if TermOrder(a, c) == 0 {
      assert a.term == c.term;
      if TermOrder(a, b) == 0 {
        JavaCompareTrans(a.uniqueKey.value, b.uniqueKey.value, c.uniqueKey.value);
      }
    }
  }

  /** Without object comparators, and with every unique key present, the default
      comparison is a valid comparator on the records, so they can be sorted. */
  lemma DefaultOrderIsComparator<T, C>(interp: (C, IndexedObject<T, C>, IndexedObject<T, C>) -> int,
                                       rs: seq<IndexedResult<T, C>>)
    requires forall r :: r in rs ==> r.obj.comparator.None? && r.obj.uniqueKey.Some?
    ensures ComparatorOn(ResultOrder(interp), rs)
  {
    var cmp := ResultOrder(interp);
    forall a, b | a in rs && b in rs
      ensures cmp.requires(a, b) && (cmp(a, b) < 0 <==> cmp(b, a) > 0)
    {
      DefaultCompareFlip(a.obj, b.obj);
    }
    forall a, b, c | a in rs && b in rs && c in rs && cmp(a, b) <= 0 && cmp(b, c) <= 0
      ensures cmp(a, c) <= 0
    {
      DefaultCompareTrans(a.obj, b.obj, c.obj);
    }
  }
}
