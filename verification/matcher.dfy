/**
  IndexedTokenMatcher: turns indexed objects into match records, sorts them once,
  builds the prefix indexes over their tokens, and answers searches by scanning
  only the records filed under the rarest prefix of the query's tokens.
*/
module Matcher {
  import opened Wrappers
  import opened Tokenizer
  import opened Sorting
  import opened MatchRecord
  import opened PrefixIndex

  // ---------------------------------------------------------------------------
  // Denormalization (setIndexedObjects, getIndexedResults)
  // ---------------------------------------------------------------------------

  /** The term record of an object, when it has a term. */
  function TermRecords<T, C>(o: IndexedObject<T, C>): (rs: seq<IndexedResult<T, C>>)
    ensures |rs| <= 1 && (|rs| == 1 <==> o.term.Some?)
    ensures forall r :: r in rs ==> r.isTerm && r.obj == o && WellFormed(r)
  {
    if o.term.Some? then [NewResult(o, true, o.term.value)] else []
  }

  /** One synonym record per synonym, in order. */
  function SynonymRecords<T, C>(o: IndexedObject<T, C>): (rs: seq<IndexedResult<T, C>>)
    ensures |rs| == |o.synonyms|
    ensures forall k :: 0 <= k < |rs| ==> rs[k].lowerString == Lower(o.synonyms[k])
    ensures forall r :: r in rs ==> !r.isTerm && r.obj == o && WellFormed(r)
  {
    seq(|o.synonyms|, k requires 0 <= k < |o.synonyms| => NewResult(o, false, o.synonyms[k]))
  }

  /** getIndexedResults for one object, given the unique keys already seen; returns
      the records and the updated set. In denormalized mode the key is marked seen
      even when the term is null. */
  function ObjectRecords<T, C>(o: IndexedObject<T, C>, alreadyDenormalized: bool, seen: set<Option<string>>)
    : (out: (seq<IndexedResult<T, C>>, set<Option<string>>))
    ensures forall r :: r in out.0 ==> r.obj == o && WellFormed(r)
    ensures alreadyDenormalized ==> out.1 == seen + {o.uniqueKey}
    ensures !alreadyDenormalized ==> out.1 == seen
  {
    if alreadyDenormalized then
      var termPart := if o.uniqueKey !in seen then TermRecords(o) else [];
      var seen' := if o.uniqueKey !in seen then seen + {o.uniqueKey} else seen;
      (termPart + SynonymRecords(o), seen')
    else
      (TermRecords(o) + SynonymRecords(o), seen)
  }

  /** The loop of setIndexedObjects: records of every object, in object order,
      with the unique keys seen. */
  function DenormalizeFrom<T, C>(objs: seq<IndexedObject<T, C>>, alreadyDenormalized: bool)
    : (out: (seq<IndexedResult<T, C>>, set<Option<string>>))
    ensures forall r :: r in out.0 ==> r.obj in objs && WellFormed(r)
    ensures alreadyDenormalized ==> out.1 == set o | o in objs :: o.uniqueKey
    ensures !alreadyDenormalized ==> out.1 == {}
  {
    if objs == [] then ([], {})
    else
      var init, o := objs[..|objs| - 1], objs[|objs| - 1];
      assert objs == init + [o];
      var (rs, seen) := DenormalizeFrom(init, alreadyDenormalized);
      var (more, seen') := ObjectRecords(o, alreadyDenormalized, seen);
      (rs + more, seen')
  }

  /** The records setIndexedObjects indexes. */
  function Denormalize<T, C>(objs: seq<IndexedObject<T, C>>, alreadyDenormalized: bool): (rs: seq<IndexedResult<T, C>>)
    ensures forall r :: r in rs ==> r.obj in objs && WellFormed(r)
  {
    DenormalizeFrom(objs, alreadyDenormalized).0
  }

  // ---------------------------------------------------------------------------
  // The matcher and its construction (constructors, createIndexes)
  // ---------------------------------------------------------------------------

  datatype Matcher<T, C> = Matcher(
    records: seq<IndexedResult<T, C>>,
    index: Index,
    termCount: map<string, nat>)

  function TokenLists<T, C>(rs: seq<IndexedResult<T, C>>): (tls: seq<seq<string>>)
    ensures |tls| == |rs| && forall i :: 0 <= i < |rs| ==> tls[i] == rs[i].tokens
  {
    seq(|rs|, i requires 0 <= i < |rs| => rs[i].tokens)
  }

  /** A matcher whose indexes are those of its records, which are all well formed. */
  ghost predicate Valid<T, C>(m: Matcher<T, C>) {
    && (m.index, m.termCount) == BuildIndex(TokenLists(m.records))
    && forall r :: r in m.records ==> WellFormed(r)
  }

  /** What search needs of the indexes to look its keys up. */
  ghost predicate SearchReady<T, C>(m: Matcher<T, C>) {
    && IndexOk(m.index, |m.records|)
    && m.termCount.Keys == m.index.prefixes.Keys + m.index.keystone.Keys
  }

  /** setIndexedObjects: denormalize, sort by the first record's comparator (all
      records share the same comparator class), and index. The comparator must
      behave as one on the records: the source assumes it. */
  function Build<T, C>(objs: seq<IndexedObject<T, C>>, alreadyDenormalized: bool,
                       interp: (C, IndexedObject<T, C>, IndexedObject<T, C>) -> int): (m: Matcher<T, C>)
    requires ComparatorOn(ResultOrder(interp), Denormalize(objs, alreadyDenormalized))
    ensures multiset(m.records) == multiset(Denormalize(objs, alreadyDenormalized))
    ensures SortedBy(ResultOrder(interp), m.records)
    ensures Valid(m) && SearchReady(m)
  {
    var rs := Denormalize(objs, alreadyDenormalized);
    var sorted := if |rs| > 0 then InsertionSort(ResultOrder(interp), rs) else rs;
    assert forall r :: r in sorted ==> r in multiset(rs);
    var (ix, tc) := BuildIndex(TokenLists(sorted));
    Matcher(sorted, ix, tc)
  }

  /** IndexedTokenMatcher(indexedObjects). */
  function NewMatcher<T, C>(objs: seq<IndexedObject<T, C>>,
                            interp: (C, IndexedObject<T, C>, IndexedObject<T, C>) -> int): (m: Matcher<T, C>)
    requires ComparatorOn(ResultOrder(interp), Denormalize(objs, false))
    ensures multiset(m.records) == multiset(Denormalize(objs, false))
    ensures Valid(m) && SearchReady(m)
  {
    Build(objs, false, interp)
  }

  /** IndexedTokenMatcher(indexedObjects, alreadyDenormalized): the flag is not
      passed on; denormalized mode is always used. */
  function NewMatcherFlagged<T, C>(objs: seq<IndexedObject<T, C>>, alreadyDenormalized: bool,
                                   interp: (C, IndexedObject<T, C>, IndexedObject<T, C>) -> int): (m: Matcher<T, C>)
    requires ComparatorOn(ResultOrder(interp), Denormalize(objs, true))
    ensures multiset(m.records) == multiset(Denormalize(objs, true))
    ensures Valid(m) && SearchReady(m)
  {
    Build(objs, true, interp)
  }

  // ---------------------------------------------------------------------------
  // Choosing the rarest prefix
  // ---------------------------------------------------------------------------

  /** The state of the token loop of search: it bailed out, or holds minCount and
      oddestPrefix (-1 and null before the first token). */
  datatype Pick = Bail | Chosen(minCount: int, oddest: Option<string>)

  /** What the token loop of search promises after the tokens qt: it bails out
      exactly when some token's best prefix has no termCount entry; otherwise it
      holds (-1, null) for no tokens, and else the count of the first token
      prefix of least count. */
  ghost predicate RarestSpec(tc: map<string, nat>, qt: seq<string>, pk: Pick) {
    && (pk.Bail? <==> exists i :: 0 <= i < |qt| && (BestPrefix(qt[i]).None? || BestPrefix(qt[i]).value !in tc))
    && (pk.Chosen? ==> forall i :: 0 <= i < |qt| ==> BestPrefix(qt[i]).Some? && BestPrefix(qt[i]).value in tc)
    && (qt == [] ==> pk == Chosen(-1, None))
    && (pk.Chosen? && qt != [] ==>
      && pk.oddest.Some? && pk.oddest.value in tc && pk.minCount == tc[pk.oddest.value]
      && (exists j :: 0 <= j < |qt| && BestPrefix(qt[j]) == pk.oddest
           && forall i :: 0 <= i < j ==> tc[BestPrefix(qt[i]).value] > pk.minCount)
      && (forall i :: 0 <= i < |qt| ==> pk.minCount <= tc[BestPrefix(qt[i]).value]))
  }

  /** One pass of the token loop body. */
  function RarestNext(tc: map<string, nat>, pk: Pick, token: string): Pick {
    match pk
    case Bail => Bail
    case Chosen(minCount, oddest) =>
      var prefix := BestPrefix(token);
      if prefix.None? || prefix.value !in tc then Bail
      else if tc[prefix.value] < minCount || minCount < 0 then Chosen(tc[prefix.value], prefix)
      else Chosen(minCount, oddest)
  }

  lemma RarestStep(tc: map<string, nat>, qt: seq<string>, pk: Pick)
    requires qt != [] && RarestSpec(tc, qt[..|qt| - 1], pk)
    ensures RarestSpec(tc, qt, RarestNext(tc, pk, qt[|qt| - 1]))
  {
    var init := qt[..|qt| - 1];
    assert forall i :: 0 <= i < |init| ==> init[i] == qt[i];
  }

  /** The token loop of search over the tokens qt: it bails out on a token whose
      best prefix has no termCount entry, and otherwise keeps the first prefix of
      least count. */
  function Rarest(tc: map<string, nat>, qt: seq<string>): (pk: Pick)
    ensures RarestSpec(tc, qt, pk)
  {
    if qt == [] then Chosen(-1, None)
    else
      var pk0 := Rarest(tc, qt[..|qt| - 1]);
      RarestStep(tc, qt, pk0);
      RarestNext(tc, pk0, qt[|qt| - 1])
  }

  // ---------------------------------------------------------------------------
  // Binning and concatenation
  // ---------------------------------------------------------------------------

  /** The candidates, in scan order, whose record matches with the given code. */
  function Bin<T, C>(rs: seq<IndexedResult<T, C>>, cands: seq<nat>, ql: string, qt: seq<string>, code: int): (b: seq<nat>)
    requires forall i :: i in cands ==> i < |rs|
    ensures forall i :: i in b <==> i in cands && MatchType(rs[i], ql, qt) == code
    ensures Ascending(cands) ==> Ascending(b)
    ensures StrictlyAscending(cands) ==> StrictlyAscending(b)
    ensures |b| <= |cands|
  {
    if cands == [] then []
    else
      var init, i := cands[..|cands| - 1], cands[|cands| - 1];
      LastSplit(cands);
      var b0 := Bin(rs, init, ql, qt, code);
      if MatchType(rs[i], ql, qt) == code then
        AppendLast(cands, b0);
        b0 + [i]
      else b0
  }

  /** Splitting off the last candidate. */
  lemma LastSplit(cands: seq<nat>)
    requires cands != []
    ensures var init, i := cands[..|cands| - 1], cands[|cands| - 1];
      && cands == init + [i] && i in cands
      && (forall j :: j in init ==> j in cands)
      && (Ascending(cands) ==> Ascending(init))
      && (StrictlyAscending(cands) ==> StrictlyAscending(init))
  {
    var init := cands[..|cands| - 1];
    assert forall j :: 0 <= j < |init| ==> init[j] == cands[j];
  }

  /** A bin keeps every copy of a candidate it keeps. */
  lemma {:induction false} BinCount<T, C>(rs: seq<IndexedResult<T, C>>, cands: seq<nat>, ql: string, qt: seq<string>, code: int, j: nat)
    requires forall i :: i in cands ==> i < |rs|
    requires j < |rs| && MatchType(rs[j], ql, qt) == code
    ensures multiset(Bin(rs, cands, ql, qt, code))[j] == multiset(cands)[j]
  {
    if cands != [] {
      var init, i := cands[..|cands| - 1], cands[|cands| - 1];
      assert cands == init + [i];
      assert forall k :: k in init ==> k in cands;
      BinCount(rs, init, ql, qt, code, j);
    }
  }

  /** Appending the last candidate to a sub-list of the earlier ones keeps order. */
  lemma AppendLast(cands: seq<nat>, b: seq<nat>)
    requires cands != [] && forall j :: j in b ==> j in cands[..|cands| - 1]
    ensures Ascending(cands) && Ascending(b) ==> Ascending(b + [cands[|cands| - 1]])
    ensures StrictlyAscending(cands) && StrictlyAscending(b) ==> StrictlyAscending(b + [cands[|cands| - 1]])
  {
    var init, i := cands[..|cands| - 1], cands[|cands| - 1];
    forall j | j in b ensures Ascending(cands) ==> j <= i
      ensures StrictlyAscending(cands) ==> j < i
    {
      var k :| 0 <= k < |init| && init[k] == j;
      assert cands[k] == j;
    }
    var u := b + [i];
    forall a, c | 0 <= a < c < |u|
      ensures Ascending(cands) && Ascending(b) ==> u[a] <= u[c]
      ensures StrictlyAscending(cands) && StrictlyAscending(b) ==> u[a] < u[c]
    {
      assert u[a] == b[a] && b[a] in b;
      if c < |b| {
        assert u[c] == b[c];
      }
    }
  }

  /** Take(s, n): the first n elements, or all of s when it is shorter. */
  function Take<X>(s: seq<X>, n: nat): (r: seq<X>)
    ensures r <= s && |r| == Min(|s|, n)
  {
    if |s| <= n then s else s[..n]
  }

  /** The five addAll steps: the first bin unconditionally, each later bin only
      while fewer than maxCount matches are held. */
  function Concatenate(exactTerm: seq<nat>, exactSynonym: seq<nat>, beginsTerm: seq<nat>,
                       beginsSynonym: seq<nat>, other: seq<nat>, maxCount: int): (ms: seq<nat>)
    ensures exactTerm <= ms
    ensures ms <= exactTerm + exactSynonym + beginsTerm + beginsSynonym + other
    ensures ms == exactTerm + exactSynonym + beginsTerm + beginsSynonym + other || |ms| >= maxCount
  {
    var m1 := exactTerm;
    var m2 := if |m1| < maxCount then m1 + exactSynonym else m1;
    var m3 := if |m2| < maxCount then m2 + beginsTerm else m2;
    var m4 := if |m3| < maxCount then m3 + beginsSynonym else m3;
    var m5 := if |m4| < maxCount then m4 + other else m4;
    assert exactTerm + exactSynonym + beginsTerm + beginsSynonym + other
      == m1 + exactSynonym + beginsTerm + beginsSynonym + other;
    m5
  }

  /** The final truncation: subList(0, maxCount) when there are more than maxCount
      matches, which throws for a negative maxCount: ArrayList.subList rejects a
      fromIndex 0 above a negative toIndex with an IllegalArgumentException. */
  function Truncate<X>(ms: seq<X>, maxCount: int): (r: Result<seq<X>>)
    ensures r.Failure? <==> maxCount < 0
    ensures r.Success? ==> r.value == Take(ms, maxCount)
  {
    if |ms| > maxCount then
      if maxCount < 0 then Failure("IllegalArgumentException") else Success(ms[..maxCount])
    else Success(ms)
  }

  // ---------------------------------------------------------------------------
  // search
  // ---------------------------------------------------------------------------

  /** The match code of record i against the query (NO_MATCH past the end). */
  function Code<T, C>(m: Matcher<T, C>, query: string, i: nat): int {
    if i < |m.records| then MatchType(m.records[i], Lower(query), Tokenize(query)) else NO_MATCH
  }

  /** Positions come grouped by match code, in code order, and ascending within a group. */
  ghost predicate Grouped<T, C>(m: Matcher<T, C>, query: string, ps: seq<nat>) {
    forall a, b :: 0 <= a < b < |ps| ==>
      Code(m, query, ps[a]) < Code(m, query, ps[b]) ||
      (Code(m, query, ps[a]) == Code(m, query, ps[b]) && ps[a] <= ps[b])
  }

  lemma GroupedConcat<T, C>(m: Matcher<T, C>, query: string, s: seq<nat>, t: seq<nat>, cs: int, ct: int)
    requires forall i :: i in s ==> i < |m.records| && Code(m, query, i) == cs
    requires forall i :: i in t ==> i < |m.records| && Code(m, query, i) == ct
    requires Ascending(s) && Ascending(t) && cs < ct
    ensures Grouped(m, query, s) && Grouped(m, query, t)
    ensures Grouped(m, query, s + t)
  {
    var u := s + t;
    forall a, b | 0 <= a < b < |u|
      ensures Code(m, query, u[a]) < Code(m, query, u[b]) ||
        (Code(m, query, u[a]) == Code(m, query, u[b]) && u[a] <= u[b])
    {
      if b < |s| {
        assert u[a] == s[a] && u[b] == s[b] && s[a] in s && s[b] in s;
      } else if a >= |s| {
        assert u[a] == t[a - |s|] && u[b] == t[b - |s|] && t[a - |s|] in t && t[b - |s|] in t;
      } else {
        assert u[a] == s[a] && u[b] == t[b - |s|] && s[a] in s && t[b - |s|] in t;
      }
    }
    forall a, b | 0 <= a < b < |s| ensures Code(m, query, s[a]) == Code(m, query, s[b]) && s[a] <= s[b] {
      assert s[a] in s && s[b] in s;
    }
    forall a, b | 0 <= a < b < |t| ensures Code(m, query, t[a]) == Code(m, query, t[b]) && t[a] <= t[b] {
      assert t[a] in t && t[b] in t;
    }
  }

  lemma GroupedAppend<T, C>(m: Matcher<T, C>, query: string, s: seq<nat>, t: seq<nat>, ct: int)
    requires forall i :: i in s ==> i < |m.records| && Code(m, query, i) < ct
    requires forall i :: i in t ==> i < |m.records| && Code(m, query, i) == ct
    requires Grouped(m, query, s) && Ascending(t)
    ensures Grouped(m, query, s + t)
  {
    var u := s + t;
    forall a, b | 0 <= a < b < |u|
      ensures Code(m, query, u[a]) < Code(m, query, u[b]) ||
        (Code(m, query, u[a]) == Code(m, query, u[b]) && u[a] <= u[b])
    {
      if b < |s| {
        assert u[a] == s[a] && u[b] == s[b];
      } else if a >= |s| {
        assert u[a] == t[a - |s|] && u[b] == t[b - |s|] && t[a - |s|] in t && t[b - |s|] in t;
      } else {
        assert u[a] == s[a] && u[b] == t[b - |s|] && s[a] in s && t[b - |s|] in t;
      }
    }
  }

  /** The five bins of a candidate list, and their concatenation in code order. */
  function AllBins<T, C>(m: Matcher<T, C>, query: string, cands: seq<nat>): (all: seq<nat>)
    requires forall i :: i in cands ==> i < |m.records|
    requires Ascending(cands)
    ensures forall i :: i in all <==> i in cands && Code(m, query, i) != NO_MATCH
    ensures Grouped(m, query, all)
  {
    var ql, qt := Lower(query), Tokenize(query);
    var b1 := Bin(m.records, cands, ql, qt, EXACT_TERM_MATCH);
    var b2 := Bin(m.records, cands, ql, qt, EXACT_SYNONYM_MATCH);
    var b3 := Bin(m.records, cands, ql, qt, BEGINS_TERM_MATCH);
    var b4 := Bin(m.records, cands, ql, qt, BEGINS_SYNONYM_MATCH);
    var b5 := Bin(m.records, cands, ql, qt, OTHER_MATCH);
    GroupedConcat(m, query, b1, b2, 1, 2);
    GroupedAppend(m, query, b1 + b2, b3, 3);
    GroupedAppend(m, query, b1 + b2 + b3, b4, 4);
    GroupedAppend(m, query, b1 + b2 + b3 + b4, b5, 5);
    b1 + b2 + b3 + b4 + b5
  }

  lemma GroupedPrefix<T, C>(m: Matcher<T, C>, query: string, s: seq<nat>, t: seq<nat>)
    requires Grouped(m, query, t) && s <= t
    ensures Grouped(m, query, s)
  {
    forall a, b | 0 <= a < b < |s|
      ensures Code(m, query, s[a]) < Code(m, query, s[b]) ||
        (Code(m, query, s[a]) == Code(m, query, s[b]) && s[a] <= s[b])
    {
      assert s[a] == t[a] && s[b] == t[b];
    }
  }

  /** The truncated concatenation is a prefix of all five bins, and is all of them
      when it holds fewer than maxCount matches. */
  lemma TruncatedConcatenation(b1: seq<nat>, b2: seq<nat>, b3: seq<nat>, b4: seq<nat>, b5: seq<nat>, maxCount: int)
    ensures var r := Truncate(Concatenate(b1, b2, b3, b4, b5, maxCount), maxCount);
      r.Success? ==> (r.value <= b1 + b2 + b3 + b4 + b5 && |r.value| <= maxCount &&
                      (|r.value| < maxCount ==> r.value == b1 + b2 + b3 + b4 + b5))
  {
    var ms := Concatenate(b1, b2, b3, b4, b5, maxCount);
    var all := b1 + b2 + b3 + b4 + b5;
    var r := Truncate(ms, maxCount);
    if r.Success? {
      PrefixTrans(r.value, ms, all);
    }
  }

  /** The candidate scan of search: bin the candidates by match code, concatenate
      the bins while fewer than maxCount matches are held, and truncate. */
  function Scan<T, C>(m: Matcher<T, C>, query: string, cands: seq<nat>, maxCount: int): (r: Result<seq<nat>>)
    requires forall i :: i in cands ==> i < |m.records|
    requires Ascending(cands)
    ensures r.Failure? <==> maxCount < 0
    ensures r.Success? ==> r.value <= AllBins(m, query, cands)
    ensures r.Success? ==> |r.value| <= maxCount
    ensures r.Success? && |r.value| < maxCount ==> r.value == AllBins(m, query, cands)
    ensures r.Success? ==> forall k :: 0 <= k < |r.value| ==> r.value[k] in cands && Code(m, query, r.value[k]) != NO_MATCH
    ensures r.Success? ==> Grouped(m, query, r.value)
  {
    var ql, qt := Lower(query), Tokenize(query);
    var b1 := Bin(m.records, cands, ql, qt, EXACT_TERM_MATCH);
    var b2 := Bin(m.records, cands, ql, qt, EXACT_SYNONYM_MATCH);
    var b3 := Bin(m.records, cands, ql, qt, BEGINS_TERM_MATCH);
    var b4 := Bin(m.records, cands, ql, qt, BEGINS_SYNONYM_MATCH);
    var b5 := Bin(m.records, cands, ql, qt, OTHER_MATCH);
    var all := AllBins(m, query, cands);
    assert all == b1 + b2 + b3 + b4 + b5;
    var r := Truncate(Concatenate(b1, b2, b3, b4, b5, maxCount), maxCount);
    TruncatedConcatenation(b1, b2, b3, b4, b5, maxCount);
    if r.Success? then
      PrefixOfAllBins(m, query, cands, r.value);
      r
    else r
  }

  /** What a prefix of the bins inherits from them. */
  lemma PrefixOfAllBins<T, C>(m: Matcher<T, C>, query: string, cands: seq<nat>, v: seq<nat>)
    requires forall i :: i in cands ==> i < |m.records|
    requires Ascending(cands)
    requires v <= AllBins(m, query, cands)
    ensures forall k :: 0 <= k < |v| ==> v[k] in cands && Code(m, query, v[k]) != NO_MATCH
    ensures Grouped(m, query, v)
  {
    var all := AllBins(m, query, cands);
    GroupedPrefix(m, query, v, all);
    forall k | 0 <= k < |v| ensures v[k] in cands && Code(m, query, v[k]) != NO_MATCH {
      assert v[k] == all[k] && all[k] in all;
    }
  }

  /** What Candidates needs of a termCount key, and what it gives back. */
  lemma CandidatesReady<T, C>(m: Matcher<T, C>, p: string)
    requires SearchReady(m) && p in m.termCount
    ensures |p| < 3 ==> p in m.index.prefixes
    ensures |p| >= 3 ==> p in m.index.keystone
    ensures forall i :: i in Candidates(m.index, p) ==> i < |m.records|
    ensures Ascending(Candidates(m.index, p))
  {
    var c := Candidates(m.index, p);
    if |p| < 3 {
      forall i | i in c ensures i < |m.records| {
        var x :| x in m.index.prefixes[p] && i in m.index.keystone[x];
      }
    }
  }

  /** search(query, maxCount), as positions into the sorted records. */
  function SearchPositions<T, C>(m: Matcher<T, C>, query: string, maxCount: int): (r: Result<seq<nat>>)
    requires SearchReady(m)
    ensures r.Failure? ==> maxCount < 0
    ensures !Rarest(m.termCount, Tokenize(query)).Bail? ==> (r.Failure? <==> maxCount < 0)
    ensures r.Success? ==> maxCount < 0 ==> r.value == []
    ensures r.Success? && maxCount >= 0 ==> |r.value| <= maxCount
    ensures r.Success? ==> forall k :: 0 <= k < |r.value| ==> r.value[k] < |m.records| && Code(m, query, r.value[k]) != NO_MATCH
    ensures r.Success? ==> Grouped(m, query, r.value)
    ensures Rarest(m.termCount, Tokenize(query)).Bail? ==> r == Success([])
  {
    var pk := Rarest(m.termCount, Tokenize(query));
    if pk.Bail? then Success([])
    else if pk.oddest.None? then Truncate([], maxCount)
    else ScanPrefix(m, query, pk.oddest.value, maxCount)
  }

  /** The scan of the records filed under the chosen prefix p. */
  function ScanPrefix<T, C>(m: Matcher<T, C>, query: string, p: string, maxCount: int): (r: Result<seq<nat>>)
    requires SearchReady(m) && p in m.termCount
    ensures r.Failure? <==> maxCount < 0
    ensures r.Success? ==> |r.value| <= maxCount
    ensures r.Success? ==> forall k :: 0 <= k < |r.value| ==> r.value[k] < |m.records| && Code(m, query, r.value[k]) != NO_MATCH
    ensures r.Success? ==> Grouped(m, query, r.value)
  {
    CandidatesReady(m, p);
    var cands := Candidates(m.index, p);
    Scan(m, query, cands, maxCount)
  }

  /** The records at the given positions. */
  function Records<T, C>(m: Matcher<T, C>, ps: seq<nat>): (rs: seq<IndexedResult<T, C>>)
    requires forall k :: 0 <= k < |ps| ==> ps[k] < |m.records|
    ensures |rs| == |ps| && forall k :: 0 <= k < |ps| ==> rs[k] == m.records[ps[k]]
  {
    seq(|ps|, k requires 0 <= k < |ps| => m.records[ps[k]])
  }

  lemma RecordsMatch<T, C>(m: Matcher<T, C>, query: string, ps: seq<nat>)
    requires forall k :: 0 <= k < |ps| ==> ps[k] < |m.records| && Code(m, query, ps[k]) != NO_MATCH
    ensures forall x :: x in Records(m, ps) ==> x in m.records && MatchType(x, Lower(query), Tokenize(query)) != NO_MATCH
  {
    var rs := Records(m, ps);
    forall x | x in rs ensures x in m.records && MatchType(x, Lower(query), Tokenize(query)) != NO_MATCH {
      var k :| 0 <= k < |rs| && rs[k] == x;
    }
  }

  /** search(query, maxCount). */
  function Search<T, C>(m: Matcher<T, C>, query: string, maxCount: int): (r: Result<seq<IndexedResult<T, C>>>)
    requires SearchReady(m)
    ensures r.Failure? <==> SearchPositions(m, query, maxCount).Failure?
    ensures r.Success? ==> |r.value| == |SearchPositions(m, query, maxCount).value|
    ensures r.Success? ==> forall k :: 0 <= k < |r.value| ==>
      r.value[k] == m.records[SearchPositions(m, query, maxCount).value[k]]
    ensures r.Success? ==> forall x :: x in r.value ==>
      x in m.records && MatchType(x, Lower(query), Tokenize(query)) != NO_MATCH
  {
    var pr := SearchPositions(m, query, maxCount);
    if pr.Failure? then Failure(pr.error)
    else
      var ps := pr.value;
      var rs := Records(m, ps);
      RecordsMatch(m, query, ps);
      Success(rs)
  }

  /** search(query): at most 200 matches. */
  function SearchDefault<T, C>(m: Matcher<T, C>, query: string): (r: seq<IndexedResult<T, C>>)
    requires SearchReady(m)
    ensures |r| <= 200
    ensures Search(m, query, 200) == Success(r)
  {
    Search(m, query, 200).value
  }

  // ---------------------------------------------------------------------------
  // Projections
  // ---------------------------------------------------------------------------

  /** asIndexedObjects. */
  function AsIndexedObjects<T, C>(rs: seq<IndexedResult<T, C>>): (os: seq<IndexedObject<T, C>>)
    ensures |os| == |rs|
    ensures forall k :: 0 <= k < |rs| ==> os[k] == rs[k].obj
  {
    seq(|rs|, k requires 0 <= k < |rs| => rs[k].obj)
  }

  /** asRawObjects. */
  function AsRawObjects<T, C>(rs: seq<IndexedResult<T, C>>): (ts: seq<T>)
    ensures |ts| == |rs|
    ensures forall k :: 0 <= k < |rs| ==> ts[k] == rs[k].obj.payload
  {
    seq(|rs|, k requires 0 <= k < |rs| => rs[k].obj.payload)
  }

  /** The projections distribute over concatenation, as their loops append one
      element per record. */
  lemma ProjectionsAppend<T, C>(a: seq<IndexedResult<T, C>>, b: seq<IndexedResult<T, C>>)
    ensures AsIndexedObjects(a + b) == AsIndexedObjects(a) + AsIndexedObjects(b)
    ensures AsRawObjects(a + b) == AsRawObjects(a) + AsRawObjects(b)
  {
    assert AsIndexedObjects(a + b) == AsIndexedObjects(a) + AsIndexedObjects(b) by {
      var l, r := AsIndexedObjects(a + b), AsIndexedObjects(a) + AsIndexedObjects(b);
      assert forall k :: 0 <= k < |l| ==> l[k] == r[k] by {
        forall k | 0 <= k < |l| ensures l[k] == r[k] {
          if k < |a| {
            assert (a + b)[k] == a[k];
          } else {
            assert (a + b)[k] == b[k - |a|];
          }
        }
      }
    }
    assert AsRawObjects(a + b) == AsRawObjects(a) + AsRawObjects(b) by {
      var l, r := AsRawObjects(a + b), AsRawObjects(a) + AsRawObjects(b);
      forall k | 0 <= k < |l| ensures l[k] == r[k] {
        if k < |a| {
          assert (a + b)[k] == a[k];
        } else {
          assert (a + b)[k] == b[k - |a|];
        }
      }
    }
  }

  /** asRawObjects is the payload of each object asIndexedObjects gives. */
  lemma RawObjectsArePayloads<T, C>(rs: seq<IndexedResult<T, C>>)
    ensures |AsRawObjects(rs)| == |AsIndexedObjects(rs)|
    ensures forall k :: 0 <= k < |rs| ==> AsRawObjects(rs)[k] == AsIndexedObjects(rs)[k].payload
  {
  }

  /** The objects of a search result are objects the matcher was built from, and
      its raw objects are their payloads. */
  lemma SearchObjectsFromInput<T, C>(m: Matcher<T, C>, objs: seq<IndexedObject<T, C>>, flag: bool,
                                     query: string, maxCount: int)
    requires SearchReady(m) && multiset(m.records) == multiset(Denormalize(objs, flag))
    requires Search(m, query, maxCount).Success?
    ensures forall o :: o in AsIndexedObjects(Search(m, query, maxCount).value) ==> o in objs
    ensures forall t :: t in AsRawObjects(Search(m, query, maxCount).value) ==>
      exists o :: o in objs && o.payload == t
  {
    ProjectedFromInput(Search(m, query, maxCount).value, m.records, objs, flag);
  }

  lemma ProjectedFromInput<T, C>(rs: seq<IndexedResult<T, C>>, recs: seq<IndexedResult<T, C>>,
                                 objs: seq<IndexedObject<T, C>>, flag: bool)
    requires multiset(recs) == multiset(Denormalize(objs, flag))
    requires forall x :: x in rs ==> x in recs
    ensures forall o :: o in AsIndexedObjects(rs) ==> o in objs
    ensures forall t :: t in AsRawObjects(rs) ==> exists o :: o in objs && o.payload == t
  {
    forall k | 0 <= k < |rs| ensures rs[k].obj in objs {
      RecordFromInput(recs, objs, flag, rs[k]);
    }
    forall t | t in AsRawObjects(rs) ensures exists o :: o in objs && o.payload == t {
      var k :| 0 <= k < |rs| && AsRawObjects(rs)[k] == t;
      assert rs[k].obj in objs && rs[k].obj.payload == t;
    }
  }

  lemma RecordFromInput<T, C>(recs: seq<IndexedResult<T, C>>, objs: seq<IndexedObject<T, C>>, flag: bool, x: IndexedResult<T, C>)
    requires multiset(recs) == multiset(Denormalize(objs, flag)) && x in recs
    ensures x.obj in objs
  {
    assert x in multiset(recs);
    assert x in Denormalize(objs, flag);
  }
}
