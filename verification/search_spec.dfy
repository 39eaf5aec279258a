/**
  A brute-force reference for search: classify every record against the query
  and group the matches by code. The lemmas here relate the pruned search of the
  matcher to that full scan: the rarest prefix's candidates never miss a match,
  the early stop of the bin loop changes nothing, and without records that repeat
  a keystone key the two agree exactly.
*/
module SearchSpec {
  import opened Wrappers
  import opened Tokenizer
  import opened Sorting
  import opened MatchRecord
  import opened PrefixIndex
  import opened Matcher

  // ---------------------------------------------------------------------------
  // The full scan
  // ---------------------------------------------------------------------------

  /** The match code of every record, in record order. */
  function Codes<T, C>(m: Matcher<T, C>, query: string): (cs: seq<int>)
    ensures |cs| == |m.records|
    ensures forall i :: 0 <= i < |cs| ==> cs[i] == Code(m, query, i)
  {
    seq(|m.records|, i requires 0 <= i < |m.records| => Code(m, query, i))
  }

  /** The positions below n holding code c, ascending. */
  function CodeScan(cs: seq<int>, c: int, n: nat): (ps: seq<nat>)
    requires n <= |cs|
    ensures forall i: nat :: i in ps <==> i < n && cs[i] == c
    ensures StrictlyAscending(ps)
  {
    if n == 0 then []
    else
      var init := CodeScan(cs, c, n - 1);
      if cs[n - 1] == c then
        AppendGreater(init, n - 1);
        init + [n - 1]
      else init
  }

  lemma AppendGreater(s: seq<nat>, x: nat)
    requires StrictlyAscending(s) && forall i :: i in s ==> i < x
    ensures StrictlyAscending(s + [x])
  {
    var u := s + [x];
    forall a, b | 0 <= a < b < |u| ensures u[a] < u[b] {
      assert u[a] == s[a] && s[a] in s;
      if b < |s| {
        assert u[b] == s[b];
      }
    }
  }

  /** Every record classified, and the matches listed by code, in code order. */
  function FullScan<T, C>(m: Matcher<T, C>, query: string): (fs: seq<nat>)
    ensures forall i: nat :: i in fs <==> i < |m.records| && Code(m, query, i) != NO_MATCH
    ensures Grouped(m, query, fs)
  {
    var cs, n := Codes(m, query), |m.records|;
    var s1 := CodeScan(cs, EXACT_TERM_MATCH, n);
    var s2 := CodeScan(cs, EXACT_SYNONYM_MATCH, n);
    var s3 := CodeScan(cs, BEGINS_TERM_MATCH, n);
    var s4 := CodeScan(cs, BEGINS_SYNONYM_MATCH, n);
    var s5 := CodeScan(cs, OTHER_MATCH, n);
    GroupedConcat(m, query, s1, s2, 1, 2);
    GroupedAppend(m, query, s1 + s2, s3, 3);
    GroupedAppend(m, query, s1 + s2 + s3, s4, 4);
    GroupedAppend(m, query, s1 + s2 + s3 + s4, s5, 5);
    s1 + s2 + s3 + s4 + s5
  }

  lemma EmptyIfNoMembers(s: seq<nat>)
    ensures (forall x: nat :: x !in s) ==> s == []
  {
    if s != [] {
      assert s[0] in s;
    }
  }

  /** Two strictly ascending lists with the same elements start alike. */
  lemma SameHead(a: seq<nat>, b: seq<nat>)
    requires StrictlyAscending(a) && StrictlyAscending(b)
    requires forall x :: x in a <==> x in b
    requires a != []
    ensures b != [] && a[0] == b[0]
  {
    assert a[0] in a;
    var l :| 0 <= l < |b| && b[l] == a[0];
    assert b[0] in a;
    var k :| 0 <= k < |a| && a[k] == b[0];
    assert a[0] <= a[k] && b[0] <= b[l];
  }

  /** An element of the tail of one is in the tail of the other. */
  lemma SameTailMember(a: seq<nat>, b: seq<nat>, x: nat)
    requires StrictlyAscending(a) && StrictlyAscending(b)
    requires forall y :: y in a <==> y in b
    requires a != [] && b != [] && a[0] == b[0]
    requires x in a[1..]
    ensures x in b[1..]
  {
    var u :| 0 <= u < |a| - 1 && a[1..][u] == x;
    assert a[u + 1] == x && x in a;
    var v :| 0 <= v < |b| && b[v] == x;
    assert v != 0 && b[1..][v - 1] == x;
  }

  /** Two strictly ascending lists with the same elements are equal. */
  lemma {:induction false} StrictSameMembers(a: seq<nat>, b: seq<nat>)
    requires StrictlyAscending(a) && StrictlyAscending(b)
    requires forall x :: x in a <==> x in b
    ensures a == b
    decreases |a|
  {
    if a != [] {
      SameHead(a, b);
      forall x ensures x in a[1..] <==> x in b[1..] {
        if x in a[1..] {
          SameTailMember(a, b, x);
        }
        if x in b[1..] {
          SameTailMember(b, a, x);
        }
      }
      StrictSameMembers(a[1..], b[1..]);
      assert a == [a[0]] + a[1..] && b == [b[0]] + b[1..];
    } else {
      EmptyIfNoMembers(b);
    }
  }

  /** A code held at one position only, or at none, scans to that position alone. */
  lemma CodeScanAt(cs: seq<int>, c: int, n: nat, ps: seq<nat>)
    requires n <= |cs| && StrictlyAscending(ps)
    requires forall i: nat :: i in ps <==> i < n && cs[i] == c
    ensures CodeScan(cs, c, n) == ps
  {
    StrictSameMembers(CodeScan(cs, c, n), ps);
  }

  /** When no record matches, the scan is empty. */
  lemma FullScanNone<T, C>(m: Matcher<T, C>, query: string)
    requires forall i :: 0 <= i < |m.records| ==> Code(m, query, i) == NO_MATCH
    ensures FullScan(m, query) == []
  {
    EmptyIfNoMembers(FullScan(m, query));
  }

  /** The five code scans, in code order. */
  function Scans(cs: seq<int>, n: nat): seq<nat>
    requires n <= |cs|
  {
    CodeScan(cs, EXACT_TERM_MATCH, n) + CodeScan(cs, EXACT_SYNONYM_MATCH, n) + CodeScan(cs, BEGINS_TERM_MATCH, n)
      + CodeScan(cs, BEGINS_SYNONYM_MATCH, n) + CodeScan(cs, OTHER_MATCH, n)
  }

  lemma ScansSingle(cs: seq<int>, n: nat, i: nat)
    requires n <= |cs| && i < n && NO_MATCH < cs[i] <= OTHER_MATCH
    requires forall j :: 0 <= j < n && j != i ==> cs[j] == NO_MATCH
    ensures Scans(cs, n) == [i]
  {
    var ci := cs[i];
    CodeScanAt(cs, ci, n, [i]);
    if ci != EXACT_TERM_MATCH { CodeScanAt(cs, EXACT_TERM_MATCH, n, []); }
    if ci != EXACT_SYNONYM_MATCH { CodeScanAt(cs, EXACT_SYNONYM_MATCH, n, []); }
    if ci != BEGINS_TERM_MATCH { CodeScanAt(cs, BEGINS_TERM_MATCH, n, []); }
    if ci != BEGINS_SYNONYM_MATCH { CodeScanAt(cs, BEGINS_SYNONYM_MATCH, n, []); }
    if ci != OTHER_MATCH { CodeScanAt(cs, OTHER_MATCH, n, []); }
  }

  lemma ScanOfPair(cs: seq<int>, n: nat, i: nat, j: nat, c: int)
    requires n <= |cs| && i < n && j < n && cs[i] != cs[j]
    requires forall k :: 0 <= k < n && k != i && k != j ==> cs[k] == NO_MATCH
    requires c != NO_MATCH
    ensures CodeScan(cs, c, n) == if c == cs[i] then [i] else if c == cs[j] then [j] else []
  {
    CodeScanAt(cs, c, n, if c == cs[i] then [i] else if c == cs[j] then [j] else []);
  }

  lemma ScansPair(cs: seq<int>, n: nat, i: nat, j: nat)
    requires n <= |cs| && i < n && j < n && NO_MATCH < cs[i] < cs[j] <= OTHER_MATCH
    requires forall k :: 0 <= k < n && k != i && k != j ==> cs[k] == NO_MATCH
    ensures Scans(cs, n) == [i, j]
  {
    var s1 := CodeScan(cs, EXACT_TERM_MATCH, n);
    var s2 := CodeScan(cs, EXACT_SYNONYM_MATCH, n);
    var s3 := CodeScan(cs, BEGINS_TERM_MATCH, n);
    var s4 := CodeScan(cs, BEGINS_SYNONYM_MATCH, n);
    var s5 := CodeScan(cs, OTHER_MATCH, n);
    ScanOfPair(cs, n, i, j, EXACT_TERM_MATCH);
    ScanOfPair(cs, n, i, j, EXACT_SYNONYM_MATCH);
    ScanOfPair(cs, n, i, j, BEGINS_TERM_MATCH);
    ScanOfPair(cs, n, i, j, BEGINS_SYNONYM_MATCH);
    ScanOfPair(cs, n, i, j, OTHER_MATCH);
    PlaceTwo(s1, s2, s3, s4, s5, cs[i], cs[j], i, j);
  }

  /** Five bins, the one numbered ci holding [i] and the one numbered cj holding [j]. */
  lemma PlaceTwo(s1: seq<nat>, s2: seq<nat>, s3: seq<nat>, s4: seq<nat>, s5: seq<nat>, ci: int, cj: int, i: nat, j: nat)
    requires 1 <= ci < cj <= 5
    requires s1 == (if ci == 1 then [i] else if cj == 1 then [j] else [])
    requires s2 == (if ci == 2 then [i] else if cj == 2 then [j] else [])
    requires s3 == (if ci == 3 then [i] else if cj == 3 then [j] else [])
    requires s4 == (if ci == 4 then [i] else if cj == 4 then [j] else [])
    requires s5 == (if ci == 5 then [i] else if cj == 5 then [j] else [])
    ensures s1 + s2 + s3 + s4 + s5 == [i, j]
  {
  }

  /** When one record matches, the scan is its position. */
  lemma FullScanSingle<T, C>(m: Matcher<T, C>, query: string, i: nat)
    requires i < |m.records| && Code(m, query, i) != NO_MATCH
    requires forall j :: 0 <= j < |m.records| && j != i ==> Code(m, query, j) == NO_MATCH
    ensures FullScan(m, query) == [i]
  {
    var cs := Codes(m, query);
    ScansSingle(cs, |m.records|, i);
    assert FullScan(m, query) == Scans(cs, |m.records|);
  }

  /** When two records match with different codes, the scan holds the one with the
      lower code first. */
  lemma FullScanPair<T, C>(m: Matcher<T, C>, query: string, i: nat, j: nat)
    requires i < |m.records| && j < |m.records|
    requires NO_MATCH < Code(m, query, i) < Code(m, query, j)
    requires forall k :: 0 <= k < |m.records| && k != i && k != j ==> Code(m, query, k) == NO_MATCH
    ensures FullScan(m, query) == [i, j]
  {
    var cs := Codes(m, query);
    ScansPair(cs, |m.records|, i, j);
    assert FullScan(m, query) == Scans(cs, |m.records|);
  }

  // ---------------------------------------------------------------------------
  // Pruning loses nothing
  // ---------------------------------------------------------------------------

  /** Each query token starts a token of every matching record. */
  lemma MatchedToken<T, C>(r: IndexedResult<T, C>, query: string, j: nat)
    requires WellFormed(r)
    requires j < |Tokenize(query)|
    requires MatchType(r, Lower(query), Tokenize(query)) != NO_MATCH
    ensures exists l :: 0 <= l < |r.tokens| && Tokenize(query)[j] <= r.tokens[l]
  {
    MatchImpliesTokensCovered(r, query);
    assert StartsSome(Tokenize(query)[j], r.tokens);
  }

  /** A matching record holds a token that starts with the best prefix of each
      (non-empty) query token: the fact the rarest-prefix pruning relies on. */
  lemma MatchedEntry<T, C>(rs: seq<IndexedResult<T, C>>, query: string, j: nat, i: nat)
    requires forall r :: r in rs ==> WellFormed(r)
    requires j < |Tokenize(query)| && Tokenize(query)[j] != []
    requires i < |rs| && MatchType(rs[i], Lower(query), Tokenize(query)) != NO_MATCH
    ensures exists e :: e in Entries(TokenLists(rs)) && e.pos == i && Starts(e, BestPrefix(Tokenize(query)[j]).value)
  {
    var q := Tokenize(query)[j];
    var p := BestPrefix(q).value;
    var tokens := rs[i].tokens;
    assert rs[i] in rs;
    MatchedToken(rs[i], query, j);
    var l :| 0 <= l < |tokens| && q <= tokens[l];
    PrefixTrans(p, q, tokens[l]);
    var tls := TokenLists(rs);
    assert tls[i] == tokens && tokens[l] in tls[i];
    var e := Entry(i, tokens[l]);
    assert e in Entries(tls) && e.pos == i && Starts(e, p);
  }

  /** Every matching record is among the candidates of every query token's best
      prefix, so in particular of the rarest one. */
  lemma CandidatesComplete<T, C>(m: Matcher<T, C>, query: string, j: nat, i: nat)
    requires Valid(m)
    requires j < |Tokenize(query)| && BestPrefix(Tokenize(query)[j]).Some?
    requires BestPrefix(Tokenize(query)[j]).value in m.termCount
    requires i < |m.records| && Code(m, query, i) != NO_MATCH
    ensures i in Candidates(m.index, BestPrefix(Tokenize(query)[j]).value)
  {
    var p := BestPrefix(Tokenize(query)[j]).value;
    MatchedEntry(m.records, query, j, i);
    CandidatesSpec(TokenLists(m.records), p);
  }

  /** When search bails out on a query with letters or digits, no record matches. */
  lemma BailMeansNoMatch<T, C>(m: Matcher<T, C>, query: string)
    requires Valid(m) && !NoAlnum(Lower(query))
    requires Rarest(m.termCount, Tokenize(query)).Bail?
    ensures FullScan(m, query) == []
  {
    var qt := Tokenize(query);
    var j :| 0 <= j < |qt| && (BestPrefix(qt[j]).None? || BestPrefix(qt[j]).value !in m.termCount);
    assert qt[j] != [];
    var p := BestPrefix(qt[j]).value;
    TermCountKeys(TokenLists(m.records), p);
    forall i: nat | i < |m.records| ensures Code(m, query, i) == NO_MATCH {
      if Code(m, query, i) != NO_MATCH {
        MatchedEntry(m.records, query, j, i);
      }
    }
    EmptyIfNoMembers(FullScan(m, query));
  }

  // ---------------------------------------------------------------------------
  // The early stop
  // ---------------------------------------------------------------------------

  /** Skipping the later bins once maxCount matches are held changes nothing after
      the final truncation: the output is the first maxCount of all five bins. */
  lemma EarlyStop(b1: seq<nat>, b2: seq<nat>, b3: seq<nat>, b4: seq<nat>, b5: seq<nat>, maxCount: int)
    requires maxCount >= 0
    ensures Truncate(Concatenate(b1, b2, b3, b4, b5, maxCount), maxCount) == Success(Take(b1 + b2 + b3 + b4 + b5, maxCount))
  {
    var all := b1 + b2 + b3 + b4 + b5;
    var r := Truncate(Concatenate(b1, b2, b3, b4, b5, maxCount), maxCount);
    TruncatedConcatenation(b1, b2, b3, b4, b5, maxCount);
    if |r.value| == maxCount {
      assert r.value == all[..maxCount];
    } else {
      assert r.value == all && |all| <= maxCount;
    }
  }

  // ---------------------------------------------------------------------------
  // search against the full scan
  // ---------------------------------------------------------------------------

  /** The scan of the rarest prefix's candidates holds every match unless it is full. */
  lemma ScanPrefixComplete<T, C>(m: Matcher<T, C>, query: string, j: nat, maxCount: int)
    requires Valid(m)
    requires j < |Tokenize(query)| && BestPrefix(Tokenize(query)[j]).Some?
    requires BestPrefix(Tokenize(query)[j]).value in m.termCount
    ensures var r := ScanPrefix(m, query, BestPrefix(Tokenize(query)[j]).value, maxCount);
      r.Success? && |r.value| < maxCount ==> forall i :: i in FullScan(m, query) ==> i in r.value
  {
    var p := BestPrefix(Tokenize(query)[j]).value;
    var r := ScanPrefix(m, query, p, maxCount);
    CandidatesReady(m, p);
    var cands := Candidates(m.index, p);
    assert r == Scan(m, query, cands, maxCount);
    if r.Success? && |r.value| < maxCount {
      forall i | i in FullScan(m, query) ensures i in r.value {
        CandidatesComplete(m, query, j, i);
      }
    }
  }

  /** search with a non-negative maxCount succeeds, returns only matches, and
      leaves a match out only when it already holds maxCount of them. */
  lemma SearchAgainstFullScan<T, C>(m: Matcher<T, C>, query: string, maxCount: int)
    requires Valid(m) && !NoAlnum(Lower(query)) && maxCount >= 0
    ensures SearchPositions(m, query, maxCount).Success?
    ensures forall k :: 0 <= k < |SearchPositions(m, query, maxCount).value| ==>
      SearchPositions(m, query, maxCount).value[k] in FullScan(m, query)
    ensures |SearchPositions(m, query, maxCount).value| < maxCount ==>
      forall i :: i in FullScan(m, query) ==> i in SearchPositions(m, query, maxCount).value
  {
    var qt := Tokenize(query);
    var pk := Rarest(m.termCount, qt);
    var r := SearchPositions(m, query, maxCount);
    if pk.Bail? {
      BailMeansNoMatch(m, query);
      assert r == Success([]);
    } else {
      var j :| 0 <= j < |qt| && BestPrefix(qt[j]) == pk.oddest;
      assert r == ScanPrefix(m, query, pk.oddest.value, maxCount);
      ScanPrefixComplete(m, query, j, maxCount);
    }
  }

  /** The candidates of a termCount key are strictly ascending when no record has
      two tokens with the same keystone key. */
  lemma CandidatesStrict<T, C>(m: Matcher<T, C>, p: string)
    requires Valid(m) && p in m.termCount
    requires DistinctKeys(TokenLists(m.records))
    ensures |p| < 3 ==> p in m.index.prefixes
    ensures |p| >= 3 ==> p in m.index.keystone
    ensures StrictlyAscending(Candidates(m.index, p))
  {
    CandidatesReady(m, p);
    if |p| >= 3 {
      var es := Entries(TokenLists(m.records));
      KeystoneSpec(es);
      DistinctKeysStrict(TokenLists(m.records), p);
    }
  }

  /** With complete, strictly ascending candidates, each bin is the full scan of its code. */
  lemma BinIsCodeScan<T, C>(m: Matcher<T, C>, query: string, cands: seq<nat>, c: int)
    requires forall i :: i in cands ==> i < |m.records|
    requires StrictlyAscending(cands)
    requires forall i :: 0 <= i < |m.records| && Code(m, query, i) != NO_MATCH ==> i in cands
    requires NO_MATCH < c
    ensures Bin(m.records, cands, Lower(query), Tokenize(query), c) == CodeScan(Codes(m, query), c, |m.records|)
  {
    var b := Bin(m.records, cands, Lower(query), Tokenize(query), c);
    var s := CodeScan(Codes(m, query), c, |m.records|);
    StrictSameMembers(b, s);
  }

  /** Without records that repeat a keystone key, search is exactly the first
      maxCount matches of the full scan. */
  lemma SearchIsFullScan<T, C>(m: Matcher<T, C>, query: string, maxCount: int)
    requires Valid(m) && !NoAlnum(Lower(query)) && maxCount >= 0
    requires DistinctKeys(TokenLists(m.records))
    ensures SearchPositions(m, query, maxCount) == Success(Take(FullScan(m, query), maxCount))
  {
    var qt := Tokenize(query);
    var pk := Rarest(m.termCount, qt);
    if pk.Bail? {
      BailMeansNoMatch(m, query);
    } else {
      var p := pk.oddest.value;
      var j :| 0 <= j < |qt| && BestPrefix(qt[j]) == pk.oddest;
      CandidatesStrict(m, p);
      CandidatesReady(m, p);
      var cands := Candidates(m.index, p);
      forall i | 0 <= i < |m.records| && Code(m, query, i) != NO_MATCH ensures i in cands {
        CandidatesComplete(m, query, j, i);
      }
      var ql := Lower(query);
      var b1 := Bin(m.records, cands, ql, qt, EXACT_TERM_MATCH);
      var b2 := Bin(m.records, cands, ql, qt, EXACT_SYNONYM_MATCH);
      var b3 := Bin(m.records, cands, ql, qt, BEGINS_TERM_MATCH);
      var b4 := Bin(m.records, cands, ql, qt, BEGINS_SYNONYM_MATCH);
      var b5 := Bin(m.records, cands, ql, qt, OTHER_MATCH);
      BinIsCodeScan(m, query, cands, EXACT_TERM_MATCH);
      BinIsCodeScan(m, query, cands, EXACT_SYNONYM_MATCH);
      BinIsCodeScan(m, query, cands, BEGINS_TERM_MATCH);
      BinIsCodeScan(m, query, cands, BEGINS_SYNONYM_MATCH);
      BinIsCodeScan(m, query, cands, OTHER_MATCH);
      EarlyStop(b1, b2, b3, b4, b5, maxCount);
      assert SearchPositions(m, query, maxCount) == Scan(m, query, cands, maxCount);
    }
  }

  /** A query without letters or digits bails out at once (even for a negative
      maxCount): it tokenizes to [""], which has no best prefix. The full scan
      still lists every record whose string properly begins with the lowercased
      query, so these records are matches that search does not return. */
  lemma NoWordQuery<T, C>(m: Matcher<T, C>, query: string, maxCount: int)
    requires SearchReady(m) && NoAlnum(Lower(query))
    ensures SearchPositions(m, query, maxCount) == Success([])
    ensures forall i :: 0 <= i < |m.records| && Lower(query) < m.records[i].lowerString ==> i in FullScan(m, query)
  {
    NoWordTokens(query);
    EmptyTokenBails(m.termCount);
  }

  lemma NoWordTokens(query: string)
    requires NoAlnum(Lower(query))
    ensures Tokenize(query) == [""]
  {
  }

  /** A lone empty token has no prefix to look up. */
  lemma EmptyTokenBails(tc: map<string, nat>)
    ensures Rarest(tc, [""]).Bail?
  {
    assert BestPrefix([""][0]).None?;
  }

  /** An instance: the query "?" has no letter or digit, yet a record "?x" begins
      with it. */
  lemma QuestionMarkQuery<T, C>(o: IndexedObject<T, C>)
    ensures NoAlnum(Lower("?"))
    ensures MatchType(NewResult(o, true, "?x"), Lower("?"), Tokenize("?")) == BEGINS_TERM_MATCH
  {
    LowerFixed("?");
    LowerFixed("?x");
    assert "?" < "?x";
  }

  // ---------------------------------------------------------------------------
  // Repeated keys
  // ---------------------------------------------------------------------------

  lemma HouseHousesTokens()
    ensures Lower("house houses") == "house houses"
    ensures Tokenize("house houses") == ["house", "houses"]
  {
    var ts := ["house", "houses"];
    assert ts[1..] == ["houses"];
    assert Join(ts) == "house houses";
    assert ProperTokens(ts) by {
      assert ts[0] == "house" && ts[1] == "houses";
    }
    JoinShape(ts);
    LowerFixed(Join(ts));
    TokenizeJoin(ts);
  }

  lemma HouQuery()
    ensures Lower("hou") == "hou" && Tokenize("hou") == ["hou"]
    ensures BestPrefix("hou") == Some("hou")
  {
    var ts := ["hou"];
    assert Join(ts) == "hou";
    assert ProperTokens(ts) by {
      assert ts[0] == "hou";
    }
    LowerFixed("hou");
    TokenizeJoin(ts);
    assert "hou"[..3] == "hou";
  }

  lemma HouseEntries()
    ensures Entries([["house", "houses"]]) == [Entry(0, "house"), Entry(0, "houses")]
  {
    var tls := [["house", "houses"]];
    assert tls[..0] == [];
    assert Row(0, tls[0]) == [Entry(0, "house"), Entry(0, "houses")];
  }

  lemma HouOccurrences()
    ensures Occurrences([Entry(0, "house"), Entry(0, "houses")], "hou") == [0, 0]
  {
    var es := [Entry(0, "house"), Entry(0, "houses")];
    assert Key("house") == "hou" && Key("houses") == "hou";
    assert es[..1] == [Entry(0, "house")];
    assert es[..1][..0] == [];
    assert Occurrences(es[..1], "hou") == [0];
  }

  /** The tokens "house" and "houses" share the keystone key "hou", so the one
      record holding both is filed twice under it. */
  lemma RepeatedKeyIndex()
    ensures "hou" in BuildIndex([["house", "houses"]]).0.keystone
    ensures BuildIndex([["house", "houses"]]).0.keystone["hou"] == [0, 0]
  {
    var es := [Entry(0, "house"), Entry(0, "houses")];
    HouseEntries();
    HouOccurrences();
    KeystoneSpec(es);
    assert Keyed(es[0], "hou");
  }

  lemma HouseRecord<T, C>(o: IndexedObject<T, C>)
    ensures NewResult(o, true, "house houses").tokens == ["house", "houses"]
    ensures MatchType(NewResult(o, true, "house houses"), "hou", ["hou"]) == BEGINS_TERM_MATCH
  {
    HouseHousesTokens();
    assert "hou" < "house houses";
  }

  lemma RarestHou(tc: map<string, nat>)
    requires "hou" in tc
    ensures Rarest(tc, ["hou"]) == Chosen(tc["hou"], Some("hou"))
  {
    var qt := ["hou"];
    assert qt[..0] == [];
    assert Rarest(tc, qt) == RarestNext(tc, Chosen(-1, None), "hou");
    FirstHou(tc);
  }

  lemma FirstHou(tc: map<string, nat>)
    requires "hou" in tc
    ensures RarestNext(tc, Chosen(-1, None), "hou") == Chosen(tc["hou"], Some("hou"))
  {
    HouQuery();
  }

  lemma TwiceBin<T, C>(rs: seq<IndexedResult<T, C>>, code: int)
    requires |rs| == 1 && MatchType(rs[0], "hou", ["hou"]) == BEGINS_TERM_MATCH
    ensures Bin(rs, [0, 0], "hou", ["hou"], code) == if code == BEGINS_TERM_MATCH then [0, 0] else []
  {
    var cands: seq<nat> := [0, 0];
    assert cands[..1] == [0] && [0][..0] == [];
    assert Bin(rs, [], "hou", ["hou"], code) == [];
    var b1 := Bin(rs, [0], "hou", ["hou"], code);
    assert b1 == if code == BEGINS_TERM_MATCH then [0] else [];
  }

  lemma HouseMatcher<T, C>(m: Matcher<T, C>, o: IndexedObject<T, C>)
    requires Valid(m) && m.records == [NewResult(o, true, "house houses")]
    ensures "hou" in m.index.keystone && "hou" in m.termCount
    ensures Candidates(m.index, "hou") == [0, 0]
  {
    HouseTokenLists(m.records, o);
    HouseIndex(m.index, m.termCount);
  }

  lemma HouseTokenLists<T, C>(rs: seq<IndexedResult<T, C>>, o: IndexedObject<T, C>)
    requires rs == [NewResult(o, true, "house houses")]
    ensures TokenLists(rs) == [["house", "houses"]]
  {
    HouseHousesTokens();
    var tls := TokenLists(rs);
    assert tls[0] == rs[0].tokens;
  }

  lemma HouseIndex(ix: Index, tc: map<string, nat>)
    requires (ix, tc) == BuildIndex([["house", "houses"]])
    ensures "hou" in ix.keystone && "hou" in tc
    ensures Candidates(ix, "hou") == [0, 0]
  {
    RepeatedKeyIndex();
  }

  lemma ConcatenateTwice(maxCount: int)
    requires maxCount >= 2
    ensures Concatenate([], [], [0, 0], [], [], maxCount) == [0, 0]
  {
  }

  lemma ScanTwice<T, C>(m: Matcher<T, C>, maxCount: int)
    requires |m.records| == 1 && MatchType(m.records[0], "hou", ["hou"]) == BEGINS_TERM_MATCH
    requires maxCount >= 2
    ensures Scan(m, "hou", [0, 0], maxCount) == Success([0, 0])
  {
    HouQuery();
    TwiceBin(m.records, EXACT_TERM_MATCH);
    TwiceBin(m.records, EXACT_SYNONYM_MATCH);
    TwiceBin(m.records, BEGINS_TERM_MATCH);
    TwiceBin(m.records, BEGINS_SYNONYM_MATCH);
    TwiceBin(m.records, OTHER_MATCH);
    ConcatenateTwice(maxCount);
  }

  /** Without the distinct-keys condition search can return a record twice: with the
      one record "house houses", the query "hou" scans its keystone list [0, 0]
      and both copies begin-match. */
  lemma RepeatedKeyTwice<T, C>(m: Matcher<T, C>, o: IndexedObject<T, C>, maxCount: int)
    requires Valid(m) && m.records == [NewResult(o, true, "house houses")]
    requires maxCount >= 2
    ensures SearchPositions(m, "hou", maxCount) == Success([0, 0])
  {
    HouseRecord(o);
    HouQuery();
    HouseMatcher(m, o);
    RarestHou(m.termCount);
    ScanTwice(m, maxCount);
    assert ScanPrefix(m, "hou", "hou", maxCount) == Success([0, 0]);
    assert SearchPositions(m, "hou", maxCount) == ScanPrefix(m, "hou", "hou", maxCount);
  }

  // ---------------------------------------------------------------------------
  // Order of the results
  // ---------------------------------------------------------------------------

  /** Results come by match code, and within a code in the order of the sorted
      records. */
  lemma SearchOrdered<T, C>(m: Matcher<T, C>, query: string, maxCount: int, cmp: (IndexedResult<T, C>, IndexedResult<T, C>) --> int)
    requires SearchReady(m) && ComparatorOn(cmp, m.records) && SortedBy(cmp, m.records)
    requires Search(m, query, maxCount).Success?
    ensures var rs := Search(m, query, maxCount).value;
      forall a, b :: 0 <= a < b < |rs| ==>
        MatchType(rs[a], Lower(query), Tokenize(query)) < MatchType(rs[b], Lower(query), Tokenize(query)) ||
        (MatchType(rs[a], Lower(query), Tokenize(query)) == MatchType(rs[b], Lower(query), Tokenize(query)) &&
         cmp.requires(rs[a], rs[b]) && cmp(rs[a], rs[b]) <= 0)
  {
    var rs := Search(m, query, maxCount).value;
    var ps := SearchPositions(m, query, maxCount).value;
    forall a, b | 0 <= a < b < |rs|
      ensures MatchType(rs[a], Lower(query), Tokenize(query)) < MatchType(rs[b], Lower(query), Tokenize(query)) ||
        (MatchType(rs[a], Lower(query), Tokenize(query)) == MatchType(rs[b], Lower(query), Tokenize(query)) &&
         cmp.requires(rs[a], rs[b]) && cmp(rs[a], rs[b]) <= 0)
    {
      assert rs[a] == m.records[ps[a]] && rs[b] == m.records[ps[b]];
      assert rs[a] in m.records && rs[b] in m.records;
      if ps[a] == ps[b] {
        assert cmp(rs[a], rs[a]) <= 0;
      }
    }
  }

  /** A built matcher's records are sorted by the result order it was built with,
      which is a comparator on them. */
  lemma BuiltSorted<T, C>(objs: seq<IndexedObject<T, C>>, alreadyDenormalized: bool,
                          interp: (C, IndexedObject<T, C>, IndexedObject<T, C>) -> int)
    requires ComparatorOn(ResultOrder(interp), Denormalize(objs, alreadyDenormalized))
    ensures ComparatorOn(ResultOrder(interp), Build(objs, alreadyDenormalized, interp).records)
    ensures SortedBy(ResultOrder(interp), Build(objs, alreadyDenormalized, interp).records)
  {
    var m := Build(objs, alreadyDenormalized, interp);
    assert forall r :: r in m.records ==> r in multiset(Denormalize(objs, alreadyDenormalized));
    ComparatorOnSubset(ResultOrder(interp), Denormalize(objs, alreadyDenormalized), m.records);
  }
}
