/**
  What denormalization produces, stated against independent reference lists:
  the term records are those of the objects with a term (in denormalized mode,
  only of the first object carrying each unique key), and the synonym records
  are every synonym of every object in order, whatever the mode.
*/
module DenormalizeSpec {
  import opened Wrappers
  import opened Sorting
  import opened MatchRecord
  import opened Matcher

  /** The elements of s satisfying f, in order. */
  function Filter<X>(f: X -> bool, s: seq<X>): (r: seq<X>)
    ensures forall k :: 0 <= k < |r| ==> f(r[k])
    ensures |r| <= |s|
  {
    if s == [] then []
    else
      var init, x := s[..|s| - 1], s[|s| - 1];
      assert s == init + [x];
      Filter(f, init) + (if f(x) then [x] else [])
  }

  lemma {:induction false} FilterAppend<X>(f: X -> bool, a: seq<X>, b: seq<X>)
    ensures Filter(f, a + b) == Filter(f, a) + Filter(f, b)
    decreases |b|
  {
    if b == [] {
      assert a + b == a;
    } else {
      var init, x := b[..|b| - 1], b[|b| - 1];
      assert a + b == (a + init) + [x];
      assert (a + b)[..|a + b| - 1] == a + init;
      FilterAppend(f, a, init);
    }
  }

  lemma {:induction false} FilterNone<X>(f: X -> bool, s: seq<X>)
    requires forall k :: 0 <= k < |s| ==> !f(s[k])
    ensures Filter(f, s) == []
    decreases |s|
  {
    if s != [] {
      FilterNone(f, s[..|s| - 1]);
    }
  }

  lemma {:induction false} FilterAll<X>(f: X -> bool, s: seq<X>)
    requires forall k :: 0 <= k < |s| ==> f(s[k])
    ensures Filter(f, s) == s
    decreases |s|
  {
    if s != [] {
      FilterAll(f, s[..|s| - 1]);
    }
  }

  predicate IsTerm<T, C>(r: IndexedResult<T, C>) {
    r.isTerm
  }

  predicate IsSynonym<T, C>(r: IndexedResult<T, C>) {
    !r.isTerm
  }

  predicate HasTerm<T, C>(o: IndexedObject<T, C>) {
    o.term.Some?
  }

  /** No object of init carries key. */
  predicate NewKey<T, C>(init: seq<IndexedObject<T, C>>, key: Option<string>) {
    forall j :: 0 <= j < |init| ==> init[j].uniqueKey != key
  }

  /** Objects whose unique key no earlier object carries, when they have a term. */
  function FirstOfKeyWithTerm<T, C>(objs: seq<IndexedObject<T, C>>): (fs: seq<IndexedObject<T, C>>)
    ensures forall k :: 0 <= k < |fs| ==> fs[k].term.Some?
  {
    if objs == [] then []
    else
      var init, o := objs[..|objs| - 1], objs[|objs| - 1];
      FirstOfKeyWithTerm(init) + (if NewKey(init, o.uniqueKey) && o.term.Some? then [o] else [])
  }

  /** The term record of each object, in order. */
  function TermRecordsOf<T, C>(os: seq<IndexedObject<T, C>>): (rs: seq<IndexedResult<T, C>>)
    requires forall k :: 0 <= k < |os| ==> os[k].term.Some?
    ensures |rs| == |os|
  {
    seq(|os|, k requires 0 <= k < |os| => NewResult(os[k], true, os[k].term.value))
  }

  /** Every synonym record of every object, in object order. */
  function AllSynonyms<T, C>(objs: seq<IndexedObject<T, C>>): seq<IndexedResult<T, C>> {
    if objs == [] then [] else AllSynonyms(objs[..|objs| - 1]) + SynonymRecords(objs[|objs| - 1])
  }

  lemma TermRecordsOfAppend<T, C>(a: seq<IndexedObject<T, C>>, b: seq<IndexedObject<T, C>>)
    requires forall k :: 0 <= k < |a| ==> a[k].term.Some?
    requires forall k :: 0 <= k < |b| ==> b[k].term.Some?
    ensures TermRecordsOf(a + b) == TermRecordsOf(a) + TermRecordsOf(b)
  {
    var l, ra, rb := TermRecordsOf(a + b), TermRecordsOf(a), TermRecordsOf(b);
    forall k | 0 <= k < |l| ensures l[k] == (ra + rb)[k] {
      if k < |a| {
        assert (a + b)[k] == a[k];
      } else {
        assert (a + b)[k] == b[k - |a|];
      }
    }
  }

  /** Term records followed by synonym records separate again under the filters. */
  lemma FilterTermPart<T, C>(term: seq<IndexedResult<T, C>>, syn: seq<IndexedResult<T, C>>)
    requires forall r :: r in term ==> r.isTerm
    requires forall r :: r in syn ==> !r.isTerm
    ensures Filter(IsSynonym, term + syn) == syn
    ensures Filter(IsTerm, term + syn) == term
  {
    assert forall k :: 0 <= k < |syn| ==> syn[k] in syn;
    assert forall k :: 0 <= k < |term| ==> term[k] in term;
    FilterAppend(IsSynonym, term, syn);
    FilterAppend(IsTerm, term, syn);
    FilterNone(IsSynonym, term);
    FilterAll(IsSynonym, syn);
    FilterAll(IsTerm, term);
    FilterNone(IsTerm, syn);
  }

  /** One object's term part in denormalized mode, given the keys seen before it. */
  lemma ObjectTerms<T, C>(o: IndexedObject<T, C>, alreadyDenormalized: bool, seen: set<Option<string>>)
    ensures Filter(IsSynonym, ObjectRecords(o, alreadyDenormalized, seen).0) == SynonymRecords(o)
    ensures Filter(IsTerm, ObjectRecords(o, alreadyDenormalized, seen).0) ==
      if o.term.Some? && (!alreadyDenormalized || o.uniqueKey !in seen) then TermRecords(o) else []
  {
    var syn := SynonymRecords(o);
    var term := if !alreadyDenormalized || o.uniqueKey !in seen then TermRecords(o) else [];
    assert ObjectRecords(o, alreadyDenormalized, seen).0 == term + syn;
    FilterTermPart(term, syn);
  }

  /** The term record of an object, if it has a term. */
  lemma OneTermRecord<T, C>(o: IndexedObject<T, C>, keep: bool)
    ensures TermRecordsOf(if keep && o.term.Some? then [o] else []) == if keep then TermRecords(o) else []
  {
  }

  /** Denormalizing one more object appends its records. */
  lemma DenormalizeStep<T, C>(objs: seq<IndexedObject<T, C>>, alreadyDenormalized: bool)
    requires objs != []
    ensures var init := objs[..|objs| - 1];
      Denormalize(objs, alreadyDenormalized) ==
        Denormalize(init, alreadyDenormalized) +
        ObjectRecords(objs[|objs| - 1], alreadyDenormalized, DenormalizeFrom(init, alreadyDenormalized).1).0
  {
  }

  /** Without deduplication, every object with a term gives its term record. */
  lemma {:induction false} TermsPlain<T, C>(objs: seq<IndexedObject<T, C>>)
    ensures Filter(IsTerm, Denormalize(objs, false)) == TermRecordsOf(Filter(HasTerm, objs))
  {
    if objs != [] {
      var init, o := objs[..|objs| - 1], objs[|objs| - 1];
      TermsPlain(init);
      var rs := Denormalize(init, false);
      var more := ObjectRecords(o, false, DenormalizeFrom(init, false).1).0;
      DenormalizeStep(objs, false);
      FilterAppend(IsTerm, rs, more);
      ObjectTerms(o, false, DenormalizeFrom(init, false).1);
      var tail := if o.term.Some? then [o] else [];
      assert Filter(HasTerm, objs) == Filter(HasTerm, init) + tail;
      TermRecordsOfAppend(Filter(HasTerm, init), tail);
      OneTermRecord(o, true);
    }
  }

  /** A key is in the seen set exactly when an earlier object carries it. */
  lemma SeenKeys<T, C>(init: seq<IndexedObject<T, C>>, key: Option<string>)
    ensures key !in DenormalizeFrom(init, true).1 <==> NewKey(init, key)
  {
    if key in DenormalizeFrom(init, true).1 {
      var x :| x in init && x.uniqueKey == key;
    }
  }

  /** One step of the deduplicating loop, on the term records. */
  lemma TermsStep<T, C>(rs: seq<IndexedResult<T, C>>, o: IndexedObject<T, C>, seen: set<Option<string>>,
                        fs: seq<IndexedObject<T, C>>, first: bool)
    requires forall k :: 0 <= k < |fs| ==> fs[k].term.Some?
    requires Filter(IsTerm, rs) == TermRecordsOf(fs)
    requires o.uniqueKey !in seen <==> first
    ensures Filter(IsTerm, rs + ObjectRecords(o, true, seen).0) ==
      TermRecordsOf(fs + if first && o.term.Some? then [o] else [])
  {
    var more := ObjectRecords(o, true, seen).0;
    FilterAppend(IsTerm, rs, more);
    ObjectTerms(o, true, seen);
    var tail := if first && o.term.Some? then [o] else [];
    TermRecordsOfAppend(fs, tail);
    OneTermRecord(o, first);
  }

  /** With deduplication, only the first object of each unique key can give a
      term record, and it gives none when its own term is null. */
  lemma {:induction false} TermsDeduplicated<T, C>(objs: seq<IndexedObject<T, C>>)
    ensures Filter(IsTerm, Denormalize(objs, true)) == TermRecordsOf(FirstOfKeyWithTerm(objs))
  {
    if objs != [] {
      var init, o := objs[..|objs| - 1], objs[|objs| - 1];
      TermsDeduplicated(init);
      DenormalizeStep(objs, true);
      SeenKeys(init, o.uniqueKey);
      var first := NewKey(init, o.uniqueKey);
      TermsStep(Denormalize(init, true), o, DenormalizeFrom(init, true).1, FirstOfKeyWithTerm(init), first);
    }
  }

  /** Synonym records are the same in both modes: every synonym, in order. */
  lemma {:induction false} SynonymsEitherMode<T, C>(objs: seq<IndexedObject<T, C>>, alreadyDenormalized: bool)
    ensures Filter(IsSynonym, Denormalize(objs, alreadyDenormalized)) == AllSynonyms(objs)
  {
    if objs != [] {
      var init, o := objs[..|objs| - 1], objs[|objs| - 1];
      assert objs == init + [o];
      SynonymsEitherMode(init, alreadyDenormalized);
      var (rs, seen) := DenormalizeFrom(init, alreadyDenormalized);
      ObjectTerms(o, alreadyDenormalized, seen);
      FilterAppend(IsSynonym, rs, ObjectRecords(o, alreadyDenormalized, seen).0);
    }
  }

  /** No two objects share a unique key. */
  predicate DistinctObjectKeys<T, C>(objs: seq<IndexedObject<T, C>>) {
    forall a, b :: 0 <= a < b < |objs| ==> objs[a].uniqueKey != objs[b].uniqueKey
  }

  /** When unique keys are distinct, the two modes denormalize identically. */
  lemma {:induction false} ModesAgree<T, C>(objs: seq<IndexedObject<T, C>>)
    requires DistinctObjectKeys(objs)
    ensures Denormalize(objs, true) == Denormalize(objs, false)
  {
    if objs != [] {
      var init, o := objs[..|objs| - 1], objs[|objs| - 1];
      assert objs == init + [o];
      assert DistinctObjectKeys(init) by {
        forall a, b | 0 <= a < b < |init| ensures init[a].uniqueKey != init[b].uniqueKey {
          assert init[a] == objs[a] && init[b] == objs[b];
        }
      }
      ModesAgree(init);
      SeenKeys(init, o.uniqueKey);
      forall j | 0 <= j < |init| ensures init[j].uniqueKey != o.uniqueKey {
        assert init[j] == objs[j];
      }
      DenormalizeStep(objs, true);
      DenormalizeStep(objs, false);
    }
  }

  /** In denormalized mode an object with a null term still marks its key, so a
      later object with the same key and a term gets no term record; the plain
      mode gives it one. */
  lemma NullTermMarksKey<T, C>(objs: seq<IndexedObject<T, C>>)
    requires |objs| == 2 && objs[0].uniqueKey == objs[1].uniqueKey
    requires objs[0].term.None? && objs[1].term.Some?
    ensures Filter(IsTerm, Denormalize(objs, true)) == []
    ensures Filter(IsTerm, Denormalize(objs, false)) == [NewResult(objs[1], true, objs[1].term.value)]
  {
    NullTermDeduplicated(objs);
    NullTermPlain(objs);
  }

  lemma NullTermDeduplicated<T, C>(objs: seq<IndexedObject<T, C>>)
    requires |objs| == 2 && objs[0].uniqueKey == objs[1].uniqueKey
    requires objs[0].term.None?
    ensures FirstOfKeyWithTerm(objs) == []
    ensures Filter(IsTerm, Denormalize(objs, true)) == []
  {
    var init := objs[..1];
    assert init == [objs[0]] && init[..0] == [];
    assert FirstOfKeyWithTerm(init) == [];
    assert init[0].uniqueKey == objs[1].uniqueKey;
    TermsDeduplicated(objs);
  }

  lemma NullTermPlain<T, C>(objs: seq<IndexedObject<T, C>>)
    requires |objs| == 2
    requires objs[0].term.None? && objs[1].term.Some?
    ensures Filter(HasTerm, objs) == [objs[1]]
    ensures Filter(IsTerm, Denormalize(objs, false)) == [NewResult(objs[1], true, objs[1].term.value)]
  {
    var init := objs[..1];
    assert init == [objs[0]] && init[..0] == [];
    assert Filter(HasTerm, init) == [];
    TermsPlain(objs);
  }

  /** IndexedTokenMatcher(objects, flag) ignores the flag: both values build the
      deduplicating matcher. */
  lemma FlagIgnored<T, C>(objs: seq<IndexedObject<T, C>>, interp: (C, IndexedObject<T, C>, IndexedObject<T, C>) -> int)
    requires ComparatorOn(ResultOrder(interp), Denormalize(objs, true))
    ensures NewMatcherFlagged(objs, false, interp) == NewMatcherFlagged(objs, true, interp) == Build(objs, true, interp)
  {
  }

  /** The records of one object in plain mode: its term record, then its synonyms. */
  function OwnRecords<T, C>(o: IndexedObject<T, C>): seq<IndexedResult<T, C>> {
    TermRecords(o) + SynonymRecords(o)
  }

  /** Without deduplication, a record is one of its own object's records. */
  lemma {:induction false} PlainMember<T, C>(objs: seq<IndexedObject<T, C>>, x: IndexedResult<T, C>)
    requires x in Denormalize(objs, false)
    ensures x.obj in objs && x in OwnRecords(x.obj)
  {
    var init, o := objs[..|objs| - 1], objs[|objs| - 1];
    DenormalizeStep(objs, false);
    if x in Denormalize(init, false) {
      PlainMember(init, x);
    }
  }

  /** Without deduplication, an object that occurs once contributes each of its
      records as often as they occur among its own records, and an absent object
      none. */
  lemma {:induction false} PlainCount<T, C>(objs: seq<IndexedObject<T, C>>, x: IndexedResult<T, C>)
    requires forall a, b :: 0 <= a < b < |objs| && objs[a] == x.obj ==> objs[b] != x.obj
    ensures multiset(Denormalize(objs, false))[x] == if x.obj in objs then multiset(OwnRecords(x.obj))[x] else 0
  {
    if objs == [] {
    } else {
      var init, o := objs[..|objs| - 1], objs[|objs| - 1];
      assert objs == init + [o];
      DenormalizeStep(objs, false);
      PlainCount(init, x);
      if x.obj == o {
        assert x.obj !in init;
      } else {
        assert x !in OwnRecords(o);
      }
    }
  }
}
