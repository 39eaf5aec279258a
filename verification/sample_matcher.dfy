/**
  The ten-object sample matcher of IndexedTokenManagerTests: the items, their
  wrapper and its comparator, the records the matcher denormalizes them into,
  and what search returns for the test queries on any matcher built from them.
*/
module SampleMatcher {
  import opened Wrappers
  import opened Tokenizer
  import opened Sorting
  import opened MatchRecord
  import opened PrefixIndex
  import opened Matcher
  import opened SearchSpec
  import opened Scenarios
  import opened DenormalizeSpec

  // ---------------------------------------------------------------------------
  // The sample items and their wrapper
  // ---------------------------------------------------------------------------

  /** FauxItem: an id, a name and up to two synonyms (null when absent). */
  datatype FauxItem = FauxItem(id: string, name: string, synonym1: Option<string>, synonym2: Option<string>)

  /** The one comparator every wrapper returns (FauxWrapperComparator). */
  datatype FauxComparator = FauxWrapperComparator

  type FauxObject = IndexedObject<FauxItem, FauxComparator>
  type FauxRecord = IndexedResult<FauxItem, FauxComparator>

  /** FauxWrapper.getSynonyms: the non-null synonyms, synonym1 first. */
  function SynonymList(it: FauxItem): (syns: seq<string>)
    ensures |syns| <= 2
    ensures it.synonym1.Some? ==> syns != [] && syns[0] == it.synonym1.value
    ensures it.synonym2.Some? ==> syns != [] && syns[|syns| - 1] == it.synonym2.value
    ensures |syns| == (if it.synonym1.Some? then 1 else 0) + (if it.synonym2.Some? then 1 else 0)
  {
    (if it.synonym1.Some? then [it.synonym1.value] else [])
      + (if it.synonym2.Some? then [it.synonym2.value] else [])
  }

  /** FauxWrapper: the id is the unique key, the name the term. */
  function Wrap(it: FauxItem): (o: FauxObject)
    ensures o.payload == it && o.uniqueKey == Some(it.id) && o.term == Some(it.name)
    ensures o.comparator.Some?
  {
    IndexedObject(Some(it.id), Some(it.name), SynonymList(it), it, Some(FauxWrapperComparator))
  }

  /** getPopulatedITM's ten wrapped items, in insertion order. */
  function SampleObjects(): seq<FauxObject> {
    [ Wrap(FauxItem("id1", "house", Some("home"), Some("domicile"))),
      Wrap(FauxItem("id2", "roof", Some("housetop"), None)),
      Wrap(FauxItem("id3", "chimney", Some("smokestack"), None)),
      Wrap(FauxItem("id4", "living room", Some("family room"), None)),
      Wrap(FauxItem("id5", "kitchen", None, None)),
      Wrap(FauxItem("id6", "bathroom", Some("washroom"), Some("loo"))),
      Wrap(FauxItem("id7", "cellar", None, Some("basement"))),
      Wrap(FauxItem("id8", "roofing material", Some("shingle"), Some("slate"))),
      Wrap(FauxItem("id9", "cellar dweller", Some("mouse"), Some("rat"))),
      Wrap(FauxItem("id10", "cupboard", Some("kitchen cabinet"), None)) ]
  }

  // ---------------------------------------------------------------------------
  // The comparator
  // ---------------------------------------------------------------------------

  /** FauxItemComparator.compare, reached through FauxWrapperComparator: the
      lowercased names, then the lowercased ids. */
  function FauxCompare(c: FauxComparator, a: FauxObject, b: FauxObject): (r: int)
    ensures r == 0 <==> Lower(a.payload.name) == Lower(b.payload.name) && Lower(a.payload.id) == Lower(b.payload.id)
    ensures Lower(a.payload.name) != Lower(b.payload.name) ==> r == JavaCompare(Lower(a.payload.name), Lower(b.payload.name))
  {
    var i := JavaCompare(Lower(a.payload.name), Lower(b.payload.name));
    JavaCompareZero(Lower(a.payload.name), Lower(b.payload.name));
    if i != 0 then i
    else
      JavaCompareZero(Lower(a.payload.id), Lower(b.payload.id));
      JavaCompare(Lower(a.payload.id), Lower(b.payload.id))
  }

  lemma FauxCompareFlip(c: FauxComparator, a: FauxObject, b: FauxObject)
    ensures FauxCompare(c, a, b) < 0 <==> FauxCompare(c, b, a) > 0
  {
    JavaCompareFlip(Lower(a.payload.name), Lower(b.payload.name));
    JavaCompareFlip(Lower(a.payload.id), Lower(b.payload.id));
  }

  lemma FauxCompareTrans(c: FauxComparator, a: FauxObject, b: FauxObject, d: FauxObject)
    requires FauxCompare(c, a, b) <= 0 && FauxCompare(c, b, d) <= 0
    ensures FauxCompare(c, a, d) <= 0
  {
    var na, nb, nd := Lower(a.payload.name), Lower(b.payload.name), Lower(d.payload.name);
    var ia, ib, id := Lower(a.payload.id), Lower(b.payload.id), Lower(d.payload.id);
    JavaCompareZero(na, nb);
    JavaCompareZero(nb, nd);
    JavaCompareZero(na, nd);
    JavaCompareTrans(na, nb, nd);
    if na == nb && nb == nd {
      JavaCompareTrans(ia, ib, id);
    } else if na == nd {
      JavaCompareFlip(na, nb);
    }
  }

  /** The sample comparator orders any records whose objects supply it: the
      matcher can be built over them. */
  lemma FauxOrderIsComparator(rs: seq<FauxRecord>)
    requires forall r :: r in rs ==> r.obj.comparator.Some?
    ensures ComparatorOn(ResultOrder(FauxCompare), rs)
  {
    var cmp := ResultOrder(FauxCompare);
    forall a, b | a in rs && b in rs ensures cmp(a, b) < 0 <==> cmp(b, a) > 0 {
      FauxCompareFlip(FauxWrapperComparator, a.obj, b.obj);
    }
    forall a, b, d | a in rs && b in rs && d in rs && cmp(a, b) <= 0 && cmp(b, d) <= 0 ensures cmp(a, d) <= 0 {
      FauxCompareTrans(FauxWrapperComparator, a.obj, b.obj, d.obj);
    }
  }

  // ---------------------------------------------------------------------------
  // The records
  // ---------------------------------------------------------------------------

  /** The vocabulary slot of object j's term; its synonyms take the slots after
      it, and Base(10) is the number of records. */
  function Base(j: nat): (b: nat)
    requires j <= 10
    ensures b <= 23
  {
    [0, 3, 5, 7, 9, 10, 13, 15, 18, 21, 23][j]
  }

  /** The object whose term or synonym fills slot k. */
  function Owner(k: nat): (j: nat)
    requires k < 23
    ensures j < 10 && Base(j) <= k < Base(j + 1)
  {
    if k < 3 then 0 else if k < 5 then 1 else if k < 7 then 2 else if k < 9 then 3
    else if k < 10 then 4 else if k < 13 then 5 else if k < 15 then 6 else if k < 18 then 7
    else if k < 21 then 8 else 9
  }

  /** Object o, listed j-th, has the term and synonyms of slots Base(j) to Base(j + 1) - 1. */
  predicate Phrases(o: FauxObject, j: nat)
    requires j < 10
  {
    && o.term == Some(Join(Vocabulary()[Base(j)]))
    && |o.synonyms| == Base(j + 1) - Base(j) - 1
    && forall t :: 0 <= t < |o.synonyms| ==> o.synonyms[t] == Join(Vocabulary()[Base(j) + 1 + t])
  }

  /** Ten distinct objects, object j with a term and Base(j + 1) - Base(j) - 1
      synonyms: the counting proofs below use only this layout. */
  predicate Laid(objs: seq<FauxObject>) {
    && |objs| == 10
    && (forall j :: 0 <= j < 10 ==> objs[j].term.Some? && |objs[j].synonyms| == Base(j + 1) - Base(j) - 1)
    && (forall a, b :: 0 <= a < b < 10 ==> objs[a] != objs[b])
  }

  /** The string of slot k: its owner's term or one of its synonyms. */
  function Phrase(objs: seq<FauxObject>, k: nat): string
    requires Laid(objs) && k < 23
  {
    var j := Owner(k);
    if k == Base(j) then objs[j].term.value else objs[j].synonyms[k - Base(j) - 1]
  }

  /** The record of slot k: the term of its owner at the owner's base slot, a
      synonym after it. */
  function Slot(objs: seq<FauxObject>, k: nat): (r: FauxRecord)
    requires Laid(objs) && k < 23
    ensures r.obj == objs[Owner(k)] && r.isTerm == (k == Base(Owner(k)))
  {
    var j := Owner(k);
    NewResult(objs[j], k == Base(j), Phrase(objs, k))
  }

  /** The slot strings are the sample vocabulary. */
  predicate Worded(objs: seq<FauxObject>)
    requires Laid(objs)
  {
    forall k :: 0 <= k < 23 ==> Phrase(objs, k) == Join(Vocabulary()[k])
  }

  /** Laid out like the sample and worded like it. */
  predicate Shaped(objs: seq<FauxObject>) {
    Laid(objs) && Worded(objs)
  }

  lemma PhrasesShaped(objs: seq<FauxObject>)
    requires |objs| == 10 && forall j :: 0 <= j < 10 ==> Phrases(objs[j], j)
    requires forall a, b :: 0 <= a < b < 10 ==> objs[a] != objs[b]
    ensures Shaped(objs)
  {
    assert Laid(objs);
    forall k | 0 <= k < 23 ensures Phrase(objs, k) == Join(Vocabulary()[k]) {
      var j := Owner(k);
      PhraseOfSlot(objs, j, k);
    }
  }

  lemma PhraseOfSlot(objs: seq<FauxObject>, j: nat, k: nat)
    requires Laid(objs) && j < 10 && Base(j) <= k < Base(j + 1) && Phrases(objs[j], j)
    ensures Phrase(objs, k) == Join(Vocabulary()[k])
  {
    OwnerOf(j, k);
    if k != Base(j) {
      var t := k - Base(j) - 1;
      assert Phrase(objs, k) == objs[j].synonyms[t];
    }
  }

  lemma HousePhrases()
    ensures Phrases(SampleObjects()[0], 0)
  {
    HouseItem();
    HouseWords();
  }

  lemma HouseItem()
    ensures SampleObjects()[0].term == Some("house") && SampleObjects()[0].synonyms == ["home", "domicile"]
  {
  }

  lemma HouseWords()
    ensures Join(Vocabulary()[0]) == "house" && Join(Vocabulary()[1]) == "home" && Join(Vocabulary()[2]) == "domicile"
  {
    var v := Vocabulary();
    assert v[0] == ["house"] && v[1] == ["home"] && v[2] == ["domicile"];
  }

  lemma RoofPhrases()
    ensures Phrases(SampleObjects()[1], 1)
  {
    RoofItem();
    RoofWords();
  }

  lemma RoofItem()
    ensures SampleObjects()[1].term == Some("roof") && SampleObjects()[1].synonyms == ["housetop"]
  {
  }

  lemma RoofWords()
    ensures Join(Vocabulary()[3]) == "roof" && Join(Vocabulary()[4]) == "housetop"
  {
    var v := Vocabulary();
    assert v[3] == ["roof"] && v[4] == ["housetop"];
  }

  lemma ChimneyPhrases()
    ensures Phrases(SampleObjects()[2], 2)
  {
    ChimneyItem();
    ChimneyWords();
  }

  lemma ChimneyItem()
    ensures SampleObjects()[2].term == Some("chimney") && SampleObjects()[2].synonyms == ["smokestack"]
  {
  }

  lemma ChimneyWords()
    ensures Join(Vocabulary()[5]) == "chimney" && Join(Vocabulary()[6]) == "smokestack"
  {
    var v := Vocabulary();
    assert v[5] == ["chimney"] && v[6] == ["smokestack"];
  }

  lemma LivingRoomPhrases()
    ensures Phrases(SampleObjects()[3], 3)
  {
    LivingRoomItem();
    LivingRoomWords();
  }

  lemma LivingRoomItem()
    ensures SampleObjects()[3].term == Some("living room") && SampleObjects()[3].synonyms == ["family room"]
  {
  }

  lemma LivingRoomWords()
    ensures Join(Vocabulary()[7]) == "living room" && Join(Vocabulary()[8]) == "family room"
  {
    var v := Vocabulary();
    assert v[7] == ["living", "room"] && v[8] == ["family", "room"];
    assert ["living", "room"][1..] == ["room"];
    assert ["family", "room"][1..] == ["room"];
  }

  lemma KitchenPhrases()
    ensures Phrases(SampleObjects()[4], 4)
  {
    KitchenItem();
    KitchenWords();
  }

  lemma KitchenItem()
    ensures SampleObjects()[4].term == Some("kitchen") && SampleObjects()[4].synonyms == []
  {
  }

  lemma KitchenWords()
    ensures Join(Vocabulary()[9]) == "kitchen"
  {
    var v := Vocabulary();
    assert v[9] == ["kitchen"];
  }

  lemma BathroomPhrases()
    ensures Phrases(SampleObjects()[5], 5)
  {
    BathroomItem();
    BathroomWords();
  }

  lemma BathroomItem()
    ensures SampleObjects()[5].term == Some("bathroom") && SampleObjects()[5].synonyms == ["washroom", "loo"]
  {
  }

  lemma BathroomWords()
    ensures Join(Vocabulary()[10]) == "bathroom" && Join(Vocabulary()[11]) == "washroom" && Join(Vocabulary()[12]) == "loo"
  {
    var v := Vocabulary();
    assert v[10] == ["bathroom"] && v[11] == ["washroom"] && v[12] == ["loo"];
  }

  lemma CellarPhrases()
    ensures Phrases(SampleObjects()[6], 6)
  {
    CellarItem();
    CellarWords();
  }

  lemma CellarItem()
    ensures SampleObjects()[6].term == Some("cellar") && SampleObjects()[6].synonyms == ["basement"]
  {
  }

  lemma CellarWords()
    ensures Join(Vocabulary()[13]) == "cellar" && Join(Vocabulary()[14]) == "basement"
  {
    var v := Vocabulary();
    assert v[13] == ["cellar"] && v[14] == ["basement"];
  }

  lemma RoofingPhrases()
    ensures Phrases(SampleObjects()[7], 7)
  {
    RoofingItem();
    RoofingWords();
  }

  lemma RoofingItem()
    ensures SampleObjects()[7].term == Some("roofing material") && SampleObjects()[7].synonyms == ["shingle", "slate"]
  {
  }

  lemma RoofingWords()
    ensures Join(Vocabulary()[15]) == "roofing material" && Join(Vocabulary()[16]) == "shingle" && Join(Vocabulary()[17]) == "slate"
  {
    var v := Vocabulary();
    assert v[15] == ["roofing", "material"] && v[16] == ["shingle"] && v[17] == ["slate"];
    assert ["roofing", "material"][1..] == ["material"];
  }

  lemma DwellerPhrases()
    ensures Phrases(SampleObjects()[8], 8)
  {
    DwellerItem();
    DwellerWords();
  }

  lemma DwellerItem()
    ensures SampleObjects()[8].term == Some("cellar dweller") && SampleObjects()[8].synonyms == ["mouse", "rat"]
  {
  }

  lemma DwellerWords()
    ensures Join(Vocabulary()[18]) == "cellar dweller" && Join(Vocabulary()[19]) == "mouse" && Join(Vocabulary()[20]) == "rat"
  {
    var v := Vocabulary();
    assert v[18] == ["cellar", "dweller"] && v[19] == ["mouse"] && v[20] == ["rat"];
    assert ["cellar", "dweller"][1..] == ["dweller"];
  }

  lemma CupboardPhrases()
    ensures Phrases(SampleObjects()[9], 9)
  {
    CupboardItem();
    CupboardWords();
  }

  lemma CupboardItem()
    ensures SampleObjects()[9].term == Some("cupboard") && SampleObjects()[9].synonyms == ["kitchen cabinet"]
  {
  }

  lemma CupboardWords()
    ensures Join(Vocabulary()[21]) == "cupboard" && Join(Vocabulary()[22]) == "kitchen cabinet"
  {
    var v := Vocabulary();
    assert v[21] == ["cupboard"] && v[22] == ["kitchen", "cabinet"];
    assert ["kitchen", "cabinet"][1..] == ["cabinet"];
  }

  lemma SampleObjectsDistinct(a: nat, b: nat)
    requires a < b < 10
    ensures SampleObjects()[a] != SampleObjects()[b]
  {
    assert SampleObjects()[a].payload.id != SampleObjects()[b].payload.id;
  }

  /** The ten items are laid out as the slots say. */
  lemma SampleShaped()
    ensures Shaped(SampleObjects())
  {
    var objs := SampleObjects();
    HousePhrases();
    RoofPhrases();
    ChimneyPhrases();
    LivingRoomPhrases();
    KitchenPhrases();
    BathroomPhrases();
    CellarPhrases();
    RoofingPhrases();
    DwellerPhrases();
    CupboardPhrases();
    forall a, b | 0 <= a < b < 10 ensures objs[a] != objs[b] {
      SampleObjectsDistinct(a, b);
    }
    PhrasesShaped(objs);
  }

  lemma OwnerOf(j: nat, k: nat)
    requires j < 10 && Base(j) <= k < Base(j + 1)
    ensures Owner(k) == j
  {
  }

  /** The term record of object j is the record of its base slot. */
  lemma TermSlot(objs: seq<FauxObject>, j: nat)
    requires Laid(objs) && j < 10
    ensures TermRecords(objs[j]) == [Slot(objs, Base(j))]
  {
    OwnerOf(j, Base(j));
  }

  /** Slot k after object j's base slot holds synonym record k - Base(j) - 1 of j. */
  lemma SynonymSlot(objs: seq<FauxObject>, j: nat, k: nat)
    requires Laid(objs) && j < 10 && Base(j) < k < Base(j + 1)
    ensures k - Base(j) - 1 < |SynonymRecords(objs[j])|
    ensures SynonymRecords(objs[j])[k - Base(j) - 1] == Slot(objs, k)
  {
    OwnerOf(j, k);
    var t := k - Base(j) - 1;
    assert Phrase(objs, k) == objs[j].synonyms[t];
    assert Slot(objs, k) == NewResult(objs[j], false, objs[j].synonyms[t]);
  }

  lemma OwnLength(objs: seq<FauxObject>, j: nat)
    requires Laid(objs) && j < 10
    ensures |OwnRecords(objs[j])| == Base(j + 1) - Base(j)
  {
  }

  /** Record t of object j is the record of slot Base(j) + t. */
  lemma RowSlot(objs: seq<FauxObject>, j: nat, t: nat)
    requires Laid(objs) && j < 10 && t < Base(j + 1) - Base(j)
    ensures |OwnRecords(objs[j])| == Base(j + 1) - Base(j)
    ensures OwnRecords(objs[j])[t] == Slot(objs, Base(j) + t)
  {
    OwnLength(objs, j);
    if t == 0 {
      TermRow(objs, j);
    } else {
      SynonymRow(objs, j, t);
    }
  }

  lemma TermRow(objs: seq<FauxObject>, j: nat)
    requires Laid(objs) && j < 10
    ensures OwnRecords(objs[j])[0] == Slot(objs, Base(j))
  {
    TermSlot(objs, j);
  }

  lemma SynonymRow(objs: seq<FauxObject>, j: nat, t: nat)
    requires Laid(objs) && j < 10 && 0 < t < Base(j + 1) - Base(j)
    ensures OwnRecords(objs[j])[t] == Slot(objs, Base(j) + t)
  {
    SynonymSlot(objs, j, Base(j) + t);
    AfterTerm(objs[j], t);
  }

  /** After the term record come the synonym records. */
  lemma AfterTerm<T, C>(o: IndexedObject<T, C>, t: nat)
    requires o.term.Some? && 0 < t <= |o.synonyms|
    ensures OwnRecords(o)[t] == SynonymRecords(o)[t - 1]
  {
  }

  /** Every record of the sample is the record of some slot. */
  lemma SampleRecord(objs: seq<FauxObject>, x: FauxRecord)
    requires Laid(objs) && x in Denormalize(objs, false)
    ensures exists k :: 0 <= k < 23 && x == Slot(objs, k)
  {
    PlainMember(objs, x);
    var j :| 0 <= j < 10 && objs[j] == x.obj;
    OwnLength(objs, j);
    var t :| 0 <= t < |OwnRecords(x.obj)| && OwnRecords(x.obj)[t] == x;
    RowSlot(objs, j, t);
  }

  /** An element found at one index only occurs once. */
  lemma {:induction false} CountOne<X>(s: seq<X>, k: nat)
    requires k < |s| && forall j :: 0 <= j < |s| && j != k ==> s[j] != s[k]
    ensures multiset(s)[s[k]] == 1
  {
    var x := s[k];
    var n := |s| - 1;
    assert s == s[..n] + [s[n]];
    if k < n {
      CountOne(s[..n], k);
    } else {
      assert x !in s[..n];
    }
  }

  /** A record of object j occurs in the sample as often as among j's own records. */
  lemma CountInSample(objs: seq<FauxObject>, x: FauxRecord, j: nat)
    requires Laid(objs) && j < 10 && x.obj == objs[j]
    ensures multiset(Denormalize(objs, false))[x] == multiset(OwnRecords(objs[j]))[x]
  {
    PlainCount(objs, x);
  }

  /** A slot record that differs from every other slot's occurs once in the sample. */
  lemma SlotOnce(objs: seq<FauxObject>, k: nat)
    requires Laid(objs) && k < 23
    requires forall l :: 0 <= l < 23 && l != k ==> Slot(objs, l) != Slot(objs, k)
    ensures multiset(Denormalize(objs, false))[Slot(objs, k)] == 1
  {
    RowOnce(objs, k);
    CountInSample(objs, Slot(objs, k), Owner(k));
  }

  /** Such a record occurs once among its owner's records. */
  lemma RowOnce(objs: seq<FauxObject>, k: nat)
    requires Laid(objs) && k < 23
    requires forall l :: 0 <= l < 23 && l != k ==> Slot(objs, l) != Slot(objs, k)
    ensures multiset(OwnRecords(objs[Owner(k)]))[Slot(objs, k)] == 1
  {
    RowDistinct(objs, k);
    OnceIn(OwnRecords(objs[Owner(k)]), Slot(objs, k), k - Base(Owner(k)));
  }

  /** An element found at index i and nowhere else occurs once. */
  lemma OnceIn<X>(s: seq<X>, x: X, i: nat)
    requires i < |s| && s[i] == x && forall t :: 0 <= t < |s| && t != i ==> s[t] != x
    ensures multiset(s)[x] == 1
  {
    CountOne(s, i);
  }

  /** Within its owner's records, a slot record that differs from every other
      slot's differs from the owner's other records. */
  lemma RowDistinct(objs: seq<FauxObject>, k: nat)
    requires Laid(objs) && k < 23
    requires forall l :: 0 <= l < 23 && l != k ==> Slot(objs, l) != Slot(objs, k)
    ensures k - Base(Owner(k)) < |OwnRecords(objs[Owner(k)])|
    ensures OwnRecords(objs[Owner(k)])[k - Base(Owner(k))] == Slot(objs, k)
    ensures forall t :: 0 <= t < |OwnRecords(objs[Owner(k)])| && t != k - Base(Owner(k)) ==>
      OwnRecords(objs[Owner(k)])[t] != Slot(objs, k)
  {
    var j := Owner(k);
    RowsAreSlots(objs, j);
    forall t | 0 <= t < |OwnRecords(objs[j])| && t != k - Base(j) ensures OwnRecords(objs[j])[t] != Slot(objs, k) {
      assert OwnRecords(objs[j])[t] == Slot(objs, Base(j) + t);
    }
  }

  /** The records of object j are the records of its slots, in order. */
  lemma RowsAreSlots(objs: seq<FauxObject>, j: nat)
    requires Laid(objs) && j < 10
    ensures |OwnRecords(objs[j])| == Base(j + 1) - Base(j)
    ensures forall t :: 0 <= t < Base(j + 1) - Base(j) ==> OwnRecords(objs[j])[t] == Slot(objs, Base(j) + t)
  {
    OwnLength(objs, j);
    forall t | 0 <= t < Base(j + 1) - Base(j) ensures OwnRecords(objs[j])[t] == Slot(objs, Base(j) + t) {
      RowSlot(objs, j, t);
    }
  }

  /** The tokens of slot k's record are the slot's vocabulary words. */
  lemma SlotTokens(objs: seq<FauxObject>, k: nat)
    requires Shaped(objs) && k < 23
    ensures Slot(objs, k).tokens == Vocabulary()[k]
  {
    assert Phrase(objs, k) == Join(Vocabulary()[k]);
    VocabularyProper(k);
    TokenizeJoin(Vocabulary()[k]);
  }

  // ---------------------------------------------------------------------------
  // The test queries against the slots
  // ---------------------------------------------------------------------------

  /** The match code of slot k's record for query q. */
  function SlotCode(objs: seq<FauxObject>, q: string, k: nat): int
    requires Laid(objs) && k < 23
  {
    MatchType(Slot(objs, k), Lower(q), Tokenize(q))
  }

  lemma ChimneySlot(objs: seq<FauxObject>, k: nat)
    requires Shaped(objs) && k < 23
    ensures SlotCode(objs, "chimney", k) != NO_MATCH <==> k == 5
  {
    var j := Owner(k);
    assert Phrase(objs, k) == Join(Vocabulary()[k]);
    ChimneyMatches(objs[j], k == Base(j), k);
  }

  lemma HouseSlot(objs: seq<FauxObject>, k: nat)
    requires Shaped(objs) && k < 23
    ensures SlotCode(objs, "house", k) != NO_MATCH <==> k == 0 || k == 4
  {
    var j := Owner(k);
    assert Phrase(objs, k) == Join(Vocabulary()[k]);
    HouseMatches(objs[j], k == Base(j), k);
  }

  lemma HousetopSlot(objs: seq<FauxObject>, k: nat)
    requires Shaped(objs) && k < 23
    ensures SlotCode(objs, "housetop", k) != NO_MATCH <==> k == 4
  {
    var j := Owner(k);
    assert Phrase(objs, k) == Join(Vocabulary()[k]);
    HousetopMatches(objs[j], k == Base(j), k);
  }

  lemma MortgageSlot(objs: seq<FauxObject>, k: nat)
    requires Shaped(objs) && k < 23
    ensures SlotCode(objs, "mortgage", k) == NO_MATCH
  {
    var j := Owner(k);
    assert Phrase(objs, k) == Join(Vocabulary()[k]);
    MortgageMatches(objs[j], k == Base(j), k);
  }

  /** Of the two "house" matches the term is exact and the synonym only a prefix
      match; "housetop" matches that synonym exactly. */
  lemma HouseSlots(objs: seq<FauxObject>)
    requires Shaped(objs)
    ensures SlotCode(objs, "house", 0) == EXACT_TERM_MATCH
    ensures SlotCode(objs, "house", 4) == BEGINS_SYNONYM_MATCH
    ensures SlotCode(objs, "housetop", 4) == EXACT_SYNONYM_MATCH
  {
    assert Vocabulary()[0] == ["house"] && Vocabulary()[4] == ["housetop"];
    assert Owner(4) == 1 && Base(1) == 3;
    assert Phrase(objs, 0) == Join(Vocabulary()[0]) && Phrase(objs, 4) == Join(Vocabulary()[4]);
    HouseRanking(objs[0], objs[1]);
  }

  lemma ChimneyOnly(objs: seq<FauxObject>)
    requires Shaped(objs)
    ensures forall l :: 0 <= l < 23 ==> (SlotCode(objs, "chimney", l) != NO_MATCH <==> l == 5)
  {
    forall l | 0 <= l < 23 ensures SlotCode(objs, "chimney", l) != NO_MATCH <==> l == 5 {
      ChimneySlot(objs, l);
    }
  }

  lemma HouseOnly(objs: seq<FauxObject>)
    requires Shaped(objs)
    ensures forall l :: 0 <= l < 23 && l != 0 && l != 4 ==> SlotCode(objs, "house", l) == NO_MATCH
  {
    forall l | 0 <= l < 23 && l != 0 && l != 4 ensures SlotCode(objs, "house", l) == NO_MATCH {
      HouseSlot(objs, l);
    }
  }

  lemma HousetopOnly(objs: seq<FauxObject>)
    requires Shaped(objs)
    ensures forall l :: 0 <= l < 23 ==> (SlotCode(objs, "housetop", l) != NO_MATCH <==> l == 4)
  {
    forall l | 0 <= l < 23 ensures SlotCode(objs, "housetop", l) != NO_MATCH <==> l == 4 {
      HousetopSlot(objs, l);
    }
  }

  lemma MortgageNowhere(objs: seq<FauxObject>)
    requires Shaped(objs)
    ensures forall l :: 0 <= l < 23 ==> SlotCode(objs, "mortgage", l) == NO_MATCH
  {
    forall l | 0 <= l < 23 ensures SlotCode(objs, "mortgage", l) == NO_MATCH {
      MortgageSlot(objs, l);
    }
  }

  // ---------------------------------------------------------------------------
  // Matchers built from the sample
  // ---------------------------------------------------------------------------

  /** Building over wrapped objects: each supplies the sample comparator. */
  function Populate(objs: seq<FauxObject>): (m: Matcher<FauxItem, FauxComparator>)
    requires forall o :: o in objs ==> o.comparator.Some?
    ensures Valid(m) && SearchReady(m)
    ensures multiset(m.records) == multiset(Denormalize(objs, false))
  {
    forall x | x in Denormalize(objs, false) ensures x.obj.comparator.Some? {
      PlainMember(objs, x);
    }
    FauxOrderIsComparator(Denormalize(objs, false));
    NewMatcher(objs, FauxCompare)
  }

  /** A matcher whose records are the records of objs in some order, with
      indexes built over them. */
  ghost predicate BuiltFrom(m: Matcher<FauxItem, FauxComparator>, objs: seq<FauxObject>) {
    && Valid(m) && SearchReady(m)
    && multiset(m.records) == multiset(Denormalize(objs, false))
  }

  /** getPopulatedITM: the matcher built, in plain mode, from the ten items. */
  function PopulatedMatcher(): (m: Matcher<FauxItem, FauxComparator>)
    ensures BuiltFrom(m, SampleObjects())
  {
    SampleComparators();
    Populate(SampleObjects())
  }

  /** Every sample wrapper supplies the comparator. */
  lemma SampleComparators()
    ensures forall o :: o in SampleObjects() ==> o.comparator.Some?
  {
    forall o | o in SampleObjects() ensures o.comparator.Some? {
      var j :| 0 <= j < 10 && SampleObjects()[j] == o;
    }
  }

  /** Every record of such a matcher is a slot's record. */
  lemma RecordSlot(m: Matcher<FauxItem, FauxComparator>, objs: seq<FauxObject>, i: nat)
    requires BuiltFrom(m, objs) && Laid(objs) && i < |m.records|
    ensures exists k :: 0 <= k < 23 && m.records[i] == Slot(objs, k)
  {
    assert m.records[i] in multiset(m.records);
    SampleRecord(objs, m.records[i]);
  }

  /** An element held at two positions occurs at least twice. */
  lemma TwoCount<X>(s: seq<X>, lo: nat, hi: nat)
    requires lo < hi < |s| && s[lo] == s[hi]
    ensures multiset(s)[s[lo]] >= 2
  {
    assert s == s[..hi] + s[hi..];
    assert s[..hi][lo] == s[lo];
    assert s[hi..][0] == s[lo];
  }

  /** Two positions holding an element that occurs once are the same. */
  lemma CountOneAt<X>(s: seq<X>, a: nat, b: nat)
    requires a < |s| && b < |s| && s[a] == s[b] && multiset(s)[s[a]] == 1
    ensures a == b
  {
    if a < b {
      TwoCount(s, a, b);
    } else if b < a {
      TwoCount(s, b, a);
    }
  }

  /** An element that occurs once sits at exactly one position. */
  lemma OncePosition<X>(s: seq<X>, x: X) returns (i: nat)
    requires multiset(s)[x] == 1
    ensures i < |s| && s[i] == x
    ensures forall p :: 0 <= p < |s| && s[p] == x ==> p == i
  {
    assert x in multiset(s);
    i :| 0 <= i < |s| && s[i] == x;
    forall p | 0 <= p < |s| && s[p] == x ensures p == i {
      CountOneAt(s, i, p);
    }
  }

  /** A slot record unlike every other slot's sits at exactly one position. */
  lemma SlotPosition(m: Matcher<FauxItem, FauxComparator>, objs: seq<FauxObject>, k: nat) returns (i: nat)
    requires BuiltFrom(m, objs) && Laid(objs) && k < 23
    requires forall l :: 0 <= l < 23 && l != k ==> Slot(objs, l) != Slot(objs, k)
    ensures i < |m.records| && m.records[i] == Slot(objs, k)
    ensures forall p :: 0 <= p < |m.records| && m.records[p] == Slot(objs, k) ==> p == i
  {
    SlotOnce(objs, k);
    i := OncePosition(m.records, Slot(objs, k));
  }

  /** The words of one phrase have different three-character keys. */
  predicate KeysDiffer(ws: seq<string>) {
    forall a, b :: 0 <= a < b < |ws| && ws[a] != [] && ws[b] != [] ==> Key(ws[a]) != Key(ws[b])
  }

  lemma PairKeys(w: string, v: string)
    requires |w| >= 3 && |v| >= 3 && w[0] != v[0]
    ensures KeysDiffer([w, v])
  {
    assert Key(w)[0] == w[0] && Key(v)[0] == v[0];
  }

  lemma SlotKeys(k: nat)
    requires k < 23
    ensures KeysDiffer(Vocabulary()[k])
  {
    var ws := Vocabulary()[k];
    if k == 7 {
      PairKeys("living", "room");
    } else if k == 8 {
      PairKeys("family", "room");
    } else if k == 15 {
      PairKeys("roofing", "material");
    } else if k == 18 {
      PairKeys("cellar", "dweller");
    } else if k == 22 {
      PairKeys("kitchen", "cabinet");
    } else {
      assert |ws| == 1;
    }
  }

  /** The sample's records repeat no key within one record, so search scans each
      candidate once. */
  lemma SampleKeys(m: Matcher<FauxItem, FauxComparator>, objs: seq<FauxObject>)
    requires BuiltFrom(m, objs) && Shaped(objs)
    ensures DistinctKeys(TokenLists(m.records))
  {
    var tls := TokenLists(m.records);
    forall i | 0 <= i < |tls| ensures KeysDiffer(tls[i]) {
      RecordSlot(m, objs, i);
      var k :| 0 <= k < 23 && m.records[i] == Slot(objs, k);
      SlotTokens(objs, k);
      SlotKeys(k);
    }
  }

  // ---------------------------------------------------------------------------
  // The unit tests
  // ---------------------------------------------------------------------------

  /** A lowercase word query has a character the tokenizer keeps. */
  lemma WordQueryHasWord(q: string)
    requires q != [] && AllAlnum(q) && NoUpper(q)
    ensures !NoAlnum(Lower(q))
  {
    LowerFixed(q);
    assert IsAlnum(Lower(q)[0]);
  }

  /** Each test query has a character the tokenizer keeps. */
  lemma TestQueriesHaveWords()
    ensures !NoAlnum(Lower("chimney")) && !NoAlnum(Lower("house"))
    ensures !NoAlnum(Lower("housetop")) && !NoAlnum(Lower("mortgage"))
  {
    WordQueryHasWord("chimney");
    WordQueryHasWord("house");
    WordQueryHasWord("housetop");
    WordQueryHasWord("mortgage");
  }

  /** A position's match code is its slot's. */
  lemma SlotAt(m: Matcher<FauxItem, FauxComparator>, objs: seq<FauxObject>, q: string, p: nat) returns (k: nat)
    requires BuiltFrom(m, objs) && Laid(objs) && p < |m.records|
    ensures k < 23 && m.records[p] == Slot(objs, k) && Code(m, q, p) == SlotCode(objs, q, k)
  {
    RecordSlot(m, objs, p);
    k :| 0 <= k < 23 && m.records[p] == Slot(objs, k);
  }

  lemma CodeOfSlot(m: Matcher<FauxItem, FauxComparator>, objs: seq<FauxObject>, q: string, p: nat, k: nat)
    requires Laid(objs) && p < |m.records| && k < 23 && m.records[p] == Slot(objs, k)
    ensures Code(m, q, p) == SlotCode(objs, q, k)
  {
  }

  /** Slots whose codes for some query differ hold different records. */
  lemma CodesSeparate(objs: seq<FauxObject>, q: string, k: nat)
    requires Laid(objs) && k < 23
    requires forall l :: 0 <= l < 23 && l != k ==> SlotCode(objs, q, l) != SlotCode(objs, q, k)
    ensures forall l :: 0 <= l < 23 && l != k ==> Slot(objs, l) != Slot(objs, k)
  {
    forall l | 0 <= l < 23 && l != k ensures Slot(objs, l) != Slot(objs, k) {
      if Slot(objs, l) == Slot(objs, k) {
        CodeEqual(objs, q, l, k);
      }
    }
  }

  lemma CodeEqual(objs: seq<FauxObject>, q: string, l: nat, k: nat)
    requires Laid(objs) && l < 23 && k < 23 && Slot(objs, l) == Slot(objs, k)
    ensures SlotCode(objs, q, l) == SlotCode(objs, q, k)
  {
  }

  /** A query that only slot k matches finds that slot's one position. */
  lemma SingleHit(m: Matcher<FauxItem, FauxComparator>, objs: seq<FauxObject>, q: string, k: nat) returns (i: nat)
    requires BuiltFrom(m, objs) && Shaped(objs) && k < 23 && !NoAlnum(Lower(q))
    requires forall l :: 0 <= l < 23 ==> (SlotCode(objs, q, l) != NO_MATCH <==> l == k)
    ensures i < |m.records| && m.records[i] == Slot(objs, k)
    ensures SearchPositions(m, q, 200) == Success([i])
  {
    CodesSeparate(objs, q, k);
    i := SlotPosition(m, objs, k);
    CodeOfSlot(m, objs, q, i, k);
    forall p | 0 <= p < |m.records| && p != i ensures Code(m, q, p) == NO_MATCH {
      var l := SlotAt(m, objs, q, p);
    }
    FullScanSingle(m, q, i);
    SampleKeys(m, objs);
    SearchIsFullScan(m, q, 200);
  }

  /** A query that only slots k1 and k2 match, k1 with the better code, finds
      their two positions in that order. */
  lemma PairHit(m: Matcher<FauxItem, FauxComparator>, objs: seq<FauxObject>, q: string, k1: nat, k2: nat)
    returns (i1: nat, i2: nat)
    requires BuiltFrom(m, objs) && Shaped(objs) && k1 < 23 && k2 < 23 && !NoAlnum(Lower(q))
    requires NO_MATCH < SlotCode(objs, q, k1) < SlotCode(objs, q, k2)
    requires forall l :: 0 <= l < 23 && l != k1 && l != k2 ==> SlotCode(objs, q, l) == NO_MATCH
    ensures i1 < |m.records| && m.records[i1] == Slot(objs, k1)
    ensures i2 < |m.records| && m.records[i2] == Slot(objs, k2)
    ensures SearchPositions(m, q, 200) == Success([i1, i2])
  {
    CodesSeparate(objs, q, k1);
    CodesSeparate(objs, q, k2);
    i1 := SlotPosition(m, objs, k1);
    i2 := SlotPosition(m, objs, k2);
    CodeOfSlot(m, objs, q, i1, k1);
    CodeOfSlot(m, objs, q, i2, k2);
    forall p | 0 <= p < |m.records| && p != i1 && p != i2 ensures Code(m, q, p) == NO_MATCH {
      var l := SlotAt(m, objs, q, p);
      assert l != k1 && l != k2;
    }
    FullScanPair(m, q, i1, i2);
    SampleKeys(m, objs);
    SearchIsFullScan(m, q, 200);
  }

  /** A query no slot matches finds nothing. */
  lemma NoHit(m: Matcher<FauxItem, FauxComparator>, objs: seq<FauxObject>, q: string)
    requires BuiltFrom(m, objs) && Shaped(objs) && !NoAlnum(Lower(q))
    requires forall l :: 0 <= l < 23 ==> SlotCode(objs, q, l) == NO_MATCH
    ensures SearchDefault(m, q) == []
  {
    forall p | 0 <= p < |m.records| ensures Code(m, q, p) == NO_MATCH {
      var k := SlotAt(m, objs, q, p);
    }
    FullScanNone(m, q);
    SampleKeys(m, objs);
    SearchIsFullScan(m, q, 200);
  }

  /** Search for a query only slot k matches returns that slot's record alone. */
  lemma SingleResult(m: Matcher<FauxItem, FauxComparator>, objs: seq<FauxObject>, q: string, k: nat)
    requires BuiltFrom(m, objs) && Shaped(objs) && k < 23 && !NoAlnum(Lower(q))
    requires forall l :: 0 <= l < 23 ==> (SlotCode(objs, q, l) != NO_MATCH <==> l == k)
    ensures |SearchDefault(m, q)| == 1 && SearchDefault(m, q)[0] == Slot(objs, k)
  {
    var i := SingleHit(m, objs, q, k);
    assert SearchDefault(m, q)[0] == m.records[i];
  }

  /** Search for a query only slots k1 and k2 match returns their records, the
      better code first. */
  lemma PairResult(m: Matcher<FauxItem, FauxComparator>, objs: seq<FauxObject>, q: string, k1: nat, k2: nat)
    requires BuiltFrom(m, objs) && Shaped(objs) && k1 < 23 && k2 < 23 && !NoAlnum(Lower(q))
    requires NO_MATCH < SlotCode(objs, q, k1) < SlotCode(objs, q, k2)
    requires forall l :: 0 <= l < 23 && l != k1 && l != k2 ==> SlotCode(objs, q, l) == NO_MATCH
    ensures |SearchDefault(m, q)| == 2
    ensures SearchDefault(m, q)[0] == Slot(objs, k1) && SearchDefault(m, q)[1] == Slot(objs, k2)
  {
    var i1, i2 := PairHit(m, objs, q, k1, k2);
    assert SearchDefault(m, q)[0] == m.records[i1];
    assert SearchDefault(m, q)[1] == m.records[i2];
  }

  lemma ChimneyHit(m: Matcher<FauxItem, FauxComparator>, objs: seq<FauxObject>)
    requires BuiltFrom(m, objs) && Shaped(objs)
    ensures |SearchDefault(m, "chimney")| == 1 && SearchDefault(m, "chimney")[0] == Slot(objs, 5)
  {
    ChimneyOnly(objs);
    TestQueriesHaveWords();
    SingleResult(m, objs, "chimney", 5);
  }

  lemma HouseHits(m: Matcher<FauxItem, FauxComparator>, objs: seq<FauxObject>)
    requires BuiltFrom(m, objs) && Shaped(objs)
    ensures |SearchDefault(m, "house")| == 2
    ensures SearchDefault(m, "house")[0] == Slot(objs, 0) && SearchDefault(m, "house")[1] == Slot(objs, 4)
  {
    HouseOnly(objs);
    HouseSlots(objs);
    TestQueriesHaveWords();
    PairResult(m, objs, "house", 0, 4);
  }

  lemma HousetopHit(m: Matcher<FauxItem, FauxComparator>, objs: seq<FauxObject>)
    requires BuiltFrom(m, objs) && Shaped(objs)
    ensures |SearchDefault(m, "housetop")| == 1 && SearchDefault(m, "housetop")[0] == Slot(objs, 4)
  {
    HousetopOnly(objs);
    TestQueriesHaveWords();
    SingleResult(m, objs, "housetop", 4);
  }

  /** The record of a slot of object j belongs to j, and is its term exactly at j's base slot. */
  lemma SlotOwner(objs: seq<FauxObject>, k: nat, j: nat)
    requires Laid(objs) && j < 10 && Base(j) <= k < Base(j + 1)
    ensures Slot(objs, k).obj == objs[j] && (Slot(objs, k).isTerm <==> k == Base(j))
  {
    OwnerOf(j, k);
  }

  /** "chimney" over any sample-shaped objects: the term of object 2 alone. */
  lemma ChimneyResult(m: Matcher<FauxItem, FauxComparator>, objs: seq<FauxObject>)
    requires BuiltFrom(m, objs) && Shaped(objs)
    ensures |SearchDefault(m, "chimney")| == 1
    ensures SearchDefault(m, "chimney")[0].obj == objs[2] && SearchDefault(m, "chimney")[0].isTerm
  {
    ChimneyHit(m, objs);
    SlotOwner(objs, 5, 2);
  }

  /** "house": the term of object 0, then a synonym of object 1. */
  lemma HouseResult(m: Matcher<FauxItem, FauxComparator>, objs: seq<FauxObject>)
    requires BuiltFrom(m, objs) && Shaped(objs)
    ensures |SearchDefault(m, "house")| == 2
    ensures SearchDefault(m, "house")[0].obj == objs[0] && SearchDefault(m, "house")[0].isTerm
    ensures SearchDefault(m, "house")[1].obj == objs[1] && !SearchDefault(m, "house")[1].isTerm
  {
    HouseHits(m, objs);
    SlotOwner(objs, 0, 0);
    SlotOwner(objs, 4, 1);
  }

  /** "housetop": a synonym of object 1 alone. */
  lemma HousetopResult(m: Matcher<FauxItem, FauxComparator>, objs: seq<FauxObject>)
    requires BuiltFrom(m, objs) && Shaped(objs)
    ensures |SearchDefault(m, "housetop")| == 1
    ensures SearchDefault(m, "housetop")[0].obj == objs[1] && !SearchDefault(m, "housetop")[0].isTerm
  {
    HousetopHit(m, objs);
    SlotOwner(objs, 4, 1);
  }

  /** The items behind the test's expectations. */
  lemma SampleItems()
    ensures SampleObjects()[0].payload.name == "house"
    ensures SampleObjects()[1].payload.synonym1 == Some("housetop")
    ensures SampleObjects()[2].payload.name == "chimney"
  {
  }

  /** IndexedTokenManagerTests.termSingleMatch: "chimney" finds one result, the
      chimney item's term. */
  lemma ChimneySearch(m: Matcher<FauxItem, FauxComparator>)
    requires BuiltFrom(m, SampleObjects())
    ensures |SearchDefault(m, "chimney")| == 1
    ensures SearchDefault(m, "chimney")[0].obj.payload.name == "chimney"
    ensures SearchDefault(m, "chimney")[0].isTerm
  {
    SampleShaped();
    ChimneyResult(m, SampleObjects());
    SampleItems();
  }

  /** termAndSynonymMatch and termAndSynonymOrdering: "house" finds two results,
      the house item's term, then the roof item's synonym "housetop". */
  lemma HouseSearch(m: Matcher<FauxItem, FauxComparator>)
    requires BuiltFrom(m, SampleObjects())
    ensures |SearchDefault(m, "house")| == 2
    ensures SearchDefault(m, "house")[0].obj.payload.name == "house"
    ensures SearchDefault(m, "house")[0].isTerm
    ensures SearchDefault(m, "house")[1].obj.payload.synonym1 == Some("housetop")
    ensures !SearchDefault(m, "house")[1].isTerm
  {
    SampleShaped();
    HouseResult(m, SampleObjects());
    SampleItems();
  }

  /** exactSynonymMatch: "housetop" finds one result, the roof item's synonym. */
  lemma HousetopSearch(m: Matcher<FauxItem, FauxComparator>)
    requires BuiltFrom(m, SampleObjects())
    ensures |SearchDefault(m, "housetop")| == 1
    ensures SearchDefault(m, "housetop")[0].obj.payload.synonym1 == Some("housetop")
    ensures !SearchDefault(m, "housetop")[0].isTerm
  {
    SampleShaped();
    HousetopResult(m, SampleObjects());
    SampleItems();
  }

  /** noMatches: "mortgage" finds nothing. */
  lemma MortgageSearch(m: Matcher<FauxItem, FauxComparator>)
    requires BuiltFrom(m, SampleObjects())
    ensures SearchDefault(m, "mortgage") == []
  {
    SampleShaped();
    MortgageNowhere(SampleObjects());
    TestQueriesHaveWords();
    NoHit(m, SampleObjects(), "mortgage");
  }

  /** asRawObjects over search("chimney") is the chimney item alone. */
  lemma ChimneyRawObjects(m: Matcher<FauxItem, FauxComparator>)
    requires BuiltFrom(m, SampleObjects())
    ensures AsRawObjects(SearchDefault(m, "chimney")) == [FauxItem("id3", "chimney", Some("smokestack"), None)]
  {
    var rs := SearchDefault(m, "chimney");
    SampleShaped();
    ChimneyResult(m, SampleObjects());
    ChimneyPayload();
    SingleRaw(rs, FauxItem("id3", "chimney", Some("smokestack"), None));
  }

  lemma ChimneyPayload()
    ensures SampleObjects()[2].payload == FauxItem("id3", "chimney", Some("smokestack"), None)
  {
  }

  lemma SingleRaw(rs: seq<IndexedResult<FauxItem, FauxComparator>>, t: FauxItem)
    requires |rs| == 1 && rs[0].obj.payload == t
    ensures AsRawObjects(rs) == [t]
  {
    assert AsRawObjects(rs)[0] == t;
  }

  /** asIndexedObjects over search("house"): the house item's wrapper, then the roof item's. */
  lemma HouseObjects(m: Matcher<FauxItem, FauxComparator>)
    requires BuiltFrom(m, SampleObjects())
    ensures AsIndexedObjects(SearchDefault(m, "house")) == [SampleObjects()[0], SampleObjects()[1]]
  {
    var rs := SearchDefault(m, "house");
    SampleShaped();
    HouseResult(m, SampleObjects());
    PairIndexed(rs, SampleObjects()[0], SampleObjects()[1]);
  }

  lemma PairIndexed(rs: seq<IndexedResult<FauxItem, FauxComparator>>, a: FauxObject, b: FauxObject)
    requires |rs| == 2 && rs[0].obj == a && rs[1].obj == b
    ensures AsIndexedObjects(rs) == [a, b]
  {
    assert AsIndexedObjects(rs)[0] == a && AsIndexedObjects(rs)[1] == b;
  }
}
