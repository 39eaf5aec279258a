module Scenarios {
  import opened Tokenizer
  import opened MatchRecord

  // ---------------------------------------------------------------------------
  // The tokenizer examples of ITMUtilsTests
  // ---------------------------------------------------------------------------

  lemma NoUpperAppend(a: string, b: string)
    requires NoUpper(a) && NoUpper(b)
    ensures NoUpper(a + b)
  {
    var s := a + b;
    forall i | 0 <= i < |s| ensures !('A' <= s[i] <= 'Z') {
      if i < |a| {
        assert s[i] == a[i];
      } else {
        assert s[i] == b[i - |a|];
      }
    }
  }

  /** Lowercase text holding a word tokenizes to its words. */
  lemma TokenizeLowercase(s: string)
    requires NoUpper(s) && Words(s) != []
    ensures Tokenize(s) == Words(s)
  {
    LowerFixed(s);
    WordsEmptyIff(s);
  }

  /** A single word is lowercase text with that word as its only run. */
  lemma OneWordText(w: string)
    requires w != [] && AllAlnum(w)
    ensures NoUpper(w) && Words(w) == [w]
  {
    WordsOfWord(w);
  }

  /** Appending a separator and a word to lowercase text appends the word to its runs. */
  lemma WordsSnoc(a: string, sep: string, w: string)
    requires NoUpper(a) && sep != [] && NoAlnum(sep) && NoUpper(sep)
    requires w != [] && AllAlnum(w)
    ensures NoUpper(a + sep + w) && Words(a + sep + w) == Words(a) + [w]
  {
    OneWordText(w);
    NoUpperAppend(a, sep);
    NoUpperAppend(a + sep, w);
    WordsAroundSeparator(a, sep, w);
  }

  /** Joined tokens are lowercase and split back into the same words. */
  lemma JoinedWords(ts: seq<string>)
    requires ProperTokens(ts)
    ensures NoUpper(Join(ts)) && Words(Join(ts)) == ts
  {
    JoinShape(ts);
    WordsJoin(ts);
  }

  /** oneWord: "hello" is one token. */
  lemma OneWord()
    ensures |Tokenize("hello")| == 1
  {
    OneWordText("hello");
    TokenizeLowercase("hello");
  }

  /** The words ws with seps[i] between ws[i] and ws[i + 1]. */
  function Interleave(ws: seq<string>, seps: seq<string>): string
    requires |ws| == |seps| + 1
    decreases |seps|
  {
    if seps == [] then ws[0]
    else Interleave(ws[..|ws| - 1], seps[..|seps| - 1]) + seps[|seps| - 1] + ws[|ws| - 1]
  }

  lemma InterleaveSnoc(ws: seq<string>, seps: seq<string>, w: string, sep: string)
    requires |ws| == |seps| + 1
    ensures Interleave(ws + [w], seps + [sep]) == Interleave(ws, seps) + sep + w
  {
    assert (ws + [w])[..|ws|] == ws && (seps + [sep])[..|seps|] == seps;
  }

  /** Non-empty runs of characters outside [a-zA-Z0-9]. */
  predicate Separators(seps: seq<string>) {
    forall i :: 0 <= i < |seps| ==> seps[i] != [] && NoAlnum(seps[i]) && NoUpper(seps[i])
  }

  /** Words joined by separators are lowercase text whose runs are those words. */
  lemma {:induction false} InterleaveWords(ws: seq<string>, seps: seq<string>)
    requires ProperTokens(ws) && |ws| == |seps| + 1 && Separators(seps)
    ensures NoUpper(Interleave(ws, seps)) && Words(Interleave(ws, seps)) == ws
    decreases |seps|
  {
    if seps == [] {
      OneWordText(ws[0]);
      assert ws == [ws[0]];
    } else {
      var n := |seps|;
      var init := ws[..n];
      InterleaveWords(init, seps[..n - 1]);
      WordsSnoc(Interleave(init, seps[..n - 1]), seps[n - 1], ws[n]);
      assert init + [ws[n]] == ws;
    }
  }

  /** Words joined by separators tokenize back to those words. */
  lemma TokenizeInterleave(ws: seq<string>, seps: seq<string>)
    requires ProperTokens(ws) && |ws| == |seps| + 1 && Separators(seps)
    ensures Tokenize(Interleave(ws, seps)) == ws
  {
    InterleaveWords(ws, seps);
    TokenizeLowercase(Interleave(ws, seps));
  }

  /** The multipleWords phrase built up one word at a time (SevenTextk holds the first k words). */
  lemma SevenText2()
    ensures Interleave(["here", "is"], [" "]) == "here is"
  {
    InterleaveSnoc(["here"], [], "is", " ");
    assert ["here"] + ["is"] == ["here", "is"];
    assert [] + [" "] == [" "];
  }

  lemma SevenText3()
    ensures Interleave(["here", "is", "a"], [" ", " "]) == "here is a"
  {
    SevenText2();
    InterleaveSnoc(["here", "is"], [" "], "a", " ");
    assert ["here", "is"] + ["a"] == ["here", "is", "a"];
    assert [" "] + [" "] == [" ", " "];
  }

  lemma SevenText4()
    ensures Interleave(["here", "is", "a", "string"], [" ", " ", " "]) == "here is a string"
  {
    SevenText3();
    InterleaveSnoc(["here", "is", "a"], [" ", " "], "string", " ");
    assert ["here", "is", "a"] + ["string"] == ["here", "is", "a", "string"];
    assert [" ", " "] + [" "] == [" ", " ", " "];
  }

  lemma SevenText5()
    ensures Interleave(["here", "is", "a", "string", "with"], [" ", " ", " ", " "]) == "here is a string with"
  {
    SevenText4();
    InterleaveSnoc(["here", "is", "a", "string"], [" ", " ", " "], "with", " ");
    assert ["here", "is", "a", "string"] + ["with"] == ["here", "is", "a", "string", "with"];
    assert [" ", " ", " "] + [" "] == [" ", " ", " ", " "];
  }

  lemma SevenText6()
    ensures Interleave(["here", "is", "a", "string", "with", "seven"], [" ", " ", " ", " ", " "]) == "here is a string with seven"
  {
    SevenText5();
    InterleaveSnoc(["here", "is", "a", "string", "with"], [" ", " ", " ", " "], "seven", " ");
    assert ["here", "is", "a", "string", "with"] + ["seven"] == ["here", "is", "a", "string", "with", "seven"];
    assert [" ", " ", " ", " "] + [" "] == [" ", " ", " ", " ", " "];
  }

  lemma SevenText7()
    ensures Interleave(["here", "is", "a", "string", "with", "seven", "words"], [" ", " ", " ", " ", " ", " "]) == "here is a string with seven words"
  {
    SevenText6();
    InterleaveSnoc(["here", "is", "a", "string", "with", "seven"], [" ", " ", " ", " ", " "], "words", " ");
    assert ["here", "is", "a", "string", "with", "seven"] + ["words"] == ["here", "is", "a", "string", "with", "seven", "words"];
    assert [" ", " ", " ", " ", " "] + [" "] == [" ", " ", " ", " ", " ", " "];
  }

  /** multipleWords: seven words separated by single spaces are seven tokens. */
  lemma MultipleWords()
    ensures |Tokenize("here is a string with seven words")| == 7
  {
    SevenText7();
    TokenizeInterleave(["here", "is", "a", "string", "with", "seven", "words"], [" ", " ", " ", " ", " ", " "]);
  }

  /** The extraCharacters phrase built up one word at a time (HyphenTextk holds the first k words). */
  lemma HyphenText2()
    ensures Interleave(["and", "a"], [" "]) == "and a"
  {
    InterleaveSnoc(["and"], [], "a", " ");
    assert ["and"] + ["a"] == ["and", "a"];
    assert [] + [" "] == [" "];
  }

  lemma HyphenText3()
    ensures Interleave(["and", "a", "string"], [" ", " "]) == "and a string"
  {
    HyphenText2();
    InterleaveSnoc(["and", "a"], [" "], "string", " ");
    assert ["and", "a"] + ["string"] == ["and", "a", "string"];
    assert [" "] + [" "] == [" ", " "];
  }

  lemma HyphenText4()
    ensures Interleave(["and", "a", "string", "with"], [" ", " ", " "]) == "and a string with"
  {
    HyphenText3();
    InterleaveSnoc(["and", "a", "string"], [" ", " "], "with", " ");
    assert ["and", "a", "string"] + ["with"] == ["and", "a", "string", "with"];
    assert [" ", " "] + [" "] == [" ", " ", " "];
  }

  lemma HyphenText5()
    ensures Interleave(["and", "a", "string", "with", "non"], [" ", " ", " ", " "]) == "and a string with non"
  {
    HyphenText4();
    InterleaveSnoc(["and", "a", "string", "with"], [" ", " ", " "], "non", " ");
    assert ["and", "a", "string", "with"] + ["non"] == ["and", "a", "string", "with", "non"];
    assert [" ", " ", " "] + [" "] == [" ", " ", " ", " "];
  }

  lemma HyphenText6()
    ensures Interleave(["and", "a", "string", "with", "non", "alphanumeric"], [" ", " ", " ", " ", "-"]) == "and a string with non-alphanumeric"
  {
    HyphenText5();
    InterleaveSnoc(["and", "a", "string", "with", "non"], [" ", " ", " ", " "], "alphanumeric", "-");
    assert ["and", "a", "string", "with", "non"] + ["alphanumeric"] == ["and", "a", "string", "with", "non", "alphanumeric"];
    assert [" ", " ", " ", " "] + ["-"] == [" ", " ", " ", " ", "-"];
  }

  lemma HyphenText7()
    ensures Interleave(["and", "a", "string", "with", "non", "alphanumeric", "characters3"], [" ", " ", " ", " ", "-", " "]) == "and a string with non-alphanumeric characters3"
  {
    HyphenText6();
    InterleaveSnoc(["and", "a", "string", "with", "non", "alphanumeric"], [" ", " ", " ", " ", "-"], "characters3", " ");
    assert ["and", "a", "string", "with", "non", "alphanumeric"] + ["characters3"] == ["and", "a", "string", "with", "non", "alphanumeric", "characters3"];
    assert [" ", " ", " ", " ", "-"] + [" "] == [" ", " ", " ", " ", "-", " "];
  }

  /** extraCharacters: a hyphen separates words like a space, and digits stay in
      their word. */
  lemma ExtraCharacters()
    ensures |Tokenize("and a string with non-alphanumeric characters3")| == 7
  {
    HyphenText7();
    TokenizeInterleave(["and", "a", "string", "with", "non", "alphanumeric", "characters3"], [" ", " ", " ", " ", "-", " "]);
  }

  /** The extraWhitespace phrase built up one word at a time (SpacesTextk holds the first k words). */
  lemma SpacesText2()
    ensures Interleave(["last", "one"], [" "]) == "last one"
  {
    InterleaveSnoc(["last"], [], "one", " ");
    assert ["last"] + ["one"] == ["last", "one"];
    assert [] + [" "] == [" "];
  }

  lemma SpacesText3()
    ensures Interleave(["last", "one", "has"], [" ", "     "]) == "last one     has"
  {
    SpacesText2();
    InterleaveSnoc(["last", "one"], [" "], "has", "     ");
    assert ["last", "one"] + ["has"] == ["last", "one", "has"];
    assert [" "] + ["     "] == [" ", "     "];
  }

  lemma SpacesText4()
    ensures Interleave(["last", "one", "has", "extra"], [" ", "     ", "     "]) == "last one     has     extra"
  {
    SpacesText3();
    InterleaveSnoc(["last", "one", "has"], [" ", "     "], "extra", "     ");
    assert ["last", "one", "has"] + ["extra"] == ["last", "one", "has", "extra"];
    assert [" ", "     "] + ["     "] == [" ", "     ", "     "];
  }

  lemma SpacesText5()
    ensures Interleave(["last", "one", "has", "extra", "whitespace"], [" ", "     ", "     ", "       "]) == "last one     has     extra       whitespace"
  {
    SpacesText4();
    InterleaveSnoc(["last", "one", "has", "extra"], [" ", "     ", "     "], "whitespace", "       ");
    assert ["last", "one", "has", "extra"] + ["whitespace"] == ["last", "one", "has", "extra", "whitespace"];
    assert [" ", "     ", "     "] + ["       "] == [" ", "     ", "     ", "       "];
  }

  /** extraWhitespace: runs of spaces separate words like a single space. */
  lemma ExtraWhitespace()
    ensures |Tokenize("last one     has     extra       whitespace")| == 5
  {
    SpacesText5();
    TokenizeInterleave(["last", "one", "has", "extra", "whitespace"], [" ", "     ", "     ", "       "]);
  }

  // ---------------------------------------------------------------------------
  // Classification of the sample vocabulary
  // ---------------------------------------------------------------------------

  /** The terms and synonyms of the ten sample objects, as word lists. */
  function Vocabulary(): seq<seq<string>> {
    [ ["house"], ["home"], ["domicile"],
      ["roof"], ["housetop"],
      ["chimney"], ["smokestack"],
      ["living", "room"], ["family", "room"],
      ["kitchen"],
      ["bathroom"], ["washroom"], ["loo"],
      ["cellar"], ["basement"],
      ["roofing", "material"], ["shingle"], ["slate"],
      ["cellar", "dweller"], ["mouse"], ["rat"],
      ["cupboard"], ["kitchen", "cabinet"] ]
  }

  /** A one-word query that is a prefix of a joined phrase is a prefix of its first word. */
  lemma {:induction false} WordPrefixOfJoin(q: string, ws: seq<string>)
    requires ProperTokens(ws) && q != [] && AllAlnum(q)
    requires q <= Join(ws)
    ensures q <= ws[0]
  {
    if |ws| > 1 {
      var j := Join(ws);
      assert j == ws[0] + " " + Join(ws[1..]);
      assert !IsAlnum(j[|ws[0]|]);
      if |q| > |ws[0]| {
        assert false;
      }
    }
  }

  /** A one-word query matches a record whose tokens are ws, joined, exactly when
      it begins one of those words. */
  lemma WordQueryOn<T, C>(r: IndexedResult<T, C>, ws: seq<string>, q: string)
    requires ProperTokens(ws) && q != [] && AllAlnum(q)
    requires r.lowerString == Join(ws) && r.tokens == ws
    ensures MatchType(r, q, [q]) != NO_MATCH <==> exists k :: 0 <= k < |ws| && q <= ws[k]
  {
    assert TokensCovered([q], ws) <==> exists k :: 0 <= k < |ws| && q <= ws[k] by {
      assert [q][0] == q;
    }
    if q <= Join(ws) {
      WordPrefixOfJoin(q, ws);
    }
  }

  /** A one-word query matches a phrase exactly when it begins one of the phrase's words. */
  lemma WordQuery<T, C>(o: IndexedObject<T, C>, isTerm: bool, ws: seq<string>, q: string)
    requires ProperTokens(ws) && q != [] && AllAlnum(q) && NoUpper(q)
    ensures MatchType(NewResult(o, isTerm, Join(ws)), Lower(q), Tokenize(q)) != NO_MATCH <==>
      exists k :: 0 <= k < |ws| && q <= ws[k]
  {
    JoinedWords(ws);
    LowerFixed(Join(ws));
    TokenizeJoin(ws);
    TokenizeJoin([q]);
    LowerFixed(q);
    WordQueryOn(NewResult(o, isTerm, Join(ws)), ws, q);
  }

  lemma VocabularyProper0To5(k: nat)
    requires k < 6
    ensures ProperTokens(Vocabulary()[k])
  {
    if k == 0 {
      assert Vocabulary()[k] == ["house"];
    } else if k == 1 {
      assert Vocabulary()[k] == ["home"];
    } else if k == 2 {
      assert Vocabulary()[k] == ["domicile"];
    } else if k == 3 {
      assert Vocabulary()[k] == ["roof"];
    } else if k == 4 {
      assert Vocabulary()[k] == ["housetop"];
    } else {
      assert Vocabulary()[k] == ["chimney"];
    }
  }

  lemma VocabularyProper6To11(k: nat)
    requires 6 <= k < 12
    ensures ProperTokens(Vocabulary()[k])
  {
    if k == 6 {
      assert Vocabulary()[k] == ["smokestack"];
    } else if k == 7 {
      assert Vocabulary()[k] == ["living", "room"];
    } else if k == 8 {
      assert Vocabulary()[k] == ["family", "room"];
    } else if k == 9 {
      assert Vocabulary()[k] == ["kitchen"];
    } else if k == 10 {
      assert Vocabulary()[k] == ["bathroom"];
    } else {
      assert Vocabulary()[k] == ["washroom"];
    }
  }

  lemma VocabularyProper12To17(k: nat)
    requires 12 <= k < 18
    ensures ProperTokens(Vocabulary()[k])
  {
    if k == 12 {
      assert Vocabulary()[k] == ["loo"];
    } else if k == 13 {
      assert Vocabulary()[k] == ["cellar"];
    } else if k == 14 {
      assert Vocabulary()[k] == ["basement"];
    } else if k == 15 {
      assert Vocabulary()[k] == ["roofing", "material"];
    } else if k == 16 {
      assert Vocabulary()[k] == ["shingle"];
    } else {
      assert Vocabulary()[k] == ["slate"];
    }
  }

  lemma VocabularyProper18To22(k: nat)
    requires 18 <= k < |Vocabulary()|
    ensures ProperTokens(Vocabulary()[k])
  {
    if k == 18 {
      assert Vocabulary()[k] == ["cellar", "dweller"];
    } else if k == 19 {
      assert Vocabulary()[k] == ["mouse"];
    } else if k == 20 {
      assert Vocabulary()[k] == ["rat"];
    } else if k == 21 {
      assert Vocabulary()[k] == ["cupboard"];
    } else {
      assert Vocabulary()[k] == ["kitchen", "cabinet"];
    }
  }

  /** Every sample string is a non-empty list of [a-z0-9] words. */
  lemma VocabularyProper(k: nat)
    requires k < |Vocabulary()|
    ensures ProperTokens(Vocabulary()[k])
  {
    if k < 6 {
      VocabularyProper0To5(k);
    } else if k < 12 {
      VocabularyProper6To11(k);
    } else if k < 18 {
      VocabularyProper12To17(k);
    } else {
      VocabularyProper18To22(k);
    }
  }

  /** Some word of ws starts with q. */
  predicate Begins(q: string, ws: seq<string>) {
    exists j :: 0 <= j < |ws| && q <= ws[j]
  }

  /** No word of ws starts with q, because word j differs from q at position at[j]
      or ends before it. */
  lemma NotBegins(q: string, ws: seq<string>, at: seq<nat>)
    requires |at| == |ws|
    requires forall j :: 0 <= j < |ws| ==> at[j] < |q| && (at[j] >= |ws[j]| || q[at[j]] != ws[j][at[j]])
    ensures !Begins(q, ws)
  {
  }

  lemma BeginsChimney0To7(k: nat)
    requires k < 8
    ensures Begins("chimney", Vocabulary()[k]) <==> k == 5
  {
    if k == 0 {
      assert Vocabulary()[k] == ["house"];
      NotBegins("chimney", ["house"], [0]);
    } else if k == 1 {
      assert Vocabulary()[k] == ["home"];
      NotBegins("chimney", ["home"], [0]);
    } else if k == 2 {
      assert Vocabulary()[k] == ["domicile"];
      NotBegins("chimney", ["domicile"], [0]);
    } else if k == 3 {
      assert Vocabulary()[k] == ["roof"];
      NotBegins("chimney", ["roof"], [0]);
    } else if k == 4 {
      assert Vocabulary()[k] == ["housetop"];
      NotBegins("chimney", ["housetop"], [0]);
    } else if k == 5 {
      assert Vocabulary()[k] == ["chimney"];
      assert "chimney" <= Vocabulary()[k][0];
    } else if k == 6 {
      assert Vocabulary()[k] == ["smokestack"];
      NotBegins("chimney", ["smokestack"], [0]);
    } else {
      assert Vocabulary()[k] == ["living", "room"];
      NotBegins("chimney", ["living", "room"], [0, 0]);
    }
  }

  lemma BeginsChimney8To15(k: nat)
    requires 8 <= k < 16
    ensures Begins("chimney", Vocabulary()[k]) <==> k == 5
  {
    if k == 8 {
      assert Vocabulary()[k] == ["family", "room"];
      NotBegins("chimney", ["family", "room"], [0, 0]);
    } else if k == 9 {
      assert Vocabulary()[k] == ["kitchen"];
      NotBegins("chimney", ["kitchen"], [0]);
    } else if k == 10 {
      assert Vocabulary()[k] == ["bathroom"];
      NotBegins("chimney", ["bathroom"], [0]);
    } else if k == 11 {
      assert Vocabulary()[k] == ["washroom"];
      NotBegins("chimney", ["washroom"], [0]);
    } else if k == 12 {
      assert Vocabulary()[k] == ["loo"];
      NotBegins("chimney", ["loo"], [0]);
    } else if k == 13 {
      assert Vocabulary()[k] == ["cellar"];
      NotBegins("chimney", ["cellar"], [1]);
    } else if k == 14 {
      assert Vocabulary()[k] == ["basement"];
      NotBegins("chimney", ["basement"], [0]);
    } else {
      assert Vocabulary()[k] == ["roofing", "material"];
      NotBegins("chimney", ["roofing", "material"], [0, 0]);
    }
  }

  lemma BeginsChimney16To22(k: nat)
    requires 16 <= k < |Vocabulary()|
    ensures Begins("chimney", Vocabulary()[k]) <==> k == 5
  {
    if k == 16 {
      assert Vocabulary()[k] == ["shingle"];
      NotBegins("chimney", ["shingle"], [0]);
    } else if k == 17 {
      assert Vocabulary()[k] == ["slate"];
      NotBegins("chimney", ["slate"], [0]);
    } else if k == 18 {
      assert Vocabulary()[k] == ["cellar", "dweller"];
      NotBegins("chimney", ["cellar", "dweller"], [1, 0]);
    } else if k == 19 {
      assert Vocabulary()[k] == ["mouse"];
      NotBegins("chimney", ["mouse"], [0]);
    } else if k == 20 {
      assert Vocabulary()[k] == ["rat"];
      NotBegins("chimney", ["rat"], [0]);
    } else if k == 21 {
      assert Vocabulary()[k] == ["cupboard"];
      NotBegins("chimney", ["cupboard"], [1]);
    } else {
      assert Vocabulary()[k] == ["kitchen", "cabinet"];
      NotBegins("chimney", ["kitchen", "cabinet"], [0, 1]);
    }
  }

  /** The sample strings with a word that begins with "chimney" (the cases are split
      into three ranges of k to keep each proof small). */
  lemma BeginsChimney(k: nat)
    requires k < |Vocabulary()|
    ensures Begins("chimney", Vocabulary()[k]) <==> k == 5
  {
    if k < 8 {
      BeginsChimney0To7(k);
    } else if k < 16 {
      BeginsChimney8To15(k);
    } else {
      BeginsChimney16To22(k);
    }
  }

  lemma BeginsHouse0To7(k: nat)
    requires k < 8
    ensures Begins("house", Vocabulary()[k]) <==> k == 0 || k == 4
  {
    if k == 0 {
      assert Vocabulary()[k] == ["house"];
      assert "house" <= Vocabulary()[k][0];
    } else if k == 1 {
      assert Vocabulary()[k] == ["home"];
      NotBegins("house", ["home"], [2]);
    } else if k == 2 {
      assert Vocabulary()[k] == ["domicile"];
      NotBegins("house", ["domicile"], [0]);
    } else if k == 3 {
      assert Vocabulary()[k] == ["roof"];
      NotBegins("house", ["roof"], [0]);
    } else if k == 4 {
      assert Vocabulary()[k] == ["housetop"];
      assert "house" <= Vocabulary()[k][0];
    } else if k == 5 {
      assert Vocabulary()[k] == ["chimney"];
      NotBegins("house", ["chimney"], [0]);
    } else if k == 6 {
      assert Vocabulary()[k] == ["smokestack"];
      NotBegins("house", ["smokestack"], [0]);
    } else {
      assert Vocabulary()[k] == ["living", "room"];
      NotBegins("house", ["living", "room"], [0, 0]);
    }
  }

  lemma BeginsHouse8To15(k: nat)
    requires 8 <= k < 16
    ensures Begins("house", Vocabulary()[k]) <==> k == 0 || k == 4
  {
    if k == 8 {
      assert Vocabulary()[k] == ["family", "room"];
      NotBegins("house", ["family", "room"], [0, 0]);
    } else if k == 9 {
      assert Vocabulary()[k] == ["kitchen"];
      NotBegins("house", ["kitchen"], [0]);
    } else if k == 10 {
      assert Vocabulary()[k] == ["bathroom"];
      NotBegins("house", ["bathroom"], [0]);
    } else if k == 11 {
      assert Vocabulary()[k] == ["washroom"];
      NotBegins("house", ["washroom"], [0]);
    } else if k == 12 {
      assert Vocabulary()[k] == ["loo"];
      NotBegins("house", ["loo"], [0]);
    } else if k == 13 {
      assert Vocabulary()[k] == ["cellar"];
      NotBegins("house", ["cellar"], [0]);
    } else if k == 14 {
      assert Vocabulary()[k] == ["basement"];
      NotBegins("house", ["basement"], [0]);
    } else {
      assert Vocabulary()[k] == ["roofing", "material"];
      NotBegins("house", ["roofing", "material"], [0, 0]);
    }
  }

  lemma BeginsHouse16To22(k: nat)
    requires 16 <= k < |Vocabulary()|
    ensures Begins("house", Vocabulary()[k]) <==> k == 0 || k == 4
  {
    if k == 16 {
      assert Vocabulary()[k] == ["shingle"];
      NotBegins("house", ["shingle"], [0]);
    } else if k == 17 {
      assert Vocabulary()[k] == ["slate"];
      NotBegins("house", ["slate"], [0]);
    } else if k == 18 {
      assert Vocabulary()[k] == ["cellar", "dweller"];
      NotBegins("house", ["cellar", "dweller"], [0, 0]);
    } else if k == 19 {
      assert Vocabulary()[k] == ["mouse"];
      NotBegins("house", ["mouse"], [0]);
    } else if k == 20 {
      assert Vocabulary()[k] == ["rat"];
      NotBegins("house", ["rat"], [0]);
    } else if k == 21 {
      assert Vocabulary()[k] == ["cupboard"];
      NotBegins("house", ["cupboard"], [0]);
    } else {
      assert Vocabulary()[k] == ["kitchen", "cabinet"];
      NotBegins("house", ["kitchen", "cabinet"], [0, 0]);
    }
  }

  /** The sample strings with a word that begins with "house" (the cases are split
      into three ranges of k to keep each proof small). */
  lemma BeginsHouse(k: nat)
    requires k < |Vocabulary()|
    ensures Begins("house", Vocabulary()[k]) <==> k == 0 || k == 4
  {
    if k < 8 {
      BeginsHouse0To7(k);
    } else if k < 16 {
      BeginsHouse8To15(k);
    } else {
      BeginsHouse16To22(k);
    }
  }

  lemma BeginsHousetop0To7(k: nat)
    requires k < 8
    ensures Begins("housetop", Vocabulary()[k]) <==> k == 4
  {
    if k == 0 {
      assert Vocabulary()[k] == ["house"];
      NotBegins("housetop", ["house"], [5]);
    } else if k == 1 {
      assert Vocabulary()[k] == ["home"];
      NotBegins("housetop", ["home"], [2]);
    } else if k == 2 {
      assert Vocabulary()[k] == ["domicile"];
      NotBegins("housetop", ["domicile"], [0]);
    } else if k == 3 {
      assert Vocabulary()[k] == ["roof"];
      NotBegins("housetop", ["roof"], [0]);
    } else if k == 4 {
      assert Vocabulary()[k] == ["housetop"];
      assert "housetop" <= Vocabulary()[k][0];
    } else if k == 5 {
      assert Vocabulary()[k] == ["chimney"];
      NotBegins("housetop", ["chimney"], [0]);
    } else if k == 6 {
      assert Vocabulary()[k] == ["smokestack"];
      NotBegins("housetop", ["smokestack"], [0]);
    } else {
      assert Vocabulary()[k] == ["living", "room"];
      NotBegins("housetop", ["living", "room"], [0, 0]);
    }
  }

  lemma BeginsHousetop8To15(k: nat)
    requires 8 <= k < 16
    ensures Begins("housetop", Vocabulary()[k]) <==> k == 4
  {
    if k == 8 {
      assert Vocabulary()[k] == ["family", "room"];
      NotBegins("housetop", ["family", "room"], [0, 0]);
    } else if k == 9 {
      assert Vocabulary()[k] == ["kitchen"];
      NotBegins("housetop", ["kitchen"], [0]);
    } else if k == 10 {
      assert Vocabulary()[k] == ["bathroom"];
      NotBegins("housetop", ["bathroom"], [0]);
    } else if k == 11 {
      assert Vocabulary()[k] == ["washroom"];
      NotBegins("housetop", ["washroom"], [0]);
    } else if k == 12 {
      assert Vocabulary()[k] == ["loo"];
      NotBegins("housetop", ["loo"], [0]);
    } else if k == 13 {
      assert Vocabulary()[k] == ["cellar"];
      NotBegins("housetop", ["cellar"], [0]);
    } else if k == 14 {
      assert Vocabulary()[k] == ["basement"];
      NotBegins("housetop", ["basement"], [0]);
    } else {
      assert Vocabulary()[k] == ["roofing", "material"];
      NotBegins("housetop", ["roofing", "material"], [0, 0]);
    }
  }

  lemma BeginsHousetop16To22(k: nat)
    requires 16 <= k < |Vocabulary()|
    ensures Begins("housetop", Vocabulary()[k]) <==> k == 4
  {
    if k == 16 {
      assert Vocabulary()[k] == ["shingle"];
      NotBegins("housetop", ["shingle"], [0]);
    } else if k == 17 {
      assert Vocabulary()[k] == ["slate"];
      NotBegins("housetop", ["slate"], [0]);
    } else if k == 18 {
      assert Vocabulary()[k] == ["cellar", "dweller"];
      NotBegins("housetop", ["cellar", "dweller"], [0, 0]);
    } else if k == 19 {
      assert Vocabulary()[k] == ["mouse"];
      NotBegins("housetop", ["mouse"], [0]);
    } else if k == 20 {
      assert Vocabulary()[k] == ["rat"];
      NotBegins("housetop", ["rat"], [0]);
    } else if k == 21 {
      assert Vocabulary()[k] == ["cupboard"];
      NotBegins("housetop", ["cupboard"], [0]);
    } else {
      assert Vocabulary()[k] == ["kitchen", "cabinet"];
      NotBegins("housetop", ["kitchen", "cabinet"], [0, 0]);
    }
  }

  /** The sample strings with a word that begins with "housetop" (the cases are split
      into three ranges of k to keep each proof small). */
  lemma BeginsHousetop(k: nat)
    requires k < |Vocabulary()|
    ensures Begins("housetop", Vocabulary()[k]) <==> k == 4
  {
    if k < 8 {
      BeginsHousetop0To7(k);
    } else if k < 16 {
      BeginsHousetop8To15(k);
    } else {
      BeginsHousetop16To22(k);
    }
  }

  lemma BeginsMortgage0To7(k: nat)
    requires k < 8
    ensures !Begins("mortgage", Vocabulary()[k])
  {
    if k == 0 {
      assert Vocabulary()[k] == ["house"];
      NotBegins("mortgage", ["house"], [0]);
    } else if k == 1 {
      assert Vocabulary()[k] == ["home"];
      NotBegins("mortgage", ["home"], [0]);
    } else if k == 2 {
      assert Vocabulary()[k] == ["domicile"];
      NotBegins("mortgage", ["domicile"], [0]);
    } else if k == 3 {
      assert Vocabulary()[k] == ["roof"];
      NotBegins("mortgage", ["roof"], [0]);
    } else if k == 4 {
      assert Vocabulary()[k] == ["housetop"];
      NotBegins("mortgage", ["housetop"], [0]);
    } else if k == 5 {
      assert Vocabulary()[k] == ["chimney"];
      NotBegins("mortgage", ["chimney"], [0]);
    } else if k == 6 {
      assert Vocabulary()[k] == ["smokestack"];
      NotBegins("mortgage", ["smokestack"], [0]);
    } else {
      assert Vocabulary()[k] == ["living", "room"];
      NotBegins("mortgage", ["living", "room"], [0, 0]);
    }
  }

  lemma BeginsMortgage8To15(k: nat)
    requires 8 <= k < 16
    ensures !Begins("mortgage", Vocabulary()[k])
  {
    if k == 8 {
      assert Vocabulary()[k] == ["family", "room"];
      NotBegins("mortgage", ["family", "room"], [0, 0]);
    } else if k == 9 {
      assert Vocabulary()[k] == ["kitchen"];
      NotBegins("mortgage", ["kitchen"], [0]);
    } else if k == 10 {
      assert Vocabulary()[k] == ["bathroom"];
      NotBegins("mortgage", ["bathroom"], [0]);
    } else if k == 11 {
      assert Vocabulary()[k] == ["washroom"];
      NotBegins("mortgage", ["washroom"], [0]);
    } else if k == 12 {
      assert Vocabulary()[k] == ["loo"];
      NotBegins("mortgage", ["loo"], [0]);
    } else if k == 13 {
      assert Vocabulary()[k] == ["cellar"];
      NotBegins("mortgage", ["cellar"], [0]);
    } else if k == 14 {
      assert Vocabulary()[k] == ["basement"];
      NotBegins("mortgage", ["basement"], [0]);
    } else {
      assert Vocabulary()[k] == ["roofing", "material"];
      NotBegins("mortgage", ["roofing", "material"], [0, 1]);
    }
  }

  lemma BeginsMortgage16To22(k: nat)
    requires 16 <= k < |Vocabulary()|
    ensures !Begins("mortgage", Vocabulary()[k])
  {
    if k == 16 {
      assert Vocabulary()[k] == ["shingle"];
      NotBegins("mortgage", ["shingle"], [0]);
    } else if k == 17 {
      assert Vocabulary()[k] == ["slate"];
      NotBegins("mortgage", ["slate"], [0]);
    } else if k == 18 {
      assert Vocabulary()[k] == ["cellar", "dweller"];
      NotBegins("mortgage", ["cellar", "dweller"], [0, 0]);
    } else if k == 19 {
      assert Vocabulary()[k] == ["mouse"];
      NotBegins("mortgage", ["mouse"], [2]);
    } else if k == 20 {
      assert Vocabulary()[k] == ["rat"];
      NotBegins("mortgage", ["rat"], [0]);
    } else if k == 21 {
      assert Vocabulary()[k] == ["cupboard"];
      NotBegins("mortgage", ["cupboard"], [0]);
    } else {
      assert Vocabulary()[k] == ["kitchen", "cabinet"];
      NotBegins("mortgage", ["kitchen", "cabinet"], [0, 0]);
    }
  }

  /** The sample strings with a word that begins with "mortgage" (the cases are split
      into three ranges of k to keep each proof small). */
  lemma BeginsMortgage(k: nat)
    requires k < |Vocabulary()|
    ensures !Begins("mortgage", Vocabulary()[k])
  {
    if k < 8 {
      BeginsMortgage0To7(k);
    } else if k < 16 {
      BeginsMortgage8To15(k);
    } else {
      BeginsMortgage16To22(k);
    }
  }

  /** A one-word query matches a sample string exactly when it begins one of its words. */
  lemma SampleQuery<T, C>(o: IndexedObject<T, C>, isTerm: bool, k: nat, q: string)
    requires k < |Vocabulary()|
    requires q != [] && AllAlnum(q) && NoUpper(q)
    ensures MatchType(NewResult(o, isTerm, Join(Vocabulary()[k])), Lower(q), Tokenize(q)) != NO_MATCH <==>
      Begins(q, Vocabulary()[k])
  {
    VocabularyProper(k);
    WordQuery(o, isTerm, Vocabulary()[k], q);
  }

  /** "chimney" matches only the chimney term among the sample strings. */
  lemma ChimneyMatches<T, C>(o: IndexedObject<T, C>, isTerm: bool, k: nat)
    requires k < |Vocabulary()|
    ensures MatchType(NewResult(o, isTerm, Join(Vocabulary()[k])), Lower("chimney"), Tokenize("chimney")) != NO_MATCH <==> k == 5
  {
    BeginsChimney(k);
    SampleQuery(o, isTerm, k, "chimney");
  }

  /** "house" matches the house term and the housetop synonym and nothing else. */
  lemma HouseMatches<T, C>(o: IndexedObject<T, C>, isTerm: bool, k: nat)
    requires k < |Vocabulary()|
    ensures MatchType(NewResult(o, isTerm, Join(Vocabulary()[k])), Lower("house"), Tokenize("house")) != NO_MATCH <==> k == 0 || k == 4
  {
    BeginsHouse(k);
    SampleQuery(o, isTerm, k, "house");
  }

  /** "housetop" matches only the housetop synonym. */
  lemma HousetopMatches<T, C>(o: IndexedObject<T, C>, isTerm: bool, k: nat)
    requires k < |Vocabulary()|
    ensures MatchType(NewResult(o, isTerm, Join(Vocabulary()[k])), Lower("housetop"), Tokenize("housetop")) != NO_MATCH <==> k == 4
  {
    BeginsHousetop(k);
    SampleQuery(o, isTerm, k, "housetop");
  }

  /** "mortgage" matches none of the sample strings. */
  lemma MortgageMatches<T, C>(o: IndexedObject<T, C>, isTerm: bool, k: nat)
    requires k < |Vocabulary()|
    ensures MatchType(NewResult(o, isTerm, Join(Vocabulary()[k])), Lower("mortgage"), Tokenize("mortgage")) == NO_MATCH
  {
    BeginsMortgage(k);
    SampleQuery(o, isTerm, k, "mortgage");
  }

  /** Of the two "house" matches the term is exact and the synonym only a prefix
      match, so the term ranks first. */
  lemma HouseRanking<T, C>(house: IndexedObject<T, C>, roof: IndexedObject<T, C>)
    ensures MatchType(NewResult(house, true, "house"), Lower("house"), Tokenize("house")) == EXACT_TERM_MATCH
    ensures MatchType(NewResult(roof, false, "housetop"), Lower("house"), Tokenize("house")) == BEGINS_SYNONYM_MATCH
    ensures MatchType(NewResult(roof, false, "housetop"), Lower("housetop"), Tokenize("housetop")) == EXACT_SYNONYM_MATCH
  {
    LowerFixed("house");
    LowerFixed("housetop");
  }
}
