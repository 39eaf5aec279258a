/**
  The three maps createIndexes builds over the sorted records:
    keystone  -- 1-, 2- or 3-character token prefix -> record positions;
    prefixes  -- 1- or 2-character prefix -> keystone keys extending it;
    termCount -- every key of either map -> a cost estimate.
  The records enter only through their token lists, flattened into
  (position, token) entries in loop order.
*/
module PrefixIndex {
  import opened Wrappers
  import opened Sorting

  datatype Entry = Entry(pos: nat, token: string)

  datatype Index = Index(keystone: map<string, seq<nat>>, prefixes: map<string, seq<string>>)

  function Min(a: nat, b: nat): nat {
    if a <= b then a else b
  }

  // ---------------------------------------------------------------------------
  // Token prefixes
  // ---------------------------------------------------------------------------

  /** The 1-, 2- and 3-character prefixes of a token; a short token reuses its
      shorter prefixes for the missing longer ones. */
  function KeyPrefixes(t: string): (ks: (string, string, string))
    requires t != []
    ensures ks.0 == t[..1]
    ensures ks.1 == t[..Min(2, |t|)]
    ensures ks.2 == t[..Min(3, |t|)]
  {
    if |t| >= 3 then (t[..1], t[..2], t[..3])
    else if |t| == 2 then (t[..1], t[..2], t[..2])
    else (t[..1], t[..1], t[..1])
  }

  /** The keystone key of a non-empty token. */
  function Key(t: string): string
    requires t != []
  {
    KeyPrefixes(t).2
  }

  /** getBestPrefix: the first three characters, or fewer for a short token;
      null for the empty token. */
  function BestPrefix(t: string): (p: Option<string>)
    ensures p.Some? <==> t != []
    ensures p.Some? ==> p.value == Key(t) && 1 <= |p.value| <= 3 && p.value <= t
    ensures p.Some? && |p.value| < 3 ==> p.value == t
  {
    if |t| >= 3 then Some(t[..3])
    else if |t| == 2 then Some(t[..2])
    else if |t| == 1 then Some(t[..1])
    else None
  }

  // ---------------------------------------------------------------------------
  // Sequence helpers
  // ---------------------------------------------------------------------------

  predicate NoDups<X(==)>(s: seq<X>) {
    forall i, j :: 0 <= i < j < |s| ==> s[i] != s[j]
  }

  function Lookup<K, V>(m: map<K, seq<V>>, k: K): seq<V> {
    if k in m then m[k] else []
  }

  /** Appends x unless it is already present (the `contains` guard before `add`). */
  function AddUnique<X(==,!new)>(xs: seq<X>, x: X): (r: seq<X>)
    ensures forall y :: y in r <==> y in xs || y == x
    ensures NoDups(xs) ==> NoDups(r)
    ensures xs <= r
  {
    if x in xs then xs else xs + [x]
  }

  /** Keeps the first occurrence of each element, in order (a seen-set walk). */
  function Dedup<X(==,!new)>(s: seq<X>): (r: seq<X>)
    ensures forall y :: y in r <==> y in s
    ensures NoDups(r)
    ensures |r| <= |s|
  {
    if s == [] then [] else AddUnique(Dedup(s[..|s| - 1]), s[|s| - 1])
  }

  // ---------------------------------------------------------------------------
  // Building keystone and prefixes
  // ---------------------------------------------------------------------------

  /** The (position, token) pairs visited by the two nested loops of createIndexes,
      for records whose token lists are tls. */
  function Entries(tls: seq<seq<string>>): (es: seq<Entry>)
    ensures forall e :: e in es <==> e.pos < |tls| && e.token in tls[e.pos]
    ensures forall i, j :: 0 <= i < j < |es| ==> es[i].pos <= es[j].pos
  {
    if tls == [] then []
    else
      var n := |tls| - 1;
      Entries(tls[..n]) + Row(n, tls[n])
  }

  /** The entries of one record: its tokens, in order, at position n. */
  function Row(n: nat, tokens: seq<string>): (row: seq<Entry>)
    ensures |row| == |tokens|
    ensures forall e: Entry :: e in row <==> e.pos == n && e.token in tokens
  {
    var row := seq(|tokens|, k requires 0 <= k < |tokens| => Entry(n, tokens[k]));
    assert forall e: Entry :: e in row <==> e.pos == n && e.token in tokens by {
      forall e: Entry | e.pos == n && e.token in tokens ensures e in row {
        var k :| 0 <= k < |tokens| && tokens[k] == e.token;
        assert row[k] == e;
      }
    }
    row
  }

  /** One iteration of the inner loop: token t of record i. An empty token
      changes nothing. */
  function AddEntry(ix: Index, e: Entry): Index {
    if e.token == [] then ix
    else
      var (p1, p2, p3) := KeyPrefixes(e.token);
      var ks := ix.keystone[p3 := Lookup(ix.keystone, p3) + [e.pos]];
      var ps := ix.prefixes[p1 := AddUnique(Lookup(ix.prefixes, p1), p3)];
      Index(ks, ps[p2 := AddUnique(Lookup(ps, p2), p3)])
  }

  /** The index after the loops have visited es, in order. */
  function BuildFrom(es: seq<Entry>): Index {
    if es == [] then Index(map[], map[])
    else AddEntry(BuildFrom(es[..|es| - 1]), es[|es| - 1])
  }

  /** Entry e files its position under keystone key k. */
  predicate Keyed(e: Entry, k: string) {
    e.token != [] && Key(e.token) == k
  }

  /** Entry e registers its keystone key under prefixes key k. */
  predicate Fans(e: Entry, k: string) {
    e.token != [] && (KeyPrefixes(e.token).0 == k || KeyPrefixes(e.token).1 == k)
  }

  /** Reference definition of a keystone list: the positions of the entries with
      key k, in entry order. */
  function Occurrences(es: seq<Entry>, k: string): (ps: seq<nat>)
    ensures forall i :: i in ps <==> exists e :: e in es && Keyed(e, k) && e.pos == i
    ensures ps != [] <==> exists e :: e in es && Keyed(e, k)
  {
    if es == [] then []
    else
      var e := es[|es| - 1];
      var init := es[..|es| - 1];
      assert es == init + [e];
      Occurrences(init, k) + (if Keyed(e, k) then [e.pos] else [])
  }

  /** One entry extends the keystone list of its own key and no other. */
  lemma AddEntryKeystone(ix: Index, e: Entry)
    ensures forall k :: k in AddEntry(ix, e).keystone <==> k in ix.keystone || Keyed(e, k)
    ensures forall k :: k in AddEntry(ix, e).keystone ==>
      AddEntry(ix, e).keystone[k] == Lookup(ix.keystone, k) + (if Keyed(e, k) then [e.pos] else [])
  {
  }

  /** One entry registers its key under its 1- and 2-character prefixes only, once. */
  lemma AddEntryPrefixes(ix: Index, e: Entry)
    ensures forall k :: k in AddEntry(ix, e).prefixes <==> k in ix.prefixes || Fans(e, k)
    ensures forall k, x :: k in AddEntry(ix, e).prefixes ==>
      (x in AddEntry(ix, e).prefixes[k] <==> x in Lookup(ix.prefixes, k) || (Fans(e, k) && x == Key(e.token)))
    ensures (forall k :: k in ix.prefixes ==> NoDups(ix.prefixes[k])) ==>
      forall k :: k in AddEntry(ix, e).prefixes ==> NoDups(AddEntry(ix, e).prefixes[k])
  {
  }

  /** The keystone the loops build, stated without the loops: a key is present
      exactly when some entry has it, and its list is the reference list. */
  lemma {:induction false} KeystoneSpec(es: seq<Entry>)
    ensures forall k :: k in BuildFrom(es).keystone <==> exists e :: e in es && Keyed(e, k)
    ensures forall k :: k in BuildFrom(es).keystone ==> BuildFrom(es).keystone[k] == Occurrences(es, k)
  {
    if es != [] {
      var init, e := es[..|es| - 1], es[|es| - 1];
      assert es == init + [e];
      KeystoneSpec(init);
      var ix0 := BuildFrom(init);
      AddEntryKeystone(ix0, e);
      forall k | k in BuildFrom(es).keystone ensures BuildFrom(es).keystone[k] == Occurrences(es, k) {
        assert Occurrences(es, k) == Occurrences(init, k) + (if Keyed(e, k) then [e.pos] else []);
      }
    }
  }

  /** The prefixes map the loops build: a key is present exactly when it is the 1-
      or 2-character prefix of some entry, and its list holds, without
      repetition, the keys of exactly those entries. */
  lemma {:induction false} PrefixesSpec(es: seq<Entry>)
    ensures forall k :: k in BuildFrom(es).prefixes <==> exists e :: e in es && Fans(e, k)
    ensures forall k, x :: k in BuildFrom(es).prefixes ==>
      (x in BuildFrom(es).prefixes[k] <==> exists e :: e in es && Fans(e, k) && Key(e.token) == x)
    ensures forall k :: k in BuildFrom(es).prefixes ==> NoDups(BuildFrom(es).prefixes[k])
  {
    PrefixesKeys(es);
    PrefixesLists(es);
    PrefixesNoDups(es);
  }

  lemma {:induction false} PrefixesKeys(es: seq<Entry>)
    ensures forall k :: k in BuildFrom(es).prefixes <==> exists e :: e in es && Fans(e, k)
  {
    if es != [] {
      var init, e := es[..|es| - 1], es[|es| - 1];
      assert es == init + [e];
      PrefixesKeys(init);
      AddEntryPrefixes(BuildFrom(init), e);
    }
  }

  /** Some entry of es fans out to k and has keystone key x. */
  ghost predicate FannedKey(es: seq<Entry>, k: string, x: string) {
    exists e :: e in es && Fans(e, k) && Key(e.token) == x
  }

  ghost predicate ListsFanned(es: seq<Entry>) {
    forall k, x :: k in BuildFrom(es).prefixes ==> (x in BuildFrom(es).prefixes[k] <==> FannedKey(es, k, x))
  }

  lemma PrefixesListsAt(init: seq<Entry>, e: Entry, k: string, x: string)
    requires ListsFanned(init)
    requires k in BuildFrom(init + [e]).prefixes
    ensures x in BuildFrom(init + [e]).prefixes[k] <==> FannedKey(init + [e], k, x)
  {
    var es := init + [e];
    assert es[..|es| - 1] == init && es[|es| - 1] == e;
    AddEntryPrefixes(BuildFrom(init), e);
    assert FannedKey(es, k, x) <==> FannedKey(init, k, x) || (Fans(e, k) && Key(e.token) == x) by {
      if FannedKey(es, k, x) {
        var d :| d in es && Fans(d, k) && Key(d.token) == x;
        assert d in init || d == e;
      }
      if FannedKey(init, k, x) {
        var d :| d in init && Fans(d, k) && Key(d.token) == x;
        assert d in es;
      }
    }
    assert BuildFrom(es) == AddEntry(BuildFrom(init), e);
    if k in BuildFrom(init).prefixes {
      assert x in BuildFrom(init).prefixes[k] <==> FannedKey(init, k, x);
    } else {
      PrefixesKeys(init);
      assert !FannedKey(init, k, x);
    }
  }

  lemma {:induction false} PrefixesLists(es: seq<Entry>)
    ensures forall k, x :: k in BuildFrom(es).prefixes ==>
      (x in BuildFrom(es).prefixes[k] <==> exists e :: e in es && Fans(e, k) && Key(e.token) == x)
  {
    if es != [] {
      var init, e := es[..|es| - 1], es[|es| - 1];
      assert es == init + [e];
      PrefixesLists(init);
      assert ListsFanned(init);
      forall k, x | k in BuildFrom(es).prefixes ensures x in BuildFrom(es).prefixes[k] <==> FannedKey(es, k, x) {
        PrefixesListsAt(init, e, k, x);
      }
    }
  }

  lemma {:induction false} PrefixesNoDups(es: seq<Entry>)
    ensures forall k :: k in BuildFrom(es).prefixes ==> NoDups(BuildFrom(es).prefixes[k])
  {
    if es != [] {
      var init := es[..|es| - 1];
      PrefixesNoDups(init);
      AddEntryPrefixes(BuildFrom(init), es[|es| - 1]);
    }
  }

  // ---------------------------------------------------------------------------
  // Shape of the built index
  // ---------------------------------------------------------------------------

  /** What search relies on when it looks keys up: positions are in range and
      ascending, prefixes keys are short, every fanned-out key is a keystone key,
      and every short keystone key is a prefixes key. */
  ghost predicate IndexOk(ix: Index, n: nat) {
    && (forall k, i :: k in ix.keystone && i in ix.keystone[k] ==> i < n)
    && (forall k :: k in ix.keystone ==> Ascending(ix.keystone[k]))
    && (forall k :: k in ix.prefixes ==> |k| < 3)
    && (forall k, x :: k in ix.prefixes && x in ix.prefixes[k] ==> x in ix.keystone)
    && (forall k :: k in ix.keystone && |k| < 3 ==> k in ix.prefixes)
  }

  lemma KeyPrefixesNested(t: string)
    requires t != []
    ensures KeyPrefixes(t).0 <= Key(t) && KeyPrefixes(t).1 <= Key(t) && Key(t) <= t
    ensures |Key(t)| < 3 ==> KeyPrefixes(t).1 == Key(t)
  {
  }

  lemma KeystoneKeyShape(es: seq<Entry>, n: nat, k: string)
    requires forall e :: e in es ==> e.pos < n
    requires forall i, j :: 0 <= i < j < |es| ==> es[i].pos <= es[j].pos
    requires k in BuildFrom(es).keystone
    ensures 1 <= |k| <= 3 && BuildFrom(es).keystone[k] != [] && Ascending(BuildFrom(es).keystone[k])
    ensures forall i :: i in BuildFrom(es).keystone[k] ==> i < n
  {
    KeystoneSpec(es);
    var e :| e in es && Keyed(e, k);
    var o := Occurrences(es, k);
    assert e.pos in o;
    OccurrencesAscending(es, k);
    forall i | i in o ensures i < n {
      var d :| d in es && Keyed(d, k) && d.pos == i;
    }
  }

  /** The invariants of the built keystone: keys of one to three characters,
      non-empty ascending lists of in-range positions. */
  lemma KeystoneShape(es: seq<Entry>, n: nat)
    requires forall e :: e in es ==> e.pos < n
    requires forall i, j :: 0 <= i < j < |es| ==> es[i].pos <= es[j].pos
    ensures forall k :: k in BuildFrom(es).keystone ==> 1 <= |k| <= 3 && BuildFrom(es).keystone[k] != []
    ensures forall k :: k in BuildFrom(es).keystone ==> Ascending(BuildFrom(es).keystone[k])
    ensures forall k, i :: k in BuildFrom(es).keystone && i in BuildFrom(es).keystone[k] ==> i < n
  {
    forall k | k in BuildFrom(es).keystone
      ensures 1 <= |k| <= 3 && BuildFrom(es).keystone[k] != [] && Ascending(BuildFrom(es).keystone[k])
      ensures forall i :: i in BuildFrom(es).keystone[k] ==> i < n
    {
      KeystoneKeyShape(es, n, k);
    }
  }

  lemma FanTargetShape(es: seq<Entry>, k: string, x: string)
    requires k in BuildFrom(es).prefixes && x in BuildFrom(es).prefixes[k]
    ensures k <= x && x in BuildFrom(es).keystone
  {
    KeystoneSpec(es);
    PrefixesSpec(es);
    var e :| e in es && Fans(e, k) && Key(e.token) == x;
    KeyPrefixesNested(e.token);
    assert Keyed(e, x);
  }

  lemma PrefixKeyShape(es: seq<Entry>, k: string)
    requires k in BuildFrom(es).prefixes
    ensures 1 <= |k| <= 2
  {
    PrefixesSpec(es);
    var e :| e in es && Fans(e, k);
  }

  lemma ShortKeyShape(es: seq<Entry>, k: string)
    requires k in BuildFrom(es).keystone && |k| < 3
    ensures k in BuildFrom(es).prefixes
  {
    KeystoneSpec(es);
    PrefixesSpec(es);
    var e :| e in es && Keyed(e, k);
    KeyPrefixesNested(e.token);
    assert Fans(e, k);
  }

  /** The invariants of the built prefixes map: keys of one or two characters,
      each fanned-out key a keystone key extending it, and every keystone key
      shorter than three characters a prefixes key. */
  lemma PrefixesShape(es: seq<Entry>)
    ensures forall k :: k in BuildFrom(es).prefixes ==> 1 <= |k| <= 2
    ensures forall k, x :: k in BuildFrom(es).prefixes && x in BuildFrom(es).prefixes[k] ==>
      k <= x && x in BuildFrom(es).keystone
    ensures forall k :: k in BuildFrom(es).keystone && |k| < 3 ==> k in BuildFrom(es).prefixes
  {
    var ix := BuildFrom(es);
    forall k, x | k in ix.prefixes && x in ix.prefixes[k] ensures k <= x && x in ix.keystone {
      FanTargetShape(es, k, x);
    }
    forall k | k in ix.keystone && |k| < 3 ensures k in ix.prefixes {
      ShortKeyShape(es, k);
    }
    forall k | k in ix.prefixes ensures 1 <= |k| <= 2 {
      PrefixKeyShape(es, k);
    }
  }

  lemma BuildFromShape(es: seq<Entry>, n: nat)
    requires forall e :: e in es ==> e.pos < n
    requires forall i, j :: 0 <= i < j < |es| ==> es[i].pos <= es[j].pos
    ensures IndexOk(BuildFrom(es), n)
    ensures forall k :: k in BuildFrom(es).keystone ==> 1 <= |k| <= 3 && BuildFrom(es).keystone[k] != []
    ensures forall k :: k in BuildFrom(es).prefixes ==> 1 <= |k| <= 2
    ensures forall k, x :: k in BuildFrom(es).prefixes && x in BuildFrom(es).prefixes[k] ==> k <= x
  {
    KeystoneShape(es, n);
    PrefixesShape(es);
  }

  predicate Ascending(s: seq<nat>) {
    forall i, j :: 0 <= i < j < |s| ==> s[i] <= s[j]
  }

  predicate StrictlyAscending(s: seq<nat>) {
    forall i, j :: 0 <= i < j < |s| ==> s[i] < s[j]
  }

  lemma {:induction false} OccurrencesAscending(es: seq<Entry>, k: string)
    requires forall i, j :: 0 <= i < j < |es| ==> es[i].pos <= es[j].pos
    ensures Ascending(Occurrences(es, k))
  {
    if es != [] {
      var init, e := es[..|es| - 1], es[|es| - 1];
      OccurrencesAscending(init, k);
      var o := Occurrences(init, k);
      forall i | 0 <= i < |o| ensures o[i] <= e.pos {
        assert o[i] in o;
        var d :| d in init && Keyed(d, k) && d.pos == o[i];
        var j :| 0 <= j < |init| && init[j] == d;
      }
    }
  }

  // ---------------------------------------------------------------------------
  // termCount
  // ---------------------------------------------------------------------------

  /** The keystone list lengths summed over a fan-out list. */
  function FanCount(ks: map<string, seq<nat>>, xs: seq<string>): nat
    requires forall x :: x in xs ==> x in ks
  {
    if xs == [] then 0 else FanCount(ks, xs[..|xs| - 1]) + |ks[xs[|xs| - 1]]|
  }

  /** The termCount map: the fan-out sums are put first and the keystone loop then
      overwrites every key that is also a keystone key. */
  function TermCount(ix: Index): (tc: map<string, nat>)
    requires forall k, x :: k in ix.prefixes && x in ix.prefixes[k] ==> x in ix.keystone
    ensures tc.Keys == ix.prefixes.Keys + ix.keystone.Keys
  {
    var fan := map k | k in ix.prefixes :: FanCount(ix.keystone, ix.prefixes[k]);
    var direct := map k | k in ix.keystone :: |ix.keystone[k]|;
    fan + direct
  }

  /** All the indexes of a built matcher. */
  function BuildIndex(tls: seq<seq<string>>): (ixc: (Index, map<string, nat>))
    ensures IndexOk(ixc.0, |tls|)
    ensures ixc.1.Keys == ixc.0.prefixes.Keys + ixc.0.keystone.Keys
  {
    var es := Entries(tls);
    BuildFromShape(es, |tls|);
    var ix := BuildFrom(es);
    (ix, TermCount(ix))
  }

  // ---------------------------------------------------------------------------
  // Candidate lists
  // ---------------------------------------------------------------------------

  /** The keystone lists of a fan-out list, concatenated in order. */
  function Union(ks: map<string, seq<nat>>, xs: seq<string>): (u: seq<nat>)
    requires forall x :: x in xs ==> x in ks
    ensures forall i :: i in u <==> exists x :: x in xs && i in ks[x]
    ensures |u| == FanCount(ks, xs)
  {
    if xs == [] then []
    else
      var init, x := xs[..|xs| - 1], xs[|xs| - 1];
      assert xs == init + [x];
      Union(ks, init) + ks[x]
  }

  /** The positions search scans for the chosen prefix p: for a 1- or 2-character
      prefix, the duplicate-free union of its fanned-out keystone lists, sorted;
      for a 3-character prefix, the keystone list itself. */
  function Candidates(ix: Index, p: string): (c: seq<nat>)
    requires forall k, x :: k in ix.prefixes && x in ix.prefixes[k] ==> x in ix.keystone
    requires |p| < 3 ==> p in ix.prefixes
    requires |p| >= 3 ==> p in ix.keystone
    ensures |p| < 3 ==> StrictlyAscending(c)
    ensures |p| < 3 ==> forall i :: i in c <==> exists x :: x in ix.prefixes[p] && i in ix.keystone[x]
    ensures |p| >= 3 ==> c == ix.keystone[p]
  {
    if |p| < 3 then
      var d := Dedup(Union(ix.keystone, ix.prefixes[p]));
      var u := SortNats(d);
      SortedNoDupsStrict(u, d);
      u
    else ix.keystone[p]
  }

  lemma SortedNoDupsStrict(s: seq<nat>, d: seq<nat>)
    requires forall i, j :: 0 <= i < j < |s| ==> s[i] <= s[j]
    requires NoDups(d) && multiset(d) == multiset(s)
    ensures StrictlyAscending(s)
  {
    forall i, j | 0 <= i < j < |s| ensures s[i] < s[j] {
      if s[i] == s[j] {
        TwoOccurrences(s, i, j);
        DistinctCount(d, s[i]);
      }
    }
  }

  lemma TwoOccurrences<X>(s: seq<X>, i: nat, j: nat)
    requires i < j < |s| && s[i] == s[j]
    ensures multiset(s)[s[i]] >= 2
  {
    assert s == s[..i] + [s[i]] + s[i + 1..j] + [s[j]] + s[j + 1..];
  }

  lemma {:induction false} DistinctCount<X>(d: seq<X>, x: X)
    requires NoDups(d)
    ensures multiset(d)[x] <= 1
  {
    if d != [] {
      assert d == [d[0]] + d[1..];
      assert NoDups(d[1..]);
      DistinctCount(d[1..], x);
      if d[0] == x {
        assert x !in d[1..];
      }
    }
  }

  // ---------------------------------------------------------------------------
  // What the index answers
  // ---------------------------------------------------------------------------

  /** Entry e holds a token that starts with p. */
  predicate Starts(e: Entry, p: string) {
    e.token != [] && p <= e.token
  }

  lemma StartsKeyed(e: Entry, p: string)
    requires |p| == 3
    ensures Starts(e, p) <==> Keyed(e, p)
  {
  }

  lemma StartsFans(e: Entry, p: string)
    requires 1 <= |p| <= 2
    ensures Starts(e, p) <==> Fans(e, p)
  {
  }

  /** A prefix of one to three characters has a termCount entry exactly when some
      indexed token starts with it. */
  lemma TermCountKeys(tls: seq<seq<string>>, p: string)
    requires 1 <= |p| <= 3
    ensures p in BuildIndex(tls).1 <==> exists e :: e in Entries(tls) && Starts(e, p)
  {
    var es := Entries(tls);
    KeystoneSpec(es);
    PrefixesSpec(es);
    PrefixesShape(es);
    if |p| == 3 {
      forall e | e in es ensures Starts(e, p) <==> Keyed(e, p) {
        StartsKeyed(e, p);
      }
    } else {
      forall e | e in es ensures Starts(e, p) <==> Fans(e, p) {
        StartsFans(e, p);
      }
    }
  }

  /** The candidate list of a termCount key holds exactly the positions of the
      records with a token starting with that key. */
  lemma CandidatesSpec(tls: seq<seq<string>>, p: string)
    requires 1 <= |p| <= 3 && p in BuildIndex(tls).1
    ensures |p| < 3 ==> p in BuildIndex(tls).0.prefixes
    ensures |p| == 3 ==> p in BuildIndex(tls).0.keystone
    ensures forall i :: i in Candidates(BuildIndex(tls).0, p) <==> exists e :: e in Entries(tls) && Starts(e, p) && e.pos == i
  {
    var es := Entries(tls);
    var ix := BuildIndex(tls).0;
    KeystoneSpec(es);
    PrefixesSpec(es);
    PrefixesShape(es);
    if |p| == 3 {
      forall e | e in es ensures Starts(e, p) <==> Keyed(e, p) {
        StartsKeyed(e, p);
      }
    } else {
      ShortCandidates(es, p);
    }
  }

  lemma ShortCandidatesSound(es: seq<Entry>, p: string, i: nat)
    requires 1 <= |p| <= 2 && p in BuildFrom(es).prefixes
    requires forall k, x :: k in BuildFrom(es).prefixes && x in BuildFrom(es).prefixes[k] ==> x in BuildFrom(es).keystone
    requires i in Union(BuildFrom(es).keystone, BuildFrom(es).prefixes[p])
    ensures exists e :: e in es && Starts(e, p) && e.pos == i
  {
    var ix := BuildFrom(es);
    KeystoneSpec(es);
    PrefixesSpec(es);
    var x :| x in ix.prefixes[p] && i in ix.keystone[x];
    var f :| f in es && Fans(f, p) && Key(f.token) == x;
    assert i in Occurrences(es, x);
    var e :| e in es && Keyed(e, x) && e.pos == i;
    FanThenKey(f, e, p);
  }

  /** A position filed under a key that p fans out to has a token starting with p. */
  lemma FanThenKey(f: Entry, e: Entry, p: string)
    requires Fans(f, p) && Keyed(e, Key(f.token))
    ensures Starts(e, p)
  {
    KeyPrefixesNested(f.token);
    KeyPrefixesNested(e.token);
    PrefixTrans(p, Key(f.token), e.token);
  }

  lemma PrefixTrans<X>(a: seq<X>, b: seq<X>, c: seq<X>)
    requires a <= b && b <= c
    ensures a <= c
  {
    assert c[..|a|] == b[..|a|];
  }

  lemma ShortCandidatesComplete(es: seq<Entry>, p: string, e: Entry)
    requires 1 <= |p| <= 2 && p in BuildFrom(es).prefixes
    requires forall k, x :: k in BuildFrom(es).prefixes && x in BuildFrom(es).prefixes[k] ==> x in BuildFrom(es).keystone
    requires e in es && Starts(e, p)
    ensures e.pos in Union(BuildFrom(es).keystone, BuildFrom(es).prefixes[p])
  {
    var ix := BuildFrom(es);
    KeystoneSpec(es);
    PrefixesSpec(es);
    StartsFans(e, p);
    var x := Key(e.token);
    assert x in ix.prefixes[p];
    assert e.pos in Occurrences(es, x);
  }

  lemma ShortCandidates(es: seq<Entry>, p: string)
    requires 1 <= |p| <= 2 && p in BuildFrom(es).prefixes
    requires forall k, x :: k in BuildFrom(es).prefixes && x in BuildFrom(es).prefixes[k] ==> x in BuildFrom(es).keystone
    ensures forall i :: i in Candidates(BuildFrom(es), p) <==> exists e :: e in es && Starts(e, p) && e.pos == i
  {
    var ix := BuildFrom(es);
    var u := Union(ix.keystone, ix.prefixes[p]);
    var c := Candidates(ix, p);
    assert forall i :: i in c <==> i in multiset(c);
    assert forall i :: i in c <==> i in u;
    forall i | i in u ensures exists e :: e in es && Starts(e, p) && e.pos == i {
      ShortCandidatesSound(es, p, i);
    }
    forall e | e in es && Starts(e, p) ensures e.pos in u {
      ShortCandidatesComplete(es, p, e);
    }
  }

  /** For a 3-character key, termCount is exactly the length of the list scanned. */
  lemma TermCountExact(tls: seq<seq<string>>, p: string)
    requires |p| == 3 && p in BuildIndex(tls).1
    ensures p in BuildIndex(tls).0.keystone
    ensures BuildIndex(tls).1[p] == |Candidates(BuildIndex(tls).0, p)|
  {
    PrefixesShape(Entries(tls));
  }

  /** For a 1- or 2-character key that is not a whole token, termCount never
      undercounts the list scanned: the fan-out sum counts every position of every
      fanned-out list, repeats included. */
  lemma TermCountOver(tls: seq<seq<string>>, p: string)
    requires 1 <= |p| <= 2 && p in BuildIndex(tls).1 && p !in BuildIndex(tls).0.keystone
    ensures p in BuildIndex(tls).0.prefixes
    ensures BuildIndex(tls).1[p] >= |Candidates(BuildIndex(tls).0, p)|
  {
    var ix := BuildIndex(tls).0;
    var u := Union(ix.keystone, ix.prefixes[p]);
    var d := Dedup(u);
    assert |SortNats(d)| == |multiset(SortNats(d))| == |multiset(d)| == |d|;
  }

  lemma ExampleEntries()
    ensures Entries([["a"], ["ab"]]) == [Entry(0, "a"), Entry(1, "ab")]
  {
    var tls := [["a"], ["ab"]];
    assert tls[..1] == [["a"]] && [["a"]][..0] == [];
    assert Entries([["a"]]) == [Entry(0, "a")];
  }

  lemma ExampleIndex()
    ensures BuildFrom([Entry(0, "a"), Entry(1, "ab")]).keystone.Keys == {"a", "ab"}
    ensures BuildFrom([Entry(0, "a"), Entry(1, "ab")]).keystone["a"] == [0]
    ensures BuildFrom([Entry(0, "a"), Entry(1, "ab")]).keystone["ab"] == [1]
    ensures "a" in BuildFrom([Entry(0, "a"), Entry(1, "ab")]).prefixes
    ensures BuildFrom([Entry(0, "a"), Entry(1, "ab")]).prefixes["a"] == ["a", "ab"]
  {
    var es := [Entry(0, "a"), Entry(1, "ab")];
    assert es[..1] == [Entry(0, "a")] && es[..1][..0] == [];
    assert "a"[..1] == "a" && "ab"[..1] == "a" && "ab"[..2] == "ab";
    assert KeyPrefixes("a") == ("a", "a", "a");
    assert KeyPrefixes("ab") == ("a", "ab", "ab");
    var ks0: map<string, seq<nat>> := map[];
    var ps0: map<string, seq<string>> := map[];
    assert Lookup(ks0, "a") == [] && Lookup(ps0, "a") == [];
    assert AddUnique([], "a") == ["a"];
    var ix1 := AddEntry(Index(ks0, ps0), Entry(0, "a"));
    assert BuildFrom(es[..1]) == ix1;
    assert ix1.keystone.Keys == {"a"} && ix1.keystone["a"] == [] + [0] == [0];
    assert ix1.prefixes == map["a" := ["a"]];
    assert Lookup(ix1.keystone, "ab") == [];
    assert BuildFrom(es) == AddEntry(ix1, Entry(1, "ab"));
  }

  lemma ExampleUnion(ks: map<string, seq<nat>>)
    requires ks.Keys == {"a", "ab"} && ks["a"] == [0] && ks["ab"] == [1]
    ensures |SortNats(Dedup(Union(ks, ["a", "ab"])))| == 2
  {
    var u := Union(ks, ["a", "ab"]);
    assert ["a", "ab"][..1] == ["a"] && ["a"][..0] == [];
    assert Union(ks, []) == [];
    assert Union(ks, ["a"]) == [] + [0] == [0];
    assert u == Union(ks, ["a"]) + [1] == [0, 1];
    assert [0, 1][..1] == [0] && [0][..0] == [];
    var d := Dedup(u);
    assert d == [0, 1];
    var c := SortNats(d);
    assert |c| == |multiset(c)| == |multiset(d)| == 2;
  }

  /** When a 1- or 2-character key is also a whole token, its keystone length
      overwrites the fan-out sum and termCount can undercount: with records "a" and
      "ab", the key "a" counts 1 but scans 2 positions. */
  lemma TermCountUnder()
    ensures "a" in BuildIndex([["a"], ["ab"]]).1
    ensures BuildIndex([["a"], ["ab"]]).1["a"] == 1
    ensures |Candidates(BuildIndex([["a"], ["ab"]]).0, "a")| == 2
  {
    ExampleEntries();
    ExampleIndex();
    var ix := BuildIndex([["a"], ["ab"]]).0;
    var c := Candidates(ix, "a");
    var d := Dedup(Union(ix.keystone, ix.prefixes["a"]));
    assert c == SortNats(d);
    ExampleUnion(ix.keystone);
  }

  // ---------------------------------------------------------------------------
  // Repeated positions
  // ---------------------------------------------------------------------------

  /** No record has two tokens with the same keystone key. */
  ghost predicate DistinctKeys(tls: seq<seq<string>>) {
    forall i, a, b :: 0 <= i < |tls| && 0 <= a < b < |tls[i]| && tls[i][a] != [] && tls[i][b] != [] ==>
      Key(tls[i][a]) != Key(tls[i][b])
  }

  lemma {:induction false} OccurrencesAppend(a: seq<Entry>, b: seq<Entry>, k: string)
    ensures Occurrences(a + b, k) == Occurrences(a, k) + Occurrences(b, k)
    decreases |b|
  {
    if b != [] {
      var init, e := b[..|b| - 1], b[|b| - 1];
      assert a + b == (a + init) + [e];
      assert (a + b)[..|a + b| - 1] == a + init;
      OccurrencesAppend(a, init, k);
    } else {
      assert a + b == a;
    }
  }

  lemma {:induction false} RowOccurrences(n: nat, tokens: seq<string>, k: string)
    requires forall a, b :: 0 <= a < b < |tokens| && tokens[a] != [] && tokens[b] != [] ==> Key(tokens[a]) != Key(tokens[b])
    ensures |Occurrences(Row(n, tokens), k)| <= 1
  {
    if tokens != [] {
      var init := tokens[..|tokens| - 1];
      var row := Row(n, tokens);
      assert row == Row(n, init) + [Entry(n, tokens[|tokens| - 1])];
      assert row[..|row| - 1] == Row(n, init);
      RowOccurrences(n, init, k);
    }
  }

  /** Without a record repeating a key, every keystone list is strictly ascending,
      so even the 3-character path scans each record at most once. */
  lemma {:induction false} DistinctKeysStrict(tls: seq<seq<string>>, k: string)
    requires DistinctKeys(tls)
    ensures StrictlyAscending(Occurrences(Entries(tls), k))
  {
    if tls != [] {
      var n := |tls| - 1;
      var init := tls[..n];
      assert DistinctKeys(init) by {
        forall i, a, b | 0 <= i < |init| && 0 <= a < b < |init[i]| && init[i][a] != [] && init[i][b] != []
          ensures Key(init[i][a]) != Key(init[i][b])
        {
          assert init[i] == tls[i];
        }
      }
      DistinctKeysStrict(init, k);
      OccurrencesAppend(Entries(init), Row(n, tls[n]), k);
      RowOccurrences(n, tls[n], k);
      var o1, o2 := Occurrences(Entries(init), k), Occurrences(Row(n, tls[n]), k);
      forall i | 0 <= i < |o1| ensures o1[i] < n {
        assert o1[i] in o1;
      }
      forall i | 0 <= i < |o2| ensures o2[i] == n {
        assert o2[i] in o2;
      }
    }
  }
}
