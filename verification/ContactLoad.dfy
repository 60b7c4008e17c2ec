/** What a bulk load makes of a list of contacts, and when saving and loading
    gives back the same store. */
module ContactLoad {
  import opened Options
  import opened Recency
  import opened ContactStore

  function KeySet(cs: seq<Contact>): set<Key> {
    set c <- cs :: c.publicKey
  }

  /** The position of the first contact with the key, or the length. */
  function First(cs: seq<Contact>, k: Key): (i: nat)
    ensures i <= |cs|
    ensures i < |cs| ==> cs[i].publicKey == k
    ensures forall j :: 0 <= j < i ==> cs[j].publicKey != k
  {
    if cs == [] || cs[0].publicKey == k then 0 else 1 + First(cs[1..], k)
  }

  predicate IsLast(cs: seq<Contact>, i: nat)
    requires i < |cs|
  {
    forall j :: i < j < |cs| ==> cs[j].publicKey != cs[i].publicKey
  }

  /** The keys of the contacts, once each in the order they first appear, every
      key with the last contact that has it. */
  ghost predicate Reflects(s: Table, cs: seq<Contact>) {
    && |s| == |KeySet(cs)| && Distinct(s)
    && (forall i :: 0 <= i < |cs| && IsLast(cs, i) ==> ByKey(cs[i]) in s)
    && (forall k :: Has(s, k) <==> k in KeySet(cs))
    && (forall a, b :: 0 <= a < b < |s| ==> First(cs, s[a].key) < First(cs, s[b].key))
  }

  lemma {:induction false} PutShape(s: Table, e: Entry<Key, Contact>) returns (j: nat)
    ensures j <= |s|
    ensures Has(s, e.key) ==> j < |s| && s[j].key == e.key && Put(s, e) == s[j := e]
    ensures !Has(s, e.key) ==> Put(s, e) == s + [e]
  {
    if s == [] {
      j := 0;
    } else {
      HasTail(s, e.key);
      if s[0].key == e.key {
        j := 0;
        assert Put(s, e) == s[0 := e];
      } else {
        var i := PutShape(s[1..], e);
        j := if Has(s[1..], e.key) then i + 1 else 0;
        assert s == [s[0]] + s[1..];
      }
    }
  }

  lemma KeySetSnoc(cs: seq<Contact>, c: Contact)
    ensures KeySet(cs + [c]) == KeySet(cs) + {c.publicKey}
  {
    forall k | k in KeySet(cs) + {c.publicKey} ensures k in KeySet(cs + [c]) {
      if k == c.publicKey { assert (cs + [c])[|cs|] == c; }
      else { var x :| x in cs && x.publicKey == k; assert x in cs + [c]; }
    }
  }

  lemma FirstSnoc(cs: seq<Contact>, c: Contact, k: Key)
    ensures k in KeySet(cs) ==> First(cs + [c], k) == First(cs, k) < |cs|
    ensures k !in KeySet(cs) ==> First(cs + [c], k) >= |cs|
  {
    var all := cs + [c];
    if k in KeySet(cs) {
      var x :| x in cs && x.publicKey == k;
      var i :| 0 <= i < |cs| && cs[i] == x;
      assert all[First(cs, k)].publicKey == k;
    }
    assert forall i :: 0 <= i < |cs| ==> all[i] == cs[i];
  }

  lemma PutReflects(s: Table, cs: seq<Contact>, c: Contact)
    requires Reflects(s, cs)
    ensures Reflects(Put(s, ByKey(c)), cs + [c])
  {
    var e, r, all := ByKey(c), Put(s, ByKey(c)), cs + [c];
    var j := PutShape(s, e);
    PutDistinct(s, e);
    KeySetSnoc(cs, c);
    forall i | 0 <= i < |all| && IsLast(all, i) ensures ByKey(all[i]) in r { LastStays(s, cs, c, i, j); }
    forall a, b | 0 <= a < b < |r| ensures First(all, r[a].key) < First(all, r[b].key) {
      OrderStays(s, cs, c, r, a, b);
    }
  }

  lemma LastStays(s: Table, cs: seq<Contact>, c: Contact, i: nat, j: nat)
    requires Reflects(s, cs) && i < |cs + [c]| && IsLast(cs + [c], i)
    requires j <= |s|
    requires Has(s, c.publicKey) ==> j < |s| && s[j].key == c.publicKey && Put(s, ByKey(c)) == s[j := ByKey(c)]
    requires !Has(s, c.publicKey) ==> Put(s, ByKey(c)) == s + [ByKey(c)]
    ensures ByKey((cs + [c])[i]) in Put(s, ByKey(c))
  {
    var r, all := Put(s, ByKey(c)), cs + [c];
    if i == |cs| {
      assert r[if Has(s, c.publicKey) then j else |s|] == ByKey(c);
    } else {
      assert all[|cs|] == c && c.publicKey != cs[i].publicKey;
      assert IsLast(cs, i) by {
        forall m | i < m < |cs| ensures cs[m].publicKey != cs[i].publicKey { assert all[m] == cs[m]; }
      }
      var m :| 0 <= m < |s| && s[m] == ByKey(cs[i]);
      assert r[m] == s[m];
    }
  }

  lemma OrderStays(s: Table, cs: seq<Contact>, c: Contact, r: Table, a: nat, b: nat)
    requires Reflects(s, cs) && r == Put(s, ByKey(c)) && a < b < |r|
    ensures First(cs + [c], r[a].key) < First(cs + [c], r[b].key)
  {
    var j := PutShape(s, ByKey(c));
    assert forall m :: 0 <= m < |s| ==> r[m].key == s[m].key;
    assert Has(s, s[a].key);
    FirstSnoc(cs, c, r[a].key);
    FirstSnoc(cs, c, r[b].key);
    if b < |s| { assert Has(s, s[b].key); }
  }

  /** The first `n` contacts are loaded: all of them, or as many as it takes to
      fill the store and no more. */
  ghost predicate LoadsPrefix(s: Table, cs: seq<Contact>, n: nat, max: nat) {
    && n <= |cs| && Reflects(s, cs[..n])
    && (n == |cs| || |KeySet(cs[..n])| == max)
    && forall m :: 0 <= m < n ==> |KeySet(cs[..m])| < max
  }

  lemma {:induction false} LoadFollows(s: Table, cs: seq<Contact>, i: nat, max: nat) returns (n: nat)
    requires i <= |cs| && Reflects(s, cs[..i]) && |s| <= max
    requires forall m :: 0 <= m < i ==> |KeySet(cs[..m])| < max
    ensures LoadsPrefix(Loaded(s, cs[i..], max), cs, n, max)
    decreases |cs| - i
  {
    hide Reflects, KeySet, Put;
    if i == |cs| || |s| >= max {
      ReflectsSize(s, cs[..i]);
      return i;
    }
    ReflectsSize(s, cs[..i]);
    assert cs[..i + 1] == cs[..i] + [cs[i]];
    PutReflects(s, cs[..i], cs[i]);
    assert cs[i..][0] == cs[i] && cs[i..][1..] == cs[i + 1..];
    ReflectsSize(Put(s, ByKey(cs[i])), cs[..i + 1]);
    PutGrows(s, ByKey(cs[i]));
    n := LoadFollows(Put(s, ByKey(cs[i])), cs, i + 1, max);
  }

  lemma ReflectsSize(s: Table, cs: seq<Contact>)
    requires Reflects(s, cs)
    ensures |KeySet(cs)| == |s|
  {}

  lemma {:induction false} PutGrows(s: Table, e: Entry<Key, Contact>)
    ensures |Put(s, e)| <= |s| + 1
  {
    if s != [] { PutGrows(s[1..], e); }
  }

  /** For every list of contacts and every limit, a load stores the contacts of
      a prefix, each key with the last contact of the prefix that has it, in the
      order the keys first appear; the prefix is the whole list or the shortest
      one with as many keys as the limit. */
  lemma LoadIsPrefix(cs: seq<Contact>, max: nat)
    ensures exists n :: LoadsPrefix(Loaded([], cs, max), cs, n, max)
  {
    assert cs[..0] == [] && cs[0..] == cs;
    assert Reflects([], []);
    var n := LoadFollows([], cs, 0, max);
  }

  // ----- Saving and loading -----

  predicate DifferentKeys(cs: seq<Contact>) {
    forall i, j :: 0 <= i < j < |cs| ==> cs[i].publicKey != cs[j].publicKey
  }

  /** Contacts with keys of their own are loaded in order, as many as fit. */
  lemma {:induction false} LoadKeepsOrder(s: Table, cs: seq<Contact>, max: nat)
    requires DifferentKeys(cs) && forall c <- cs :: !Has(s, c.publicKey)
    requires |s| <= max
    ensures var r := Loaded(s, cs, max);
            var n := if |s| + |cs| <= max then |cs| else max - |s|;
            && |r| == |s| + n && r[..|s|] == s
            && forall i :: 0 <= i < n ==> r[|s| + i] == ByKey(cs[i])
    decreases |cs|
  {
    if cs != [] && |s| < max {
      assert cs[0] in cs;
      var j := PutShape(s, ByKey(cs[0]));
      var s', rest := s + [ByKey(cs[0])], cs[1..];
      forall c | c in rest ensures !Has(s', c.publicKey) {
        var i :| 0 <= i < |rest| && rest[i] == c;
        assert cs[i + 1] == c && c in cs;
        HasAppend(s, [ByKey(cs[0])], c.publicKey);
      }
      LoadKeepsOrder(s', rest, max);
      var r := Loaded(s', rest, max);
      assert r[..|s|] == r[..|s'|][..|s|];
      assert r[|s|] == r[..|s'|][|s|];
      var n := if |s| + |cs| <= max then |cs| else max - |s|;
      forall i | 0 <= i < n ensures r[|s| + i] == ByKey(cs[i]) {
        if i > 0 { assert r[|s'| + (i - 1)] == ByKey(rest[i - 1]); }
      }
    }
  }

  /** What is saved: the contacts that are not transient, in order. */
  function Saved(s: Table): seq<Contact> {
    if s == [] then [] else (if Real(s[0].value) then [s[0].value] else []) + Saved(s[1..])
  }

  /** The store without its transient contacts. */
  function Kept(s: Table): Table {
    if s == [] then [] else (if Real(s[0].value) then [s[0]] else []) + Kept(s[1..])
  }

  lemma {:induction false} SavedIsKept(s: Table)
    requires Sound(s)
    ensures |Saved(s)| == |Kept(s)| == RealCount(s)
    ensures forall i :: 0 <= i < |Saved(s)| ==> ByKey(Saved(s)[i]) == Kept(s)[i]
    ensures forall c <- Saved(s) :: Has(s, c.publicKey)
    ensures DifferentKeys(Saved(s))
  {
    if s != [] {
      var rest := s[1..];
      assert Sound(rest) by { assert forall e <- rest :: e in s; }
      SavedIsKept(rest);
      HasTails(s);
      assert s[0] in s && !Has(rest, s[0].key);
      forall c | c in Saved(rest) ensures c.publicKey != s[0].key {}
      if Real(s[0].value) {
        var all := Saved(s);
        forall i, j | 0 <= i < j < |all| ensures all[i].publicKey != all[j].publicKey {
          assert all[j] == Saved(rest)[j - 1] && all[j] in Saved(rest);
        }
      }
    }
  }

  /** Loading what was saved gives back the store without its transient contacts,
      in the same order, exactly when the store has at most `max` others. */
  lemma ReloadRestoresIff(s: Table, max: nat)
    requires Sound(s)
    ensures Loaded([], Saved(s), max) == Kept(s) <==> RealCount(s) <= max
  {
    hide Loaded, Kept, Saved, RealCount;
    SavedIsKept(s);
    LoadKeepsOrder([], Saved(s), max);
  }
}
