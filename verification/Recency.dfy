/** Insertion-ordered tables: a sequence of entries with distinct keys, oldest
    first, as `OrderedDict` and the deques of the caches keep them. */
module Recency {
  datatype Entry<K, V> = Entry(key: K, value: V)

  predicate Has<K(==), V>(s: seq<Entry<K, V>>, k: K) {
    exists i :: 0 <= i < |s| && s[i].key == k
  }

  predicate Distinct<K(==), V>(s: seq<Entry<K, V>>) {
    forall i, j :: 0 <= i < j < |s| ==> s[i].key != s[j].key
  }

  function Remove<K(==), V>(s: seq<Entry<K, V>>, k: K): (r: seq<Entry<K, V>>)
    ensures |r| <= |s|
  {
    if s == [] then [] else (if s[0].key == k then [] else [s[0]]) + Remove(s[1..], k)
  }

  /** Assign and move to the end. */
  function Touch<K(==), V>(s: seq<Entry<K, V>>, e: Entry<K, V>): seq<Entry<K, V>> {
    Remove(s, e.key) + [e]
  }

  /** The reference reading of a history: of every key its latest entry, in the
      order of these latest entries. */
  function Latest<K(==), V>(h: seq<Entry<K, V>>): seq<Entry<K, V>> {
    if h == [] then []
    else (if Has(h[1..], h[0].key) then [] else [h[0]]) + Latest(h[1..])
  }

  function LastN<T>(s: seq<T>, n: nat): seq<T> {
    if |s| <= n then s else s[|s| - n..]
  }

  lemma {:induction false} RemoveAbsent<K, V>(s: seq<Entry<K, V>>, k: K)
    requires !Has(s, k)
    ensures Remove(s, k) == s
  {
    if s != [] {
      assert s[0].key != k;
      HasTail(s, k);
      RemoveAbsent(s[1..], k);
    }
  }

  lemma HasTail<K, V>(s: seq<Entry<K, V>>, k: K)
    requires s != []
    ensures Has(s, k) <==> s[0].key == k || Has(s[1..], k)
  {
    if Has(s, k) {
      var i :| 0 <= i < |s| && s[i].key == k;
      if i > 0 { assert s[1..][i - 1].key == k; }
    }
    if Has(s[1..], k) {
      var i :| 0 <= i < |s[1..]| && s[1..][i].key == k;
      assert s[i + 1].key == k;
    }
  }

  lemma HasAppend<K, V>(a: seq<Entry<K, V>>, b: seq<Entry<K, V>>, k: K)
    ensures Has(a + b, k) <==> Has(a, k) || Has(b, k)
  {
    if Has(a + b, k) {
      var i :| 0 <= i < |a + b| && (a + b)[i].key == k;
      if i < |a| { assert a[i].key == k; } else { assert b[i - |a|].key == k; }
    }
    if Has(a, k) {
      var i :| 0 <= i < |a| && a[i].key == k;
      assert (a + b)[i].key == k;
    }
    if Has(b, k) {
      var i :| 0 <= i < |b| && b[i].key == k;
      assert (a + b)[|a| + i].key == k;
    }
  }

  lemma {:induction false} HasRemove<K, V>(s: seq<Entry<K, V>>, k: K, q: K)
    ensures Has(Remove(s, k), q) <==> Has(s, q) && q != k
  {
    if s != [] {
      HasTail(s, q);
      HasRemove(s[1..], k, q);
      if s[0].key != k {
        assert Remove(s, k) == [s[0]] + Remove(s[1..], k);
        HasTail(Remove(s, k), q);
      } else {
        assert Remove(s, k) == Remove(s[1..], k);
      }
    }
  }

  lemma {:induction false} RemoveMember<K, V>(s: seq<Entry<K, V>>, k: K, e: Entry<K, V>)
    ensures e in Remove(s, k) <==> e in s && e.key != k
  {
    if s != [] { RemoveMember(s[1..], k, e); }
  }

  lemma {:induction false} RemoveDistinct<K, V>(s: seq<Entry<K, V>>, k: K)
    requires Distinct(s)
    ensures Distinct(Remove(s, k)) && |Remove(s, k)| == |s| - (if Has(s, k) then 1 else 0)
  {
    if s != [] {
      var rest := s[1..];
      HasTail(s, k);
      RemoveDistinct(rest, k);
      if s[0].key == k {
        assert !Has(rest, k);
      } else {
        var r := Remove(rest, k);
        HasRemove(rest, k, s[0].key);
        assert !Has(rest, s[0].key);
        assert Remove(s, k) == [s[0]] + r;
        forall j | 0 <= j < |r| ensures r[j].key != s[0].key {}
      }
    }
  }

  lemma TouchDistinct<K, V>(s: seq<Entry<K, V>>, e: Entry<K, V>)
    requires Distinct(s)
    ensures Distinct(Touch(s, e))
    ensures |Touch(s, e)| == |s| + (if Has(s, e.key) then 0 else 1)
  {
    RemoveDistinct(s, e.key);
    var r := Remove(s, e.key);
    HasRemove(s, e.key, e.key);
    forall i | 0 <= i < |r| ensures r[i].key != e.key {}
  }

  lemma {:induction false} RemoveAppend<K, V>(a: seq<Entry<K, V>>, b: seq<Entry<K, V>>, k: K)
    ensures Remove(a + b, k) == Remove(a, k) + Remove(b, k)
  {
    if a == [] {
      assert a + b == b;
    } else {
      assert (a + b)[0] == a[0] && (a + b)[1..] == a[1..] + b;
      RemoveAppend(a[1..], b, k);
    }
  }

  lemma DropFront<T>(f: seq<T>, s: seq<T>, k: nat)
    requires k <= |s|
    ensures (f + s)[|f| + k..] == s[k..]
  {}

  lemma LastJoined<T>(f: seq<T>, b: seq<T>, e: T, limit: nat)
    requires limit > 0 && |b| <= limit && (f != [] ==> |b| >= limit - 1)
    ensures (if |b| >= limit then b[1..] else b) + [e] == LastN(f + (b + [e]), limit)
  {
    var be := b + [e];
    if |b| == limit {
      DropFront(f, be, 1);
      assert be[1..] == b[1..] + [e];
    } else if f == [] {
      assert f + be == be;
    } else {
      DropFront(f, be, 0);
      assert be[0..] == be;
    }
  }

  /** Making room in the last entries and appending is touching all of them and
      keeping the last. */
  lemma LastTouched<K, V>(s: seq<Entry<K, V>>, e: Entry<K, V>, limit: nat)
    requires limit > 0 && Distinct(s)
    ensures var b := Remove(LastN(s, limit), e.key);
            (if |b| >= limit then b[1..] else b) + [e] == LastN(Touch(s, e), limit)
  {
    hide Remove;
    var o := |s| - |LastN(s, limit)|;
    var front, back := s[..o], s[o..];
    assert s == front + back && back == LastN(s, limit);
    RemoveAppend(front, back, e.key);
    RemoveDistinct(back, e.key);
    var f, b := Remove(front, e.key), Remove(back, e.key);
    assert Touch(s, e) == f + (b + [e]);
    if front == [] { RemoveAbsent(front, e.key); }
    hide LastN;
    LastJoined(f, b, e, limit);
  }

  /** One more operation on a history touches its reading. */
  lemma {:induction false} LatestSnoc<K, V>(h: seq<Entry<K, V>>, e: Entry<K, V>)
    ensures Latest(h + [e]) == Touch(Latest(h), e)
  {
    if h == [] {
      assert h + [e] == [e];
      assert !Has<K, V>([], e.key);
    } else {
      var rest := h[1..];
      assert (h + [e])[0] == h[0] && (h + [e])[1..] == rest + [e];
      LatestSnoc(rest, e);
      HasAppend(rest, [e], h[0].key);
      assert Has([e], h[0].key) <==> h[0].key == e.key by { assert [e][0] == e; }
      var head := if Has(rest, h[0].key) then [] else [h[0]];
      RemoveAppend(head, Latest(rest), e.key);
      assert Latest(h) == head + Latest(rest);
    }
  }

  lemma {:induction false} LatestHas<K, V>(h: seq<Entry<K, V>>, k: K)
    ensures Has(Latest(h), k) <==> Has(h, k)
  {
    if h != [] {
      HasTail(h, k);
      LatestHas(h[1..], k);
      if !Has(h[1..], h[0].key) {
        assert Latest(h) == [h[0]] + Latest(h[1..]);
        HasTail(Latest(h), k);
      } else {
        assert Latest(h) == Latest(h[1..]);
      }
    }
  }

  lemma {:induction false} LatestMember<K, V>(h: seq<Entry<K, V>>, e: Entry<K, V>)
    requires e in Latest(h)
    ensures e in h
  {
    if h != [] && e != h[0] {
      LatestMember(h[1..], e);
    }
  }

  lemma {:induction false} LatestDistinct<K, V>(h: seq<Entry<K, V>>)
    ensures Distinct(Latest(h))
  {
    if h != [] {
      var rest := Latest(h[1..]);
      LatestDistinct(h[1..]);
      if !Has(h[1..], h[0].key) {
        LatestHas(h[1..], h[0].key);
        assert Latest(h) == [h[0]] + rest;
        forall j | 0 <= j < |rest| ensures rest[j].key != h[0].key {}
      }
    }
  }

  // ----- Plain dictionary assignment -----

  /** `d[k] = v`: in place for a known key, at the end for a new one. */
  function Put<K(==), V>(s: seq<Entry<K, V>>, e: Entry<K, V>): seq<Entry<K, V>> {
    if s == [] then [e]
    else if s[0].key == e.key then [e] + s[1..]
    else [s[0]] + Put(s[1..], e)
  }

  /** The table as a map. */
  function AsMap<K(==,!new), V>(s: seq<Entry<K, V>>): (m: map<K, V>)
    ensures forall k :: k in m <==> Has(s, k)
  {
    if s == [] then map[] else HasTails(s); AsMap(s[1..])[s[0].key := s[0].value]
  }

  lemma HasTails<K(!new), V>(s: seq<Entry<K, V>>)
    requires s != []
    ensures forall k :: Has(s, k) <==> s[0].key == k || Has(s[1..], k)
  {
    forall k ensures Has(s, k) <==> s[0].key == k || Has(s[1..], k) { HasTail(s, k); }
  }

  lemma {:induction false} PutMap<K(!new), V>(s: seq<Entry<K, V>>, e: Entry<K, V>)
    ensures AsMap(Put(s, e)) == AsMap(s)[e.key := e.value]
  {
    if s != [] && s[0].key != e.key {
      PutMap(s[1..], e);
      assert Put(s, e)[1..] == Put(s[1..], e);
    }
  }

  lemma {:induction false} PutDistinct<K(!new), V>(s: seq<Entry<K, V>>, e: Entry<K, V>)
    requires Distinct(s)
    ensures Distinct(Put(s, e)) && |Put(s, e)| == |s| + (if Has(s, e.key) then 0 else 1)
    ensures forall k :: Has(Put(s, e), k) <==> k == e.key || Has(s, k)
  {
    if s == [] {
      forall k ensures Has([e], k) <==> k == e.key { assert [e][0] == e; }
    } else {
      var rest := s[1..];
      HasTails(s);
      assert Distinct(rest);
      if s[0].key == e.key {
        HasTails([e] + rest);
        assert ([e] + rest)[1..] == rest;
      } else {
        PutDistinct(rest, e);
        var p := Put(rest, e);
        HasTails([s[0]] + p);
        assert ([s[0]] + p)[1..] == p;
        assert !Has(rest, s[0].key);
        forall j | 0 <= j < |p| ensures p[j].key != s[0].key {}
      }
    }
  }

  lemma PutThenDrop<K, V>(m: map<K, V>, a: K, v: V, k: K)
    ensures m[a := v] - {k} == if a == k then m - {k} else (m - {k})[a := v]
  {}

  lemma {:induction false} RemoveMap<K(!new), V>(s: seq<Entry<K, V>>, k: K)
    ensures AsMap(Remove(s, k)) == AsMap(s) - {k}
  {
    if s != [] {
      var rest := s[1..];
      RemoveMap(rest, k);
      PutThenDrop(AsMap(rest), s[0].key, s[0].value, k);
      if s[0].key == k {
        assert Remove(s, k) == Remove(rest, k);
      } else {
        var r := Remove(rest, k);
        assert Remove(s, k) == [s[0]] + r;
        assert ([s[0]] + r)[1..] == r;
      }
    }
  }

  /** A key has one entry. */
  lemma {:induction false} MapOfMember<K(!new), V>(s: seq<Entry<K, V>>, i: nat)
    requires Distinct(s) && i < |s|
    ensures Has(s, s[i].key) && AsMap(s)[s[i].key] == s[i].value
    decreases |s|
  {
    assert s[i].key == s[i].key;
    if i > 0 {
      assert s[1..][i - 1] == s[i];
      MapOfMember(s[1..], i - 1);
    }
  }
}
