/** The companion's contact store: two insertion-ordered dictionaries, contacts
    and their handler-facing proxies, with a cap on contacts, favourites that
    are never evicted, and a small pool of transient (anonymous) contacts. */
module ContactStore {
  import opened Options
  import opened Recency

  type Key = seq<int>

  const TYPE_NONE := 0
  const MAX_ANON_CONTACTS: nat := 8
  const LASTMOD_CEILING := 0xFFFF_FFFF

  datatype Contact = Contact(
    publicKey: Key, name: string, advType: int, flags: int, outPathLen: int, outPath: seq<int>,
    lastAdvert: int, lastmod: int, lat: real, lon: real, syncSince: int, advertPacket: Option<seq<int>>)

  /** A contact as the mesh handlers see it: without its last advert packet. */
  datatype Proxy = Proxy(
    publicKey: Key, name: string, kind: int, flags: int, outPath: seq<int>, outPathLen: int,
    syncSince: int, lastAdvert: int, lastmod: int, lat: real, lon: real)

  function ProxyOf(c: Contact): Proxy {
    Proxy(c.publicKey, c.name, c.advType, c.flags, c.outPath, c.outPathLen,
          c.syncSince, c.lastAdvert, c.lastmod, c.lat, c.lon)
  }

  type Table = seq<Entry<Key, Contact>>
  type ProxyTable = seq<Entry<Key, Proxy>>

  function ByKey(c: Contact): Entry<Key, Contact> { Entry(c.publicKey, c) }

  predicate Transient(c: Contact) { c.advType == TYPE_NONE }

  predicate Real(c: Contact) { !Transient(c) }

  /** Bit 0 of the flags marks a favourite. */
  predicate Favourite(c: Contact) { c.flags % 2 == 1 }

  /** What an overwrite may evict; the search starts below 0xFFFFFFFF. */
  predicate Evictable(c: Contact) { !Favourite(c) && Real(c) && c.lastmod < LASTMOD_CEILING }

  // ----- The oldest entry of a kind -----

  /** The first entry with the smallest `lastmod` among those that qualify, or
      the length. */
  function Oldest(s: Table, qualifies: Contact -> bool): (k: nat)
    ensures k <= |s|
    ensures k == |s| ==> forall i :: 0 <= i < |s| ==> !qualifies(s[i].value)
    ensures k < |s| ==>
              && qualifies(s[k].value)
              && (forall i :: 0 <= i < |s| && qualifies(s[i].value) ==> s[k].value.lastmod <= s[i].value.lastmod)
              && (forall i :: 0 <= i < k && qualifies(s[i].value) ==> s[k].value.lastmod < s[i].value.lastmod)
  {
    if s == [] then 0
    else
      var n := |s| - 1;
      var k := Oldest(s[..n], qualifies);
      if qualifies(s[n].value) && (k == n || s[n].value.lastmod < s[k].value.lastmod) then n
      else if k == n then |s| else k
  }

  lemma OldestStep(s: Table, i: nat)
    requires i < |s|
    ensures var k := Oldest(s[..i], Evictable);
            Oldest(s[..i + 1], Evictable) ==
            if Evictable(s[i].value) && (k == i || s[i].value.lastmod < s[k].value.lastmod) then i
            else if k == i then i + 1 else k
  {
    assert s[..i + 1][..i] == s[..i];
  }

  function Count(s: Table, qualifies: Contact -> bool): (n: nat)
    ensures n <= |s|
  {
    if s == [] then 0 else (if qualifies(s[0].value) then 1 else 0) + Count(s[1..], qualifies)
  }

  function RealCount(s: Table): nat { Count(s, Real) }

  function TransientCount(s: Table): nat { Count(s, Transient) }

  // ----- The operations on a table -----

  /** `add` and `update`: they call each other and store alike. */
  function Stored(s: Table, c: Contact, max: nat): Table {
    if Has(s, c.publicKey) || |s| < max then Put(s, ByKey(c)) else s
  }

  predicate Accepts(s: Table, c: Contact, max: nat) {
    Has(s, c.publicKey) || |s| < max
  }

  /** The key an overwrite gives up, if it has to. */
  function Overwrites(s: Table, c: Contact, max: nat): Option<Key> {
    if Accepts(s, c, max) || Oldest(s, Evictable) == |s| then None
    else Some(s[Oldest(s, Evictable)].key)
  }

  predicate OverwriteAccepts(s: Table, c: Contact, max: nat) {
    Accepts(s, c, max) || Oldest(s, Evictable) < |s|
  }

  function Overwritten(s: Table, c: Contact, max: nat): Table {
    if Accepts(s, c, max) then Put(s, ByKey(c))
    else if Oldest(s, Evictable) < |s| then Put(Remove(s, s[Oldest(s, Evictable)].key), ByKey(c))
    else s
  }

  function WithTransient(s: Table, c: Contact): Table {
    if !Has(s, c.publicKey) && TransientCount(s) >= MAX_ANON_CONTACTS && Oldest(s, Transient) < |s|
    then Put(Remove(s, s[Oldest(s, Transient)].key), ByKey(c))
    else Put(s, ByKey(c))
  }

  function Loaded(s: Table, cs: seq<Contact>, max: nat): Table
    decreases |cs|
  {
    if cs == [] || |s| >= max then s else Loaded(Put(s, ByKey(cs[0])), cs[1..], max)
  }

  // ----- The store -----

  function Mirror(s: Table): ProxyTable {
    if s == [] then [] else [Entry(s[0].key, ProxyOf(s[0].value))] + Mirror(s[1..])
  }

  lemma {:induction false} MirrorPut(s: Table, e: Entry<Key, Contact>)
    ensures Mirror(Put(s, e)) == Put(Mirror(s), Entry(e.key, ProxyOf(e.value)))
  {
    if s != [] && s[0].key != e.key {
      MirrorPut(s[1..], e);
      assert Put(s, e)[1..] == Put(s[1..], e);
      assert Mirror(s)[1..] == Mirror(s[1..]);
    } else if s != [] {
      assert ([e] + s[1..])[1..] == s[1..] && Mirror(s)[1..] == Mirror(s[1..]);
    }
  }

  lemma {:induction false} MirrorRemove(s: Table, k: Key)
    ensures Mirror(Remove(s, k)) == Remove(Mirror(s), k)
  {
    if s != [] {
      MirrorRemove(s[1..], k);
      assert Mirror(s)[1..] == Mirror(s[1..]);
      if s[0].key != k {
        assert Remove(s, k) == [s[0]] + Remove(s[1..], k);
        assert Remove(s, k)[1..] == Remove(s[1..], k);
      } else {
        assert Remove(s, k) == Remove(s[1..], k);
      }
    }
  }

  /** Every contact has a proxy under its key, at its place, that shows it. */
  lemma {:induction false} ProxiesShowContacts(s: Table, i: nat)
    requires i < |s|
    ensures |Mirror(s)| == |s| && Mirror(s)[i].key == s[i].key
    ensures var c, p := s[i].value, Mirror(s)[i].value;
            && p.publicKey == c.publicKey && p.name == c.name && p.kind == c.advType && p.flags == c.flags
            && p.outPath == c.outPath && p.outPathLen == c.outPathLen && p.syncSince == c.syncSince
            && p.lastAdvert == c.lastAdvert && p.lastmod == c.lastmod && p.lat == c.lat && p.lon == c.lon
    decreases |s|
  {
    if |s| > 1 {
      assert Mirror(s)[1..] == Mirror(s[1..]);
      if i > 0 { ProxiesShowContacts(s[1..], i - 1); } else { ProxiesShowContacts(s[1..], 0); }
    }
  }

  /** Every key once, and every contact under its own key. */
  predicate Sound(s: Table) {
    Distinct(s) && forall e <- s :: e.key == e.value.publicKey
  }

  lemma PutSound(s: Table, c: Contact)
    requires Sound(s)
    ensures Sound(Put(s, ByKey(c)))
  {
    PutDistinct(s, ByKey(c));
    forall e | e in Put(s, ByKey(c)) ensures e.key == e.value.publicKey { PutMember(s, ByKey(c), e); }
  }

  lemma {:induction false} PutMember(s: Table, p: Entry<Key, Contact>, e: Entry<Key, Contact>)
    requires e in Put(s, p)
    ensures e == p || e in s
  {
    if s != [] && s[0].key != p.key && e != s[0] { PutMember(s[1..], p, e); }
  }

  lemma RemoveSound(s: Table, k: Key)
    requires Sound(s)
    ensures Sound(Remove(s, k))
  {
    RemoveDistinct(s, k);
    forall e | e in Remove(s, k) ensures e.key == e.value.publicKey { RemoveMember(s, k, e); }
  }

  class Store {
    const maxContacts: nat
    var contacts: Table
    var proxies: ProxyTable

    /** The dictionaries have the same keys, and each proxy mirrors its contact. */
    predicate Valid()
      reads this
    {
      Sound(contacts) && proxies == Mirror(contacts)
    }

    constructor (maxContacts: nat)
      ensures Valid() && this.maxContacts == maxContacts && contacts == []
    {
      this.maxContacts, contacts, proxies := maxContacts, [], [];
    }

    /** The two assignments every operation makes together. */
    method Assign(c: Contact)
      requires Valid()
      modifies this
      ensures Valid() && contacts == Put(old(contacts), ByKey(c))
    {
      hide Put, Mirror, Sound;
      PutSound(contacts, c);
      MirrorPut(contacts, ByKey(c));
      contacts := Put(contacts, Entry(c.publicKey, c));
      proxies := Put(proxies, Entry(c.publicKey, ProxyOf(c)));
    }

    method Add(c: Contact) returns (ok: bool)
      requires Valid()
      modifies this
      ensures Valid() && contacts == Stored(old(contacts), c, maxContacts)
      ensures ok <==> Accepts(old(contacts), c, maxContacts)
      decreases if Has(contacts, c.publicKey) then 1 else 0
    {
      hide Put, Mirror, Sound;
      if Has(contacts, c.publicKey) {
        ok := Update(c);
        return;
      }
      if |contacts| >= maxContacts { return false; }
      Assign(c);
      ok := true;
    }

    method Update(c: Contact) returns (ok: bool)
      requires Valid()
      modifies this
      ensures Valid() && contacts == Stored(old(contacts), c, maxContacts)
      ensures ok <==> Accepts(old(contacts), c, maxContacts)
      decreases if Has(contacts, c.publicKey) then 0 else 1
    {
      hide Put, Mirror, Sound;
      if !Has(contacts, c.publicKey) {
        ok := Add(c);
        return;
      }
      Assign(c);
      ok := true;
    }

    method RemoveKey(k: Key) returns (ok: bool)
      requires Valid()
      modifies this
      ensures Valid() && contacts == Remove(old(contacts), k)
      ensures ok <==> Has(old(contacts), k)
    {
      hide Mirror, Sound;
      RemoveSound(contacts, k);
      MirrorRemove(contacts, k);
      if !Has(contacts, k) {
        RemoveAbsent(contacts, k);
        return false;
      }
      contacts := Remove(contacts, k);
      proxies := Remove(proxies, k);
      ok := true;
    }

    /** The search loop of an overwrite. */
    method FindOldestEvictable() returns (k: nat)
      ensures k == Oldest(contacts, Evictable)
    {
      k := |contacts|;
      var oldestLastmod := 0xFFFF_FFFF;
      for i := 0 to |contacts|
        invariant k == |contacts| ==> oldestLastmod == LASTMOD_CEILING && Oldest(contacts[..i], Evictable) == i
        invariant k != |contacts| ==>
                    k < i && oldestLastmod == contacts[k].value.lastmod && k == Oldest(contacts[..i], Evictable)
      {
        hide Oldest;
        OldestStep(contacts, i);
        var c := contacts[i].value;
        if c.flags % 2 == 0 && c.advType != TYPE_NONE && c.lastmod < oldestLastmod {
          oldestLastmod := c.lastmod;
          k := i;
        }
      }
      assert contacts[..|contacts|] == contacts;
    }

    method AddOrOverwrite(c: Contact) returns (ok: bool, overwritten: Option<Key>)
      requires Valid()
      modifies this
      ensures Valid() && contacts == Overwritten(old(contacts), c, maxContacts)
      ensures ok <==> OverwriteAccepts(old(contacts), c, maxContacts)
      ensures overwritten == Overwrites(old(contacts), c, maxContacts)
    {
      hide Put, Mirror, Sound, Oldest, Remove;
      if Has(contacts, c.publicKey) {
        ok := Update(c);
        return ok, None;
      }
      if |contacts| >= maxContacts {
        var k := FindOldestEvictable();
        if k == |contacts| { return false, None; }
        overwritten := Some(contacts[k].key);
        var removed := RemoveKey(contacts[k].key);
        Assign(c);
        return true, overwritten;
      }
      Assign(c);
      return true, None;
    }

    method AddTransient(c: Contact) returns (ok: bool)
      requires Valid()
      modifies this
      ensures Valid() && contacts == WithTransient(old(contacts), c) && ok
    {
      hide Put, Mirror, Sound, Remove;
      if Has(contacts, c.publicKey) {
        ok := Update(c);
        return;
      }
      if TransientCount(contacts) >= MAX_ANON_CONTACTS {
        SomeQualifies(contacts, Transient);
        var removed := RemoveKey(contacts[Oldest(contacts, Transient)].key);
      }
      Assign(c);
      ok := true;
    }

    method LoadFrom(cs: seq<Contact>)
      requires Valid()
      modifies this
      ensures Valid() && contacts == Loaded([], cs, maxContacts)
    {
      contacts, proxies := [], [];
      for i := 0 to |cs|
        invariant Valid() && Loaded(contacts, cs[i..], maxContacts) == Loaded([], cs, maxContacts)
      {
        hide Put, Mirror, Sound;
        assert cs[i..][1..] == cs[i + 1..];
        if |contacts| >= maxContacts { return; }
        Assign(cs[i]);
      }
    }
  }

  lemma {:induction false} SomeQualifies(s: Table, qualifies: Contact -> bool)
    requires Count(s, qualifies) > 0
    ensures Oldest(s, qualifies) < |s|
  {
    NoneCounts(s, qualifies);
  }

  lemma {:induction false} NoneCounts(s: Table, qualifies: Contact -> bool)
    ensures (forall i :: 0 <= i < |s| ==> !qualifies(s[i].value)) ==> Count(s, qualifies) == 0
  {
    if s != [] && forall i :: 0 <= i < |s| ==> !qualifies(s[i].value) {
      NoneCounts(s[1..], qualifies);
    }
  }

  // ----- Counting through the operations -----

  function One(qualifies: Contact -> bool, c: Contact): nat {
    if qualifies(c) then 1 else 0
  }

  /** What the table holds under a key counts at most once. */
  function Held(s: Table, k: Key, qualifies: Contact -> bool): nat {
    if Has(s, k) then One(qualifies, AsMap(s)[k]) else 0
  }

  lemma {:induction false} CountPut(s: Table, c: Contact, qualifies: Contact -> bool)
    ensures Count(Put(s, ByKey(c)), qualifies) + Held(s, c.publicKey, qualifies) ==
            Count(s, qualifies) + One(qualifies, c)
  {
    if s != [] {
      var rest := s[1..];
      HasTail(s, c.publicKey);
      if s[0].key == c.publicKey {
        assert ([ByKey(c)] + rest)[1..] == rest;
      } else {
        CountPut(rest, c, qualifies);
        assert Put(s, ByKey(c))[1..] == Put(rest, ByKey(c));
      }
    }
  }

  lemma {:induction false} CountRemove(s: Table, k: Key, qualifies: Contact -> bool)
    requires Distinct(s)
    ensures Count(Remove(s, k), qualifies) + Held(s, k, qualifies) == Count(s, qualifies)
  {
    if s != [] {
      var rest := s[1..];
      HasTail(s, k);
      assert Distinct(rest);
      CountRemove(rest, k, qualifies);
      if s[0].key == k {
        assert !Has(rest, k);
        RemoveAbsent(rest, k);
        assert Remove(s, k) == rest;
      } else {
        assert Remove(s, k)[1..] == Remove(rest, k);
      }
    }
  }

  lemma {:induction false} RealPlusTransient(s: Table)
    ensures RealCount(s) + TransientCount(s) == |s|
  {
    if s != [] { RealPlusTransient(s[1..]); }
  }

  // ----- The caps over every run -----

  datatype Op =
    | Add(c: Contact)
    | Overwrite(c: Contact)
    | AddTransient(c: Contact)
    | Delete(k: Key)
    | Load(cs: seq<Contact>)

  function Apply(s: Table, op: Op, max: nat): Table {
    match op
    case Add(c) => Stored(s, c, max)
    case Overwrite(c) => Overwritten(s, c, max)
    case AddTransient(c) => WithTransient(s, c)
    case Delete(k) => Remove(s, k)
    case Load(cs) => Loaded([], cs, max)
  }

  function Run(s: Table, ops: seq<Op>, max: nat): Table
    decreases |ops|
  {
    if ops == [] then s else Run(Apply(s, ops[0], max), ops[1..], max)
  }

  predicate Bounded(s: Table, max: nat) {
    RealCount(s) <= max && |s| <= max + 8
  }

  /** A real contact comes in without a capacity check: in place of a transient
      one with its key, or through the transient entrance. */
  predicate BypassesCap(s: Table, op: Op) {
    match op
    case Add(c) => Real(c) && Has(s, c.publicKey) && Transient(AsMap(s)[c.publicKey])
    case Overwrite(c) => Real(c) && Has(s, c.publicKey) && Transient(AsMap(s)[c.publicKey])
    case AddTransient(c) => Real(c) && (Has(s, c.publicKey) ==> Transient(AsMap(s)[c.publicKey]))
    case _ => false
  }

  lemma PutInPlace(s: Table, c: Contact, max: nat)
    requires Sound(s) && Bounded(s, max) && Has(s, c.publicKey)
    ensures Sound(Put(s, ByKey(c)))
    ensures Bounded(Put(s, ByKey(c)), max) <==>
            !(Real(c) && Transient(AsMap(s)[c.publicKey]) && RealCount(s) == max)
  {
    PutSound(s, c);
    PutDistinct(s, ByKey(c));
    CountPut(s, c, Real);
  }

  lemma PutNew(s: Table, c: Contact)
    requires Sound(s) && !Has(s, c.publicKey)
    ensures Sound(Put(s, ByKey(c))) && |Put(s, ByKey(c))| == |s| + 1
    ensures RealCount(Put(s, ByKey(c))) == RealCount(s) + One(Real, c)
  {
    PutSound(s, c);
    PutDistinct(s, ByKey(c));
    CountPut(s, c, Real);
  }

  /** Evicting one entry makes exactly the room one entry needs. */
  lemma RemoveOne(s: Table, i: nat)
    requires Sound(s) && i < |s|
    ensures var r := Remove(s, s[i].key);
            && Sound(r) && |r| == |s| - 1
            && RealCount(r) == RealCount(s) - One(Real, s[i].value)
            && forall k :: Has(r, k) ==> Has(s, k)
  {
    RemoveSound(s, s[i].key);
    RemoveDistinct(s, s[i].key);
    CountRemove(s, s[i].key, Real);
    MapOfMember(s, i);
    forall k | Has(Remove(s, s[i].key), k) ensures Has(s, k) { HasRemove(s, s[i].key, k); }
  }

  lemma {:induction false} LoadedBounded(s: Table, cs: seq<Contact>, max: nat)
    requires Sound(s) && |s| <= max
    ensures Sound(Loaded(s, cs, max)) && |Loaded(s, cs, max)| <= max
    decreases |cs|
  {
    if cs != [] && |s| < max {
      PutSound(s, cs[0]);
      PutDistinct(s, ByKey(cs[0]));
      LoadedBounded(Put(s, ByKey(cs[0])), cs[1..], max);
    }
  }

  lemma OverwriteBounds(s: Table, c: Contact, max: nat)
    requires Sound(s) && Bounded(s, max) && !Accepts(s, c, max)
    ensures Sound(Overwritten(s, c, max)) && Bounded(Overwritten(s, c, max), max)
  {
    hide Oldest, Put, Remove, RealCount;
    var k := Oldest(s, Evictable);
    VictimIsEvictable(s);
    if k < |s| {
      RemoveOne(s, k);
      PutNew(Remove(s, s[k].key), c);
    }
  }

  /** An overwrite of a full store gives up one contact that is neither a
      favourite nor transient, none older of that kind is kept, and every other
      contact stays as it is. */
  lemma OverwriteEvictsOldest(s: Table, c: Contact, max: nat, victim: Key)
    requires Sound(s) && Overwrites(s, c, max) == Some(victim)
    ensures Has(s, victim) && victim != c.publicKey
    ensures var v := AsMap(s)[victim];
            && v.flags % 2 == 0 && v.advType != 0
            && (forall e <- s :: e.value.flags % 2 == 0 && e.value.advType != 0 ==> v.lastmod <= e.value.lastmod)
    ensures AsMap(Overwritten(s, c, max)) == (AsMap(s) - {victim})[c.publicKey := c]
  {
    hide Put, Remove, AsMap;
    var k := Oldest(s, Evictable);
    MapOfMember(s, k);
    RemoveMap(s, victim);
    PutMap(Remove(s, victim), ByKey(c));
    forall e | e in s && !Favourite(e.value) && Real(e.value) ensures s[k].value.lastmod <= e.value.lastmod {
      if e.value.lastmod < LASTMOD_CEILING {
        assert Evictable(e.value);
      }
    }
  }

  /** An overwrite fails, and changes nothing, exactly when the contact is new,
      the store is full and every contact in it is a favourite, transient or
      dated 0xFFFFFFFF or later. */
  lemma OverwriteFailsIff(s: Table, c: Contact, max: nat)
    ensures OverwriteAccepts(s, c, max) <==>
            || Has(s, c.publicKey) || |s| < max
            || exists e <- s :: e.value.flags % 2 == 0 && e.value.advType != 0 && e.value.lastmod < 0xFFFF_FFFF
    ensures !OverwriteAccepts(s, c, max) ==> Overwritten(s, c, max) == s
  {
    hide Oldest, Put, Remove;
    var k := Oldest(s, Evictable);
    VictimIsEvictable(s);
    if k < |s| { assert s[k] in s; }
    if e :| e in s && e.value.flags % 2 == 0 && e.value.advType != 0 && e.value.lastmod < 0xFFFF_FFFF {
      assert Evictable(e.value);
      var i :| 0 <= i < |s| && s[i] == e;
      NoVictim(s, i);
    }
  }

  lemma NoVictim(s: Table, i: nat)
    requires i < |s| && Evictable(s[i].value)
    ensures Oldest(s, Evictable) < |s|
  {}

  /** A new transient contact takes the place of the transient contact with the
      smallest `lastmod`, the first of them, once there are eight; until then,
      and under a known key, nothing is given up. */
  lemma TransientReusesOldest(s: Table, c: Contact)
    requires Sound(s)
    ensures Has(s, c.publicKey) || TransientCount(s) < 8 ==> AsMap(WithTransient(s, c)) == AsMap(s)[c.publicKey := c]
    ensures !Has(s, c.publicKey) && TransientCount(s) >= 8 ==>
              exists k :: 0 <= k < |s| && OldestTransient(s, k) &&
                          AsMap(WithTransient(s, c)) == (AsMap(s) - {s[k].key})[c.publicKey := c]
  {
    hide Put, Remove, AsMap, TransientCount, Oldest;
    PutMap(s, ByKey(c));
    if !Has(s, c.publicKey) && TransientCount(s) >= 8 {
      SomeTransient(s);
      var k := Oldest(s, Transient);
      RemoveMap(s, s[k].key);
      PutMap(Remove(s, s[k].key), ByKey(c));
      assert OldestTransient(s, k);
    }
  }

  predicate OldestTransient(s: Table, k: nat)
    requires k < |s|
  {
    && s[k].value.advType == 0
    && (forall i :: 0 <= i < |s| && s[i].value.advType == 0 ==> s[k].value.lastmod <= s[i].value.lastmod)
    && (forall i :: 0 <= i < k && s[i].value.advType == 0 ==> s[k].value.lastmod < s[i].value.lastmod)
  }

  lemma VictimIsEvictable(s: Table)
    ensures Oldest(s, Evictable) <= |s|
    ensures Oldest(s, Evictable) < |s| ==> Evictable(s[Oldest(s, Evictable)].value)
  {}

  lemma TransientBounds(s: Table, c: Contact, max: nat)
    requires Sound(s) && Bounded(s, max) && !Has(s, c.publicKey)
    ensures Sound(WithTransient(s, c))
    ensures Bounded(WithTransient(s, c), max) <==> !(Real(c) && RealCount(s) == max)
  {
    hide Put, Remove, RealCount, TransientCount;
    RealPlusTransient(s);
    var k := Oldest(s, Transient);
    if TransientCount(s) >= MAX_ANON_CONTACTS {
      assert k < |s| by { SomeTransient(s); }
      RemoveOne(s, k);
      PutNew(Remove(s, s[k].key), c);
    } else {
      PutNew(s, c);
    }
  }

  lemma SomeTransient(s: Table)
    requires TransientCount(s) > 0
    ensures Oldest(s, Transient) < |s|
  {
    SomeQualifies(s, Transient);
  }

  /** From a store within its caps, an operation leaves the caps exactly when it
      brings a real contact past the capacity check of a store that already has
      its full number of real contacts. */
  lemma StepKeepsCapsIff(s: Table, op: Op, max: nat)
    requires Sound(s) && Bounded(s, max)
    ensures Sound(Apply(s, op, max))
    ensures Bounded(Apply(s, op, max), max) <==> !(BypassesCap(s, op) && RealCount(s) == max)
  {
    hide Put, Remove, RealCount, Overwritten, WithTransient, Loaded, Oldest;
    match op
    case Add(c) =>
      if Has(s, c.publicKey) { PutInPlace(s, c, max); }
      else if |s| < max { PutNew(s, c); RealAtMost(s); }
    case Overwrite(c) =>
      OverwriteUnfolds(s, c, max);
      if Has(s, c.publicKey) { PutInPlace(s, c, max); }
      else if |s| < max { PutNew(s, c); RealAtMost(s); }
      else { OverwriteBounds(s, c, max); }
    case AddTransient(c) =>
      if Has(s, c.publicKey) {
        PutInPlace(s, c, max);
        assert WithTransient(s, c) == Put(s, ByKey(c)) by { TransientUnfolds(s, c); }
      } else {
        TransientBounds(s, c, max);
      }
    case Delete(k) =>
      RemoveSound(s, k);
      RemoveDistinct(s, k);
      DeleteCounts(s, k);
    case Load(cs) =>
      LoadedBounded([], cs, max);
      RealAtMost(Loaded([], cs, max));
  }

  lemma OverwriteUnfolds(s: Table, c: Contact, max: nat)
    ensures Accepts(s, c, max) ==> Overwritten(s, c, max) == Put(s, ByKey(c))
  {}

  lemma TransientUnfolds(s: Table, c: Contact)
    ensures Has(s, c.publicKey) ==> WithTransient(s, c) == Put(s, ByKey(c))
  {}

  lemma DeleteCounts(s: Table, k: Key)
    requires Distinct(s)
    ensures RealCount(Remove(s, k)) <= RealCount(s)
  {
    CountRemove(s, k, Real);
  }

  lemma RealAtMost(s: Table)
    ensures RealCount(s) <= |s|
  {}

  /** No step of a run bypasses a full cap. */
  predicate NeverBypasses(s: Table, ops: seq<Op>, max: nat)
    decreases |ops|
  {
    ops == [] ||
    (!(BypassesCap(s, ops[0]) && RealCount(s) == max) && NeverBypasses(Apply(s, ops[0], max), ops[1..], max))
  }

  /** Over every run: real contacts stay at most `max`, and all contacts at most
      `max + 8`, after every operation, exactly when no operation bypasses a
      full cap. */
  lemma {:induction false} CapsHoldIff(s: Table, ops: seq<Op>, max: nat)
    requires Sound(s) && Bounded(s, max)
    ensures (forall n :: 0 <= n <= |ops| ==> Bounded(Run(s, ops[..n], max), max)) <==> NeverBypasses(s, ops, max)
    decreases |ops|
  {
    hide Apply, Bounded, BypassesCap, RealCount;
    assert ops[..0] == [];
    if ops != [] {
      var next, rest := Apply(s, ops[0], max), ops[1..];
      StepKeepsCapsIff(s, ops[0], max);
      forall n | 1 <= n <= |ops| ensures Run(s, ops[..n], max) == Run(next, rest[..n - 1], max) {
        assert ops[..n][0] == ops[0] && ops[..n][1..] == rest[..n - 1];
      }
      if Bounded(next, max) {
        CapsHoldIff(next, rest, max);
        if NeverBypasses(s, ops, max) {
          forall n | 0 <= n <= |ops| ensures Bounded(Run(s, ops[..n], max), max) {
            if n > 0 { assert Bounded(Run(next, rest[..n - 1], max), max); }
          }
        } else {
          var n :| 0 <= n <= |rest| && !Bounded(Run(next, rest[..n], max), max);
          assert !Bounded(Run(s, ops[..n + 1], max), max);
        }
      } else {
        assert rest[..0] == [];
        assert Run(next, [], max) == next;
        assert !Bounded(Run(s, ops[..1], max), max);
      }
    }
  }

  /** A promoting update breaks the cap: a transient contact that becomes real
      while the store is full. */
  lemma PromotionBreaksCap(a: Contact, t: Contact, p: Contact)
    requires Real(a) && Transient(t) && Real(p) && p.publicKey == t.publicKey != a.publicKey
    ensures RealCount(Run([], [Add(a), AddTransient(t), Add(p)], 1)) == 2
  {
    var ops := [Add(a), AddTransient(t), Add(p)];
    var s0: Table := [];
    var s1, s2, s3 := [ByKey(a)], [ByKey(a), ByKey(t)], [ByKey(a), ByKey(p)];
    assert !Has(s0, a.publicKey);
    assert Apply(s0, ops[0], 1) == s1;
    assert s1[0].key == a.publicKey && !Has(s1, t.publicKey) && s1[1..] == [];
    assert TransientCount(s1) == 0;
    assert Put([], ByKey(t)) == [ByKey(t)];
    assert Apply(s1, ops[1], 1) == s2;
    assert s2[1].key == p.publicKey && Has(s2, p.publicKey);
    assert s2[1..] == [ByKey(t)] && [ByKey(t)][1..] == [];
    assert Put([ByKey(t)], ByKey(p)) == [ByKey(p)];
    assert Apply(s2, ops[2], 1) == s3;
    assert ops[1..][1..] == ops[2..] && ops[2..][1..] == [];
    assert Run(s2, ops[2..], 1) == Run(s3, ops[2..][1..], 1) == s3;
    assert Run(s0, ops, 1) == Run(s1, ops[1..], 1) == Run(s2, ops[1..][1..], 1);
    assert s3[1..] == [ByKey(p)] && [ByKey(p)][1..] == [];
    assert Count([ByKey(p)], Real) == 1;
  }
}
