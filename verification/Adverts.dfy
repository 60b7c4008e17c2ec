/** Applying node adverts to the contact store and the path cache, and what the
    client is told about it. */
module Adverts {
  import opened Recency
  import opened ContactStore
  import opened Options
  import Bytes
  import RecencyTables

  const MIN_KEY: nat := 7
  const PATH_CACHE_SIZE: nat := 16

  /** Auto-add preferences: two bit fields and a hop limit. */
  datatype Prefs = Prefs(manualAdd: int, autoaddConfig: int, autoaddMaxHops: int)

  /** A NODE_DISCOVERED event: the contact it describes, the raw packet, the
      inbound path, the encoded path length when known, and the time. */
  datatype Advert = Advert(contact: Contact, rawPacket: seq<int>, path: seq<int>, pathLenEncoded: Option<int>,
                           now: int)

  datatype Callback =
    | ContactDeleted(key: Key)
    | ContactsFull
    | AdvertReceived(contact: Contact)
    | NodeDiscovered(contact: Contact)

  datatype Node = Node(contacts: Table, paths: seq<RecencyTables.Path>)

  datatype Outcome = Outcome(node: Node, callbacks: seq<Callback>)

  predicate BitSet(v: int, bit: int)
    requires bit > 0
  {
    v / bit % 2 == 1
  }

  /** The auto-add bit of a contact type; other types have none. */
  function TypeBit(advType: int): int {
    if advType == 1 then 0x02 else if advType == 2 then 0x04
    else if advType == 3 then 0x08 else if advType == 4 then 0x10 else 0
  }

  predicate ShouldAutoAdd(p: Prefs, advType: int) {
    p.manualAdd % 2 == 0 || (TypeBit(advType) > 0 && BitSet(p.autoaddConfig, TypeBit(advType)))
  }

  predicate ShouldOverwrite(p: Prefs) {
    BitSet(p.autoaddConfig, 0x01)
  }

  /** Hops travelled: the low six bits of the encoded length, or the path. */
  function Hops(a: Advert): int {
    match a.pathLenEncoded
    case Some(encoded) => encoded % 64
    case None => |a.path|
  }

  predicate TooFar(p: Prefs, a: Advert) {
    p.autoaddMaxHops > 0 && Hops(a) >= p.autoaddMaxHops
  }

  /** What local state an advert must not touch. */
  function Merged(c: Contact, existing: Contact): Contact {
    c.(outPathLen := existing.outPathLen, outPath := existing.outPath, flags := existing.flags,
       syncSince := existing.syncSince,
       advertPacket := if c.advertPacket.None? then existing.advertPacket else c.advertPacket)
  }

  function HeardFrom(c: Contact, a: Advert): RecencyTables.Path
    requires |c.publicKey| >= MIN_KEY
  {
    var pathLen := if a.pathLenEncoded.Some? then a.pathLenEncoded.value else |a.path|;
    Entry(c.publicKey[..MIN_KEY], RecencyTables.Heard(c.name, pathLen, a.path, a.now))
  }

  function HeardOn(paths: seq<RecencyTables.Path>, c: Contact, a: Advert): seq<RecencyTables.Path>
    requires |c.publicKey| >= MIN_KEY
  {
    RecencyTables.Updated(paths, HeardFrom(c, a), PATH_CACHE_SIZE)
  }

  /** The store after applying an advert, what was stored, and the callbacks
      fired on the way. */
  datatype Applied = Applied(contacts: Table, stored: Option<Contact>, callbacks: seq<Callback>)

  function ApplyToStore(s: Table, c: Contact, a: Advert, p: Prefs, max: nat): Applied {
    if Has(s, c.publicKey) then
      var merged := Merged(c, AsMap(s)[c.publicKey]);
      Applied(Stored(s, merged, max), Some(merged), [])
    else if !ShouldAutoAdd(p, c.advType) || TooFar(p, a) then Applied(s, None, [])
    else if ShouldOverwrite(p) && |s| >= max then
      var ok, victim := OverwriteAccepts(s, c, max), Overwrites(s, c, max);
      Applied(Overwritten(s, c, max), if ok then Some(c) else None,
              if !ok then [ContactsFull]
              else if victim.Some? && victim.value != [] then [ContactDeleted(victim.value)] else [])
    else
      var ok := Accepts(s, c, max);
      Applied(Stored(s, c, max), if ok then Some(c) else None,
              if !ok && |s| >= max then [ContactsFull] else [])
  }

  /** The contact an event describes: local flags start clear, and the raw
      packet is kept when there is one. */
  function Incoming(a: Advert): Contact {
    a.contact.(flags := 0, advertPacket := if a.rawPacket != [] then Some(a.rawPacket) else a.contact.advertPacket)
  }

  /** An advert needs a key prefix and a name. */
  predicate Usable(c: Contact) { |c.publicKey| >= MIN_KEY && c.name != "" }

  /** Own adverts, adverts without a usable key or name, and adverts that are
      not newer than the stored one are dropped. */
  predicate Dropped(s: Table, self: Key, c: Contact) {
    || c.publicKey == self
    || !Usable(c)
    || (Has(s, c.publicKey) && c.lastAdvert <= AsMap(s)[c.publicKey].lastAdvert)
  }

  function Handle(n: Node, a: Advert, p: Prefs, self: Key, max: nat): Outcome {
    var c := Incoming(a);
    if Dropped(n.contacts, self, c) then Outcome(n, [])
    else
      var r := ApplyToStore(n.contacts, c, a, p, max);
      Outcome(Node(r.contacts, HeardOn(n.paths, c, a)),
              r.callbacks
              + (if r.stored.Some? then [AdvertReceived(r.stored.value)] else [])
              + [NodeDiscovered(if r.stored.Some? then r.stored.value else c)])
  }

  /** The event handler over the store and the cache it drives. */
  class Companion {
    const self: Key
    const store: Store
    const paths: RecencyTables.PathCache
    var callbacks: seq<Callback>

    predicate Valid()
      reads this, store, paths
    {
      store.Valid() && paths.maxEntries == PATH_CACHE_SIZE && Distinct(paths.paths)
    }

    function State(): Node
      reads store, paths
    {
      Node(store.contacts, paths.paths)
    }

    constructor (self: Key, maxContacts: nat)
      ensures Valid() && fresh(store) && fresh(paths)
      ensures State() == Node([], []) && callbacks == [] && this.self == self && store.maxContacts == maxContacts
    {
      this.self := self;
      store := new Store(maxContacts);
      paths := new RecencyTables.PathCache(PATH_CACHE_SIZE);
      callbacks := [];
    }

    method ApplyAdvertToStores(c: Contact, a: Advert, p: Prefs) returns (stored: Option<Contact>)
      requires Valid()
      modifies this, store, paths
      ensures Valid()
      ensures !Usable(c) ==> State() == old(State()) && stored == None && callbacks == old(callbacks)
      ensures Usable(c) ==>
                var r := ApplyToStore(old(store.contacts), c, a, p, store.maxContacts);
                && State() == Node(r.contacts, HeardOn(old(paths.paths), c, a))
                && stored == r.stored && callbacks == old(callbacks) + r.callbacks
    {
      hide Put, AsMap, Overwritten, Oldest, BitSet, TypeBit, RecencyTables.Updated, Mirror, Sound;
      if |c.publicKey| < MIN_KEY || c.name == "" { return None; }
      var kept := paths.Update(HeardFrom(c, a));
      if Has(store.contacts, c.publicKey) {
        var merged := Merged(c, AsMap(store.contacts)[c.publicKey]);
        var ok := store.Update(merged);
        return Some(merged);
      }
      if !ShouldAutoAdd(p, c.advType) { return None; }
      if TooFar(p, a) { return None; }
      if ShouldOverwrite(p) && |store.contacts| >= store.maxContacts {
        var ok, overwritten := store.AddOrOverwrite(c);
        if ok && overwritten.Some? && overwritten.value != [] {
          callbacks := callbacks + [ContactDeleted(overwritten.value)];
        } else if !ok {
          callbacks := callbacks + [ContactsFull];
        }
        return if ok then Some(c) else None;
      }
      var added := store.Add(c);
      if !added && |store.contacts| >= store.maxContacts { callbacks := callbacks + [ContactsFull]; }
      return if added then Some(c) else None;
    }

    method HandleNodeDiscovered(a: Advert, p: Prefs)
      requires Valid()
      modifies this, store, paths
      ensures Valid()
      ensures var r := Handle(old(State()), a, p, self, store.maxContacts);
              State() == r.node && callbacks == old(callbacks) + r.callbacks
    {
      hide ApplyToStore, AsMap, RecencyTables.Updated;
      var c := Incoming(a);
      if c.publicKey == self { return; }
      if |c.publicKey| >= MIN_KEY && c.name != "" {
        if Has(store.contacts, c.publicKey) && c.lastAdvert <= AsMap(store.contacts)[c.publicKey].lastAdvert {
          return;
        }
        var stored := ApplyAdvertToStores(c, a, p);
        if stored.Some? { callbacks := callbacks + [AdvertReceived(stored.value)]; }
        callbacks := callbacks + [NodeDiscovered(if stored.Some? then stored.value else c)];
      }
    }
  }

  // ----- Runs of adverts -----

  /** An event and the preferences in force when it is handled. */
  datatype Event = Event(advert: Advert, prefs: Prefs)

  function Run(n: Node, events: seq<Event>, self: Key, max: nat): Outcome
    decreases |events|
  {
    if events == [] then Outcome(n, [])
    else
      var first := Handle(n, events[0].advert, events[0].prefs, self, max);
      var rest := Run(first.node, events[1..], self, max);
      Outcome(rest.node, first.callbacks + rest.callbacks)
  }

  /** A sound store that does not hold the node itself; keys are not empty. */
  predicate Clean(s: Table, self: Key) {
    Sound(s) && !Has(s, self) && forall e <- s :: e.key != []
  }

  // ----- A client can mirror the store from its callbacks -----

  function Follow(view: map<Key, Contact>, cb: Callback): map<Key, Contact> {
    match cb
    case ContactDeleted(k) => view - {k}
    case AdvertReceived(c) => view[c.publicKey := c]
    case _ => view
  }

  function FollowAll(view: map<Key, Contact>, cbs: seq<Callback>): map<Key, Contact>
    decreases |cbs|
  {
    if cbs == [] then view else FollowAll(Follow(view, cbs[0]), cbs[1..])
  }

  lemma {:induction false} FollowAppend(view: map<Key, Contact>, a: seq<Callback>, b: seq<Callback>)
    ensures FollowAll(view, a + b) == FollowAll(FollowAll(view, a), b)
    decreases |a|
  {
    if a == [] {
      assert a + b == b;
    } else {
      assert (a + b)[0] == a[0] && (a + b)[1..] == a[1..] + b;
      FollowAppend(Follow(view, a[0]), a[1..], b);
    }
  }

  /** What applying does to the store, as a map. */
  lemma ApplyAsMap(s: Table, c: Contact, a: Advert, p: Prefs, max: nat)
    requires Sound(s) && forall e <- s :: e.key != []
    ensures var r := ApplyToStore(s, c, a, p, max);
            && AsMap(r.contacts) ==
               (if r.stored.Some? then FollowAll(AsMap(s), r.callbacks)[c.publicKey := r.stored.value] else AsMap(s))
            && (r.stored.Some? ==> r.stored.value.publicKey == c.publicKey)
            && (r.stored.None? ==> FollowAll(AsMap(s), r.callbacks) == AsMap(s))
  {
    hide Put, Oldest, BitSet, TypeBit, AsMap, Has, Remove;
    var r := ApplyToStore(s, c, a, p, max);
    var m := AsMap(s);
    assert FollowAll(m, []) == m;
    assert [ContactsFull][1..] == [];
    assert FollowAll(m, [ContactsFull]) == m;
    if Has(s, c.publicKey) {
      PutMap(s, ByKey(Merged(c, AsMap(s)[c.publicKey])));
    } else if r.stored.Some? {
      PutMap(s, ByKey(c));
      var victim := Overwrites(s, c, max);
      if ShouldOverwrite(p) && |s| >= max && victim.Some? {
        OverwriteEvictsOldest(s, c, max, victim.value);
        NonEmptyKey(s, victim.value);
        assert [ContactDeleted(victim.value)][1..] == [];
        assert FollowAll(m, [ContactDeleted(victim.value)]) == m - {victim.value};
      }
    }
  }

  lemma NonEmptyKey(s: Table, k: Key)
    requires (forall e <- s :: e.key != []) && Has(s, k)
    ensures k != []
  {}

  lemma ApplyKeepsClean(s: Table, c: Contact, a: Advert, p: Prefs, max: nat, self: Key)
    requires Clean(s, self) && c.publicKey != self && |c.publicKey| >= MIN_KEY
    ensures Clean(ApplyToStore(s, c, a, p, max).contacts, self)
  {
    hide Put, Oldest, BitSet, TypeBit, AsMap, Remove, Has;
    if Has(s, c.publicKey) {
      PutClean(s, Merged(c, AsMap(s)[c.publicKey]), self);
    } else {
      PutClean(s, c, self);
      var victim := Overwrites(s, c, max);
      if victim.Some? {
        RemoveClean(s, victim.value, self);
        PutClean(Remove(s, victim.value), c, self);
      }
    }
  }

  lemma PutClean(s: Table, c: Contact, self: Key)
    requires Clean(s, self) && c.publicKey != self && c.publicKey != []
    ensures Clean(Put(s, ByKey(c)), self)
  {
    PutSound(s, c);
    PutDistinct(s, ByKey(c));
    forall e | e in Put(s, ByKey(c)) ensures e.key != [] { PutMember(s, ByKey(c), e); }
  }

  lemma RemoveClean(s: Table, k: Key, self: Key)
    requires Clean(s, self)
    ensures Clean(Remove(s, k), self)
  {
    RemoveSound(s, k);
    HasRemove(s, k, self);
    forall e | e in Remove(s, k) ensures e.key != [] { RemoveMember(s, k, e); }
  }

  lemma HandleMirrors(n: Node, e: Event, self: Key, max: nat)
    requires Clean(n.contacts, self)
    ensures var r := Handle(n, e.advert, e.prefs, self, max);
            && Clean(r.node.contacts, self)
            && AsMap(r.node.contacts) == FollowAll(AsMap(n.contacts), r.callbacks)
  {
    hide ApplyToStore, AsMap, Clean;
    var c, m := Incoming(e.advert), AsMap(n.contacts);
    if Dropped(n.contacts, self, c) {
      assert FollowAll(m, []) == m;
    } else {
      var r := ApplyToStore(n.contacts, c, e.advert, e.prefs, max);
      CleanParts(n.contacts, self);
      ApplyKeepsClean(n.contacts, c, e.advert, e.prefs, max, self);
      ApplyAsMap(n.contacts, c, e.advert, e.prefs, max);
      var seen := [NodeDiscovered(if r.stored.Some? then r.stored.value else c)];
      var got := if r.stored.Some? then [AdvertReceived(r.stored.value)] else [];
      FollowAppend(m, r.callbacks + got, seen);
      FollowAppend(m, r.callbacks, got);
      FollowOne(FollowAll(m, r.callbacks + got), seen[0]);
      if r.stored.Some? { FollowOne(FollowAll(m, r.callbacks), got[0]); }
      else { assert FollowAll(FollowAll(m, r.callbacks), []) == FollowAll(m, r.callbacks); }
    }
  }

  lemma CleanParts(s: Table, self: Key)
    requires Clean(s, self)
    ensures Sound(s) && !Has(s, self) && forall e <- s :: e.key != []
  {}

  lemma FollowOne(view: map<Key, Contact>, cb: Callback)
    ensures FollowAll(view, [cb]) == Follow(view, cb)
  {
    assert [cb][1..] == [];
    assert FollowAll(Follow(view, cb), []) == Follow(view, cb);
  }

  /** Over every sequence of adverts and preference changes: a client that
      starts from the store and only listens to `contact_deleted` and
      `advert_received` has exactly the store, contact by contact; so every
      eviction is reported, under the evicted key, and nothing else is.  The
      node's own key is never stored. */
  lemma {:induction false} ClientMirrorsStore(n: Node, events: seq<Event>, self: Key, max: nat)
    requires Clean(n.contacts, self)
    ensures var r := Run(n, events, self, max);
            && Clean(r.node.contacts, self)
            && AsMap(r.node.contacts) == FollowAll(AsMap(n.contacts), r.callbacks)
    decreases |events|
  {
    hide Handle, AsMap, Clean;
    if events == [] {
      assert FollowAll(AsMap(n.contacts), []) == AsMap(n.contacts);
    } else {
      var first := Handle(n, events[0].advert, events[0].prefs, self, max);
      HandleMirrors(n, events[0], self, max);
      ClientMirrorsStore(first.node, events[1..], self, max);
      FollowAppend(AsMap(n.contacts), first.callbacks, Run(first.node, events[1..], self, max).callbacks);
    }
  }

  // ----- What adverts leave alone -----

  /** Same favourite flag, route and sync state. */
  predicate SameLocalState(c: Contact, d: Contact) {
    c.flags == d.flags && c.outPath == d.outPath && c.outPathLen == d.outPathLen && c.syncSince == d.syncSince
  }

  /** The advert timestamps reported as received for a key. */
  function Received(cbs: seq<Callback>, k: Key): seq<int> {
    if cbs == [] then []
    else (if cbs[0].AdvertReceived? && cbs[0].contact.publicKey == k then [cbs[0].contact.lastAdvert] else [])
         + Received(cbs[1..], k)
  }

  lemma {:induction false} ReceivedAppend(a: seq<Callback>, b: seq<Callback>, k: Key)
    ensures Received(a + b, k) == Received(a, k) + Received(b, k)
    decreases |a|
  {
    if a == [] {
      assert a + b == b;
    } else {
      assert (a + b)[0] == a[0] && (a + b)[1..] == a[1..] + b;
      ReceivedAppend(a[1..], b, k);
    }
  }

  predicate Rising(start: int, stamps: seq<int>)
    decreases |stamps|
  {
    stamps == [] || (start < stamps[0] && Rising(stamps[0], stamps[1..]))
  }

  function LastOf(start: int, stamps: seq<int>): int
    decreases |stamps|
  {
    if stamps == [] then start else LastOf(stamps[0], stamps[1..])
  }

  /** The key is stored before, after and at every point of the run. */
  predicate StaysStored(n: Node, events: seq<Event>, self: Key, max: nat, k: Key)
    decreases |events|
  {
    && Has(n.contacts, k)
    && (events != [] ==>
          StaysStored(Handle(n, events[0].advert, events[0].prefs, self, max).node, events[1..], self, max, k))
  }

  lemma {:induction false} NoReceipts(cbs: seq<Callback>, k: Key)
    requires forall cb <- cbs :: !cb.AdvertReceived?
    ensures Received(cbs, k) == []
  {
    if cbs != [] { NoReceipts(cbs[1..], k); }
  }

  lemma HandleKeepsLocal(n: Node, e: Event, self: Key, max: nat, k: Key)
    requires Clean(n.contacts, self) && Has(n.contacts, k)
    requires Has(Handle(n, e.advert, e.prefs, self, max).node.contacts, k)
    ensures var r := Handle(n, e.advert, e.prefs, self, max);
            var c, d := AsMap(n.contacts)[k], AsMap(r.node.contacts)[k];
            && SameLocalState(c, d)
            && |Received(r.callbacks, k)| <= 1
            && Rising(c.lastAdvert, Received(r.callbacks, k))
            && d.lastAdvert == LastOf(c.lastAdvert, Received(r.callbacks, k))
            && (Received(r.callbacks, k) == [] ==> c == d)
  {
    hide ApplyToStore, AsMap, Clean, Has;
    var c, m := Incoming(e.advert), AsMap(n.contacts);
    CleanParts(n.contacts, self);
    if Dropped(n.contacts, self, c) {
      assert Received([], k) == [];
    } else {
      var r := ApplyToStore(n.contacts, c, e.advert, e.prefs, max);
      ApplyAsMap(n.contacts, c, e.advert, e.prefs, max);
      ApplyCallbacks(n.contacts, c, e.advert, e.prefs, max, k);
      var seen := [NodeDiscovered(if r.stored.Some? then r.stored.value else c)];
      var got := if r.stored.Some? then [AdvertReceived(r.stored.value)] else [];
      ReceivedAppend(r.callbacks + got, seen, k);
      ReceivedAppend(r.callbacks, got, k);
      NoReceipts(seen, k);
      if r.stored.Some? { assert got[1..] == []; }
      assert Received(got, k) == if r.stored.Some? && c.publicKey == k then [c.lastAdvert] else [];
      assert [c.lastAdvert][1..] == [];
    }
  }

  /** The callbacks of applying report no receipt, and forget no other key that
      stays stored; an update of a known key keeps its local state. */
  lemma ApplyCallbacks(s: Table, c: Contact, a: Advert, p: Prefs, max: nat, k: Key)
    requires Sound(s) && (forall e <- s :: e.key != []) && Has(s, k)
    ensures var r := ApplyToStore(s, c, a, p, max);
            && Received(r.callbacks, k) == []
            && (r.stored.Some? ==> r.stored.value.lastAdvert == c.lastAdvert)
            && (k == c.publicKey ==> r.stored.Some? && SameLocalState(AsMap(s)[k], r.stored.value))
            && (Has(r.contacts, k) && k != c.publicKey ==>
                  AsMap(r.contacts)[k] == AsMap(s)[k])
  {
    hide Put, Oldest, BitSet, TypeBit, AsMap, Has, Remove;
    var r := ApplyToStore(s, c, a, p, max);
    ApplyAsMap(s, c, a, p, max);
    NoReceipts(r.callbacks, k);
    if r.callbacks != [] && r.callbacks[0].ContactDeleted? {
      FollowOne(AsMap(s), r.callbacks[0]);
      assert r.callbacks == [r.callbacks[0]];
    } else if r.callbacks != [] {
      assert r.callbacks == [ContactsFull];
      FollowOne(AsMap(s), ContactsFull);
    } else {
      assert FollowAll(AsMap(s), []) == AsMap(s);
    }
  }

  lemma {:induction false} RisingAppend(start: int, a: seq<int>, b: seq<int>)
    requires Rising(start, a) && Rising(LastOf(start, a), b)
    ensures Rising(start, a + b) && LastOf(start, a + b) == LastOf(LastOf(start, a), b)
    decreases |a|
  {
    if a == [] {
      assert a + b == b;
    } else {
      assert (a + b)[1..] == a[1..] + b;
      RisingAppend(a[0], a[1..], b);
    }
  }

  /** While a key stays stored, through any sequence of adverts: the timestamps
      received for it strictly increase and the last one is what is stored, and
      its flags, route and sync state are what they were. */
  lemma {:induction false} AdvertsKeepLocalState(n: Node, events: seq<Event>, self: Key, max: nat, k: Key)
    requires Clean(n.contacts, self) && StaysStored(n, events, self, max, k)
    ensures var r := Run(n, events, self, max);
            && Has(r.node.contacts, k)
            && var c, d := AsMap(n.contacts)[k], AsMap(r.node.contacts)[k];
               && SameLocalState(c, d)
               && Rising(c.lastAdvert, Received(r.callbacks, k))
               && d.lastAdvert == LastOf(c.lastAdvert, Received(r.callbacks, k))
    decreases |events|
  {
    hide Handle, AsMap, Clean, Has, Received;
    if events == [] {
      NoReceipts([], k);
    } else {
      var first := Handle(n, events[0].advert, events[0].prefs, self, max);
      assert StaysStored(first.node, events[1..], self, max, k);
      HandleMirrors(n, events[0], self, max);
      HandleKeepsLocal(n, events[0], self, max, k);
      AdvertsKeepLocalState(first.node, events[1..], self, max, k);
      var rest := Run(first.node, events[1..], self, max);
      ReceivedAppend(first.callbacks, rest.callbacks, k);
      RisingAppend(AsMap(n.contacts)[k].lastAdvert, Received(first.callbacks, k), Received(rest.callbacks, k));
    }
  }

  // ----- What adverts bring -----

  /** What a contact shows of its adverts. */
  datatype Shown = Shown(name: string, advType: int, lat: real, lon: real, lastmod: int, lastAdvert: int,
                         packet: Option<seq<int>>)

  function ShownBy(c: Contact): Shown {
    Shown(c.name, c.advType, c.lat, c.lon, c.lastmod, c.lastAdvert, c.advertPacket)
  }

  /** What an advert shows: its own fields, and of the raw packet, the packet of
      its contact and the one known before the first that is there. */
  function ShownIn(a: Advert, before: Option<seq<int>>): Shown {
    Shown(a.contact.name, a.contact.advType, a.contact.lat, a.contact.lon, a.contact.lastmod, a.contact.lastAdvert,
          if a.rawPacket != [] then Some(a.rawPacket)
          else if a.contact.advertPacket.Some? then a.contact.advertPacket
          else before)
  }

  /** A usable advert of the key that is newer than what is shown replaces it. */
  function ShownAfter(shown: Shown, a: Advert, k: Key): Shown {
    if a.contact.publicKey == k && |k| >= 7 && a.contact.name != "" && a.contact.lastAdvert > shown.lastAdvert
    then ShownIn(a, shown.packet)
    else shown
  }

  function ShownAfterAll(shown: Shown, events: seq<Event>, k: Key): Shown
    decreases |events|
  {
    if events == [] then shown
    else ShownAfterAll(ShownAfter(shown, events[0].advert, k), events[1..], k)
  }

  lemma HandleRefreshes(n: Node, e: Event, self: Key, max: nat, k: Key)
    requires Clean(n.contacts, self) && Has(n.contacts, k)
    requires Has(Handle(n, e.advert, e.prefs, self, max).node.contacts, k)
    ensures var r := Handle(n, e.advert, e.prefs, self, max);
            ShownBy(AsMap(r.node.contacts)[k]) == ShownAfter(ShownBy(AsMap(n.contacts)[k]), e.advert, k)
  {
    hide AsMap, Clean, Has, Put, Oldest, BitSet, TypeBit, Remove;
    var a, c := e.advert, Incoming(e.advert);
    CleanParts(n.contacts, self);
    if !Dropped(n.contacts, self, c) {
      ApplyAsMap(n.contacts, c, a, e.prefs, max);
      ApplyCallbacks(n.contacts, c, a, e.prefs, max, k);
    }
  }

  /** While a key stays stored, through any sequence of adverts, the stored
      contact shows its latest advert: every usable one that is newer than the
      one before replaces name, type, position, time and packet. */
  lemma {:induction false} StoreShowsLatest(n: Node, events: seq<Event>, self: Key, max: nat, k: Key)
    requires Clean(n.contacts, self) && StaysStored(n, events, self, max, k)
    ensures var r := Run(n, events, self, max);
            && Has(r.node.contacts, k)
            && ShownBy(AsMap(r.node.contacts)[k]) == ShownAfterAll(ShownBy(AsMap(n.contacts)[k]), events, k)
    decreases |events|
  {
    hide Handle, AsMap, Clean, Has, ShownAfter, ShownBy;
    if events != [] {
      var first := Handle(n, events[0].advert, events[0].prefs, self, max);
      assert StaysStored(first.node, events[1..], self, max, k);
      HandleMirrors(n, events[0], self, max);
      HandleRefreshes(n, events[0], self, max, k);
      StoreShowsLatest(first.node, events[1..], self, max, k);
    }
  }

  /** The auto-add bits: bit 0 overwrites the oldest, bits 1 to 4 admit the
      contact types 1 to 4. */
  predicate Admits(config: int, bit: nat) {
    config / Bytes.Pow2(bit) % 2 == 1
  }

  /** Its type is admitted and it came fewer hops than the limit. */
  predicate Wanted(a: Advert, p: Prefs) {
    var kind := a.contact.advType;
    var hops := if a.pathLenEncoded.Some? then a.pathLenEncoded.value % 64 else |a.path|;
    && (p.manualAdd % 2 == 1 ==> 1 <= kind <= 4 && Admits(p.autoaddConfig, kind))
    && (p.autoaddMaxHops > 0 ==> hops < p.autoaddMaxHops)
  }

  /** Whether a contact that is not known yet is taken: it must be wanted, and
      there must be room, or a contact that may be overwritten and the leave to
      do so. */
  predicate Takes(s: Table, a: Advert, p: Prefs, max: nat) {
    && Wanted(a, p)
    && (|s| < max || (Admits(p.autoaddConfig, 0) && exists i :: 0 <= i < |s| && Evictable(s[i].value)))
  }

  lemma TypeBits(config: int, advType: int)
    ensures TypeBit(advType) > 0 && BitSet(config, TypeBit(advType)) <==> 1 <= advType <= 4 && Admits(config, advType)
    ensures BitSet(config, 0x01) <==> Admits(config, 0)
  {
    assert Bytes.Pow2(0) == 1 && Bytes.Pow2(1) == 2 && Bytes.Pow2(2) == 4;
    assert Bytes.Pow2(3) == 8 && Bytes.Pow2(4) == 16;
  }

  /** An advert of an unknown key that is not dropped is stored exactly when the
      store takes it; it is stored as it came, with its flags clear. */
  lemma NewContactStoredIff(n: Node, a: Advert, p: Prefs, self: Key, max: nat)
    requires Clean(n.contacts, self) && !Has(n.contacts, a.contact.publicKey)
    requires a.contact.publicKey != self && |a.contact.publicKey| >= 7 && a.contact.name != ""
    ensures var s := Handle(n, a, p, self, max).node.contacts;
            && (Has(s, a.contact.publicKey) <==> Takes(n.contacts, a, p, max))
            && (Has(s, a.contact.publicKey) ==>
                  AsMap(s)[a.contact.publicKey] == a.contact.(flags := 0, advertPacket := ShownIn(a, None).packet))
            && (!Has(s, a.contact.publicKey) ==> s == n.contacts)
  {
    hide AsMap, Clean, Has, Put, Oldest, BitSet, TypeBit, Remove, Admits;
    var c, s := Incoming(a), n.contacts;
    CleanParts(s, self);
    TypeBits(p.autoaddConfig, a.contact.advType);
    ApplyAsMap(s, c, a, p, max);
    VictimIsEvictable(s);
    AnyVictim(s);
  }

  lemma AnyVictim(s: Table)
    ensures Oldest(s, Evictable) == |s| ==> forall i :: 0 <= i < |s| ==> !Evictable(s[i].value)
  {}

  /** What the client and the path cache hear of an advert that is not dropped:
      a last callback that shows the contact, before it `contacts_full` when only
      the lack of room kept it out, and an entry under the first seven bytes of
      its key, behind at most fifteen others. */
  lemma AdvertIsReported(n: Node, a: Advert, p: Prefs, self: Key, max: nat)
    requires Clean(n.contacts, self) && !Dropped(n.contacts, self, a.contact)
    ensures var r, k := Handle(n, a, p, self, max), a.contact.publicKey;
            && r.callbacks != [] && r.callbacks[|r.callbacks| - 1].NodeDiscovered?
            && r.callbacks[|r.callbacks| - 1].contact.publicKey == k
            && r.callbacks[|r.callbacks| - 1].contact.name == a.contact.name
            && (Has(r.node.contacts, k) ==>
                  r.callbacks[|r.callbacks| - 1].contact == AsMap(r.node.contacts)[k])
    ensures var s, k := n.contacts, a.contact.publicKey;
            ContactsFull in Handle(n, a, p, self, max).callbacks <==>
            !Has(s, k) && !Takes(s, a, p, max) && |s| >= max && Wanted(a, p)
    ensures var paths := Handle(n, a, p, self, max).node.paths;
            var length := if a.pathLenEncoded.Some? then a.pathLenEncoded.value else |a.path|;
            && (Distinct(n.paths) && |n.paths| <= 16 ==>
                  |paths| == |n.paths| + if Has(n.paths, a.contact.publicKey[..7]) || |n.paths| == 16 then 0 else 1)
            && paths != []
            && paths[|paths| - 1] ==
               Entry(a.contact.publicKey[..7], RecencyTables.Heard(a.contact.name, length, a.path, a.now))
  {
    hide AsMap, Clean, Has, Put, Oldest, BitSet, TypeBit, Remove, Admits;
    var c, s := Incoming(a), n.contacts;
    CleanParts(s, self);
    TypeBits(p.autoaddConfig, a.contact.advType);
    ApplyAsMap(s, c, a, p, max);
    VictimIsEvictable(s);
    AnyVictim(s);
    if Distinct(n.paths) { RemoveDistinct(n.paths, a.contact.publicKey[..7]); }
  }
}
