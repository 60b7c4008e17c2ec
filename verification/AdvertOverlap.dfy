/** Advert events that overlap: each runs as a task of its own and is suspended
    at every callback it awaits, so others can change the store in between.

    An event changes the store and starts its first callback in one stretch; each
    further callback is a step.  The theorems range over every sequence of steps. */
module AdvertOverlap {
  import opened Recency
  import opened ContactStore
  import opened Options
  import opened Adverts

  /** `view` is what a client has that follows the callbacks; `waiting` holds the
      callbacks that each suspended event has still to make. */
  datatype Stage = Stage(node: Node, view: map<Key, Contact>, waiting: map<nat, seq<Callback>>)

  datatype Step = Arrives(id: nat, event: Event) | Resumes(id: nat)

  function Outcome(s: Stage, e: Event, self: Key, max: nat): Adverts.Outcome {
    Handle(s.node, e.advert, e.prefs, self, max)
  }

  /** One step; a step that is not enabled has no effect. */
  function Next(s: Stage, step: Step, self: Key, max: nat): Stage {
    match step
    case Arrives(id, e) =>
      var r := Outcome(s, e, self, max);
      if id in s.waiting || r.callbacks == [] then s
      else Stage(r.node, Follow(s.view, r.callbacks[0]), s.waiting[id := r.callbacks[1..]])
    case Resumes(id) =>
      if id !in s.waiting then s
      else if s.waiting[id] == [] then s.(waiting := s.waiting - {id})
      else s.(view := Follow(s.view, s.waiting[id][0]), waiting := s.waiting[id := s.waiting[id][1..]])
  }

  function Run(s: Stage, steps: seq<Step>, self: Key, max: nat): Stage
    decreases |steps|
  {
    if steps == [] then s else Run(Next(s, steps[0], self, max), steps[1..], self, max)
  }

  /** The events that take effect, in the order in which they arrive. */
  function Arrivals(s: Stage, steps: seq<Step>, self: Key, max: nat): seq<Event>
    decreases |steps|
  {
    if steps == [] then []
    else (if steps[0].Arrives? && steps[0].id !in s.waiting then [steps[0].event] else [])
         + Arrivals(Next(s, steps[0], self, max), steps[1..], self, max)
  }

  /** However events overlap, the store is what it is when they are handled one
      after another; only the callbacks come in another order. */
  lemma {:induction false} StoreIsSequential(s: Stage, steps: seq<Step>, self: Key, max: nat)
    ensures Run(s, steps, self, max).node == Adverts.Run(s.node, Arrivals(s, steps, self, max), self, max).node
    decreases |steps|
  {
    if steps != [] {
      var rest := Arrivals(Next(s, steps[0], self, max), steps[1..], self, max);
      StoreIsSequential(Next(s, steps[0], self, max), steps[1..], self, max);
      if steps[0].Arrives? && steps[0].id !in s.waiting {
        var e := steps[0].event;
        assert ([e] + rest)[0] == e && ([e] + rest)[1..] == rest;
        SilentIsIdle(s.node, e, self, max);
      } else {
        assert [] + rest == rest;
      }
    }
  }

  lemma SilentIsIdle(n: Node, e: Event, self: Key, max: nat)
    ensures var r := Handle(n, e.advert, e.prefs, self, max); r.callbacks == [] ==> r.node == n
  {}

  function Resumptions(id: nat, n: nat): seq<Step> {
    if n == 0 then [] else [Resumes(id)] + Resumptions(id, n - 1)
  }

  /** An event that is left to run makes all its callbacks, in order, and ends. */
  lemma {:induction false} EventFinishes(s: Stage, id: nat, self: Key, max: nat)
    requires id in s.waiting
    ensures Run(s, Resumptions(id, |s.waiting[id]| + 1), self, max) ==
            Stage(s.node, FollowAll(s.view, s.waiting[id]), s.waiting - {id})
    decreases |s.waiting[id]|
  {
    var w, steps := s.waiting[id], Resumptions(id, |s.waiting[id]| + 1);
    var r := Next(s, Resumes(id), self, max);
    assert steps[0] == Resumes(id) && steps[1..] == Resumptions(id, |w|);
    if w != [] {
      EventFinishes(r, id, self, max);
      assert r.waiting - {id} == s.waiting - {id};
    }
  }

  // ----- The shape of what an event does -----

  /** What is left behind the first callback: nothing, the discovery, or the
      advert and then the discovery. */
  predicate Tail(w: seq<Callback>) {
    && |w| <= 2
    && (|w| == 1 ==> w[0].NodeDiscovered?)
    && (|w| == 2 ==> w[0].AdvertReceived? && w[1].NodeDiscovered?)
  }

  predicate Update(before: map<Key, Contact>, after: map<Key, Contact>, cbs: seq<Callback>) {
    && |cbs| == 2 && cbs[0].AdvertReceived? && cbs[1].NodeDiscovered?
    && var d := cbs[0].contact;
       after == before[d.publicKey := d] && (d.publicKey in before ==> before[d.publicKey] != d)
  }

  predicate Replacement(before: map<Key, Contact>, after: map<Key, Contact>, cbs: seq<Callback>) {
    && |cbs| == 3 && cbs[0].ContactDeleted? && cbs[1].AdvertReceived? && cbs[2].NodeDiscovered?
    && var v, d := cbs[0].key, cbs[1].contact;
       v in before && d.publicKey !in before && after == (before - {v})[d.publicKey := d]
  }

  predicate Idle(before: map<Key, Contact>, after: map<Key, Contact>, cbs: seq<Callback>) {
    && after == before && cbs != [] && Tail(cbs[1..]) && (|cbs| == 1 || |cbs| == 2)
    && (cbs[0].NodeDiscovered? || cbs[0].ContactsFull?) && (|cbs| == 2 ==> cbs[1].NodeDiscovered?)
  }

  /** An event is dropped, or changes nothing, or stores one contact, or stores
      one in place of another; the callbacks say which. */
  lemma HandleShape(n: Node, e: Event, self: Key, max: nat)
    requires Clean(n.contacts, self)
    ensures var r := Handle(n, e.advert, e.prefs, self, max);
            var m, m' := AsMap(n.contacts), AsMap(r.node.contacts);
            && Clean(r.node.contacts, self)
            && ((r.callbacks == [] && r.node == n) || Idle(m, m', r.callbacks) || Update(m, m', r.callbacks)
                || Replacement(m, m', r.callbacks))
  {
    HandleMirrors(n, e, self, max);
    CleanParts(n.contacts, self);
    var c := Incoming(e.advert);
    if !Dropped(n.contacts, self, c) { AppliedShape(n, e, c, self, max); }
  }

  /** The callbacks of an event that is not dropped. */
  lemma AppliedCallbacks(n: Node, e: Event, c: Contact, self: Key, max: nat)
    requires Sound(n.contacts) && (forall x <- n.contacts :: x.key != [])
    requires c == Incoming(e.advert) && !Dropped(n.contacts, self, c)
    ensures var s, cbs := n.contacts, Handle(n, e.advert, e.prefs, self, max).callbacks;
            if Has(s, c.publicKey) then
              exists d: Contact :: d.publicKey == c.publicKey && d.lastAdvert == c.lastAdvert &&
                                   cbs == [AdvertReceived(d), NodeDiscovered(d)]
            else
              || cbs == [NodeDiscovered(c)] || cbs == [ContactsFull, NodeDiscovered(c)]
              || cbs == [AdvertReceived(c), NodeDiscovered(c)]
              || exists v: Key :: Overwrites(s, c, max) == Some(v) &&
                                  cbs == [ContactDeleted(v), AdvertReceived(c), NodeDiscovered(c)]
  {
    var applied := ApplyToStore(n.contacts, c, e.advert, e.prefs, max);
    StoredKey(n.contacts, c, e.advert, e.prefs, max);
    hide ApplyToStore, Overwrites, AsMap;
    var cbs := Handle(n, e.advert, e.prefs, self, max).callbacks;
    if Has(n.contacts, c.publicKey) {
      var d := applied.stored.value;
      assert cbs == [AdvertReceived(d), NodeDiscovered(d)];
    } else if applied.stored.Some? && applied.callbacks != [] {
      var v := applied.callbacks[0].key;
      assert applied.callbacks == [ContactDeleted(v)];
      assert cbs == [ContactDeleted(v), AdvertReceived(c), NodeDiscovered(c)];
    }
  }

  lemma AppliedShape(n: Node, e: Event, c: Contact, self: Key, max: nat)
    requires Clean(n.contacts, self) && c == Incoming(e.advert) && !Dropped(n.contacts, self, c)
    requires var r := Handle(n, e.advert, e.prefs, self, max);
             AsMap(r.node.contacts) == FollowAll(AsMap(n.contacts), r.callbacks)
    ensures var r := Handle(n, e.advert, e.prefs, self, max);
            var m, m' := AsMap(n.contacts), AsMap(r.node.contacts);
            Idle(m, m', r.callbacks) || Update(m, m', r.callbacks) || Replacement(m, m', r.callbacks)
  {
    var s, cbs := n.contacts, Handle(n, e.advert, e.prefs, self, max).callbacks;
    var m := AsMap(s);
    CleanParts(s, self);
    MapOfKeys(s, c.publicKey);
    AppliedCallbacks(n, e, c, self, max);
    hide Handle, AsMap, Overwrites, FollowAll, Sound, Incoming;
    if cbs == [NodeDiscovered(c)] {
      FollowOne(m, cbs[0]);
    } else if |cbs| == 2 {
      FollowTwo(m, cbs[0], cbs[1]);
      assert cbs == [cbs[0], cbs[1]];
    } else {
      OverwriteEvictsOldest(s, c, max, cbs[0].key);
      MapOfKeys(s, cbs[0].key);
      FollowThree(m, cbs[0], cbs[1], cbs[2]);
      assert cbs == [cbs[0], cbs[1], cbs[2]];
    }
  }

  lemma MapOfKeys(s: Table, k: Key)
    requires Sound(s)
    ensures k in AsMap(s) <==> Has(s, k)
  {}

  /** What is stored is the incoming contact, or its merge with a known one. */
  lemma StoredKey(s: Table, c: Contact, a: Advert, p: Prefs, max: nat)
    requires Sound(s) && forall e <- s :: e.key != []
    ensures var r := ApplyToStore(s, c, a, p, max);
            if Has(s, c.publicKey) then
              && r.callbacks == [] && r.stored.Some? && r.stored.value.publicKey == c.publicKey
              && r.stored.value.lastAdvert == c.lastAdvert
            else if r.stored.None? then r.callbacks == [] || r.callbacks == [ContactsFull]
            else
              && r.stored == Some(c)
              && (r.callbacks == [] || (|r.callbacks| == 1 && r.callbacks[0].ContactDeleted? &&
                                        Overwrites(s, c, max) == Some(r.callbacks[0].key)))
  {
    hide Put, AsMap, Overwritten, Stored, Oldest, BitSet;
  }

  lemma FollowTwo(m: map<Key, Contact>, a: Callback, b: Callback)
    ensures FollowAll(m, [a, b]) == Follow(Follow(m, a), b)
  {
    assert [a, b][1..] == [b];
    FollowOne(Follow(m, a), b);
  }

  lemma FollowThree(m: map<Key, Contact>, a: Callback, b: Callback, c: Callback)
    ensures FollowAll(m, [a, b, c]) == Follow(Follow(Follow(m, a), b), c)
  {
    assert [a, b, c][1..] == [b, c];
    FollowTwo(Follow(m, a), b, c);
  }

  // ----- When the client is right -----

  /** A report about the key is outstanding in this list. */
  predicate Owed(w: seq<Callback>, k: Key) {
    w != [] && w[0].AdvertReceived? && w[0].contact.publicKey == k
  }

  predicate Owes(s: Stage, k: Key) {
    exists id :: id in s.waiting && Owed(s.waiting[id], k)
  }

  predicate Inv(s: Stage, self: Key) {
    Clean(s.node.contacts, self) && forall id :: id in s.waiting ==> Tail(s.waiting[id])
  }

  predicate SameAt(a: map<Key, Contact>, b: map<Key, Contact>, k: Key) {
    (k in a <==> k in b) && (k in a ==> a[k] == b[k])
  }

  /** What is still to be reported is what is stored. */
  predicate ReportIsCurrent(s: Stage, id: nat)
    requires id in s.waiting
  {
    var w, m := s.waiting[id], AsMap(s.node.contacts);
    w != [] && w[0].AdvertReceived? ==> w[0].contact.publicKey in m && m[w[0].contact.publicKey] == w[0].contact
  }

  /** The client has what is stored, but for keys whose current contact is about
      to be reported to it. */
  ghost predicate Consistent(s: Stage) {
    && (forall id :: id in s.waiting ==> ReportIsCurrent(s, id))
    && (forall k: Key :: !Owes(s, k) ==> SameAt(s.view, AsMap(s.node.contacts), k))
  }

  /** Once nothing is outstanding, the client has exactly the store. */
  lemma ConsistentIsMirror(s: Stage)
    requires Consistent(s) && forall id :: id in s.waiting ==> s.waiting[id] == [] || !s.waiting[id][0].AdvertReceived?
    ensures s.view == AsMap(s.node.contacts)
  {
    var m := AsMap(s.node.contacts);
    forall k: Key ensures SameAt(s.view, m, k) { assert !Owes(s, k); }
    assert forall k :: k in s.view <==> SameAt(s.view, m, k) && k in m;
  }

  /** The event would store its contact in place of another. */
  predicate Replaces(t: Table, e: Event, max: nat) {
    var c := Incoming(e.advert);
    && !Has(t, c.publicKey) && ShouldAutoAdd(e.prefs, c.advType) && !TooFar(e.prefs, e.advert)
    && ShouldOverwrite(e.prefs) && |t| >= max && Overwrites(t, c, max).Some?
  }

  /** The event is not dropped, and a report is outstanding about its key, if
      that is stored, or else about the key it would evict. */
  predicate Disturbs(s: Stage, step: Step, self: Key, max: nat) {
    step.Arrives? && step.id !in s.waiting &&
    var t, c := s.node.contacts, Incoming(step.event.advert);
    !Dropped(t, self, c) &&
    if Has(t, c.publicKey) then Owes(s, c.publicKey)
    else Replaces(t, step.event, max) && Owes(s, Overwrites(t, c, max).value)
  }

  /** The same, read off what the handler then does. */
  predicate Touches(s: Stage, step: Step, self: Key, max: nat) {
    step.Arrives? && step.id !in s.waiting &&
    var cbs := Outcome(s, step.event, self, max).callbacks;
    cbs != [] &&
    match cbs[0]
    case AdvertReceived(d) => Owes(s, d.publicKey)
    case ContactDeleted(v) => Owes(s, v)
    case _ => false
  }

  /** The first callback tells of an eviction exactly when the event replaces. */
  lemma ReplacesIff(t: Table, e: Event, max: nat)
    requires Sound(t) && (forall x <- t :: x.key != []) && !Has(t, Incoming(e.advert).publicKey)
    ensures var c := Incoming(e.advert);
            var r := ApplyToStore(t, c, e.advert, e.prefs, max);
            Replaces(t, e, max) <==> |r.callbacks| == 1 && r.callbacks[0].ContactDeleted?
  {
    var c := Incoming(e.advert);
    if Overwrites(t, c, max).Some? { OverwriteEvictsOldest(t, c, max, Overwrites(t, c, max).value); }
    hide Put, Overwritten, Stored, BitSet, Incoming;
  }

  lemma DisturbsIsTouching(s: Stage, step: Step, self: Key, max: nat)
    requires Inv(s, self) && Consistent(s)
    ensures Disturbs(s, step, self, max) <==> Touches(s, step, self, max)
  {
    hide Owes, Consistent, ApplyToStore, Overwrites, Incoming, AsMap;
    if step.Arrives? && step.id !in s.waiting {
      var t, e := s.node.contacts, step.event;
      var c := Incoming(e.advert);
      CleanParts(t, self);
      if !Dropped(t, self, c) {
        AppliedCallbacks(s.node, e, c, self, max);
        if !Has(t, c.publicKey) {
          OwedIsStored(s, c.publicKey);
          FirstCallback(s.node, e, c, self, max);
        }
      }
    }
  }

  lemma FirstCallback(n: Node, e: Event, c: Contact, self: Key, max: nat)
    requires Sound(n.contacts) && (forall x <- n.contacts :: x.key != [])
    requires c == Incoming(e.advert) && !Dropped(n.contacts, self, c) && !Has(n.contacts, c.publicKey)
    ensures var cbs := Handle(n, e.advert, e.prefs, self, max).callbacks;
            cbs != [] && (cbs[0].ContactDeleted? <==> Replaces(n.contacts, e, max))
  {
    hide ApplyToStore, Overwrites, Incoming, AsMap;
    ReplacesIff(n.contacts, e, max);
    StoredKey(n.contacts, c, e.advert, e.prefs, max);
  }

  lemma OwedIsStored(s: Stage, k: Key)
    requires Consistent(s)
    ensures Owes(s, k) ==> Has(s.node.contacts, k)
  {
    if Owes(s, k) {
      var id :| id in s.waiting && Owed(s.waiting[id], k);
      assert ReportIsCurrent(s, id);
    }
  }

  lemma StepKeepsInv(s: Stage, step: Step, self: Key, max: nat)
    requires Inv(s, self)
    ensures Inv(Next(s, step, self, max), self)
  {
    hide Handle, Clean, AsMap;
    if step.Arrives? { HandleShape(s.node, step.event, self, max); }
  }

  /** Reports of the other events, and of this one, behind its first callback. */
  lemma OwesAfter(s: Stage, r: Stage, id: nat, k: Key)
    requires id !in s.waiting && id in r.waiting && r.waiting == s.waiting[id := r.waiting[id]]
    ensures Owes(r, k) <==> Owes(s, k) || Owed(r.waiting[id], k)
  {
    if Owes(s, k) {
      var j :| j in s.waiting && Owed(s.waiting[j], k);
      assert j in r.waiting && Owed(r.waiting[j], k);
    }
  }

  lemma UpdateConsistentIff(s: Stage, r: Stage, id: nat, cbs: seq<Callback>)
    requires Consistent(s) && id !in s.waiting && Update(AsMap(s.node.contacts), AsMap(r.node.contacts), cbs)
    requires r.view == Follow(s.view, cbs[0]) && r.waiting == s.waiting[id := cbs[1..]]
    ensures Consistent(r) <==> !Owes(s, cbs[0].contact.publicKey)
  {
    hide AsMap;
    var d := cbs[0].contact;
    forall k: Key ensures Owes(r, k) <==> Owes(s, k) { OwesAfter(s, r, id, k); }
    if Owes(s, d.publicKey) {
      var j :| j in s.waiting && Owed(s.waiting[j], d.publicKey);
      assert ReportIsCurrent(s, j) && !ReportIsCurrent(r, j);
    } else {
      forall j | j in r.waiting ensures ReportIsCurrent(r, j) {
        if j != id {
          assert ReportIsCurrent(s, j) && r.waiting[j] == s.waiting[j];
          assert !Owed(s.waiting[j], d.publicKey);
        }
      }
      forall k: Key | !Owes(r, k) ensures SameAt(r.view, AsMap(r.node.contacts), k) {
        assert SameAt(s.view, AsMap(s.node.contacts), k);
      }
    }
  }

  lemma ReplacementConsistentIff(s: Stage, r: Stage, id: nat, cbs: seq<Callback>)
    requires Consistent(s) && id !in s.waiting && Replacement(AsMap(s.node.contacts), AsMap(r.node.contacts), cbs)
    requires r.view == Follow(s.view, cbs[0]) && r.waiting == s.waiting[id := cbs[1..]]
    ensures Consistent(r) <==> !Owes(s, cbs[0].key)
  {
    hide AsMap;
    var v, d := cbs[0].key, cbs[1].contact;
    forall k: Key ensures Owes(r, k) <==> Owes(s, k) || k == d.publicKey { OwesAfter(s, r, id, k); }
    if Owes(s, v) {
      var j :| j in s.waiting && Owed(s.waiting[j], v);
      assert ReportIsCurrent(s, j) && !ReportIsCurrent(r, j);
    } else {
      forall j | j in r.waiting ensures ReportIsCurrent(r, j) {
        if j != id {
          assert ReportIsCurrent(s, j) && r.waiting[j] == s.waiting[j];
          assert !Owed(s.waiting[j], v);
        }
      }
      forall k: Key | !Owes(r, k) ensures SameAt(r.view, AsMap(r.node.contacts), k) {
        assert SameAt(s.view, AsMap(s.node.contacts), k);
      }
    }
  }

  lemma IdleConsistent(s: Stage, r: Stage, id: nat, cbs: seq<Callback>)
    requires Consistent(s) && id !in s.waiting && Idle(AsMap(s.node.contacts), AsMap(r.node.contacts), cbs)
    requires r.view == Follow(s.view, cbs[0]) && r.waiting == s.waiting[id := cbs[1..]]
    ensures Consistent(r)
  {
    hide AsMap;
    forall k: Key ensures Owes(r, k) <==> Owes(s, k) { OwesAfter(s, r, id, k); }
    forall j | j in r.waiting ensures ReportIsCurrent(r, j) {
      if j != id { assert ReportIsCurrent(s, j); }
    }
    forall k: Key | !Owes(r, k) ensures SameAt(r.view, AsMap(r.node.contacts), k) {
      assert SameAt(s.view, AsMap(s.node.contacts), k);
    }
  }

  lemma ArrivalConsistentIff(s: Stage, id: nat, e: Event, self: Key, max: nat)
    requires Inv(s, self) && Consistent(s)
    ensures Consistent(Next(s, Arrives(id, e), self, max)) <==> !Touches(s, Arrives(id, e), self, max)
  {
    hide Handle, AsMap, Consistent, Owes, Clean, Follow;
    HandleShape(s.node, e, self, max);
    var out, r := Outcome(s, e, self, max), Next(s, Arrives(id, e), self, max);
    if id !in s.waiting && out.callbacks != [] {
      var m, m' := AsMap(s.node.contacts), AsMap(out.node.contacts);
      if Update(m, m', out.callbacks) { UpdateConsistentIff(s, r, id, out.callbacks); }
      else if Replacement(m, m', out.callbacks) { ReplacementConsistentIff(s, r, id, out.callbacks); }
      else { IdleConsistent(s, r, id, out.callbacks); }
    }
  }

  lemma StillOwed(s: Stage, r: Stage, id: nat, k: Key)
    requires id in s.waiting && forall j :: j in s.waiting && j != id ==> j in r.waiting && r.waiting[j] == s.waiting[j]
    ensures Owes(s, k) ==> Owed(s.waiting[id], k) || Owes(r, k)
  {}

  lemma ResumeConsistent(s: Stage, id: nat, self: Key, max: nat)
    requires Inv(s, self) && Consistent(s)
    ensures Consistent(Next(s, Resumes(id), self, max))
  {
    hide AsMap, Clean;
    var r := Next(s, Resumes(id), self, max);
    if id in s.waiting {
      var w := s.waiting[id];
      forall j | j in r.waiting ensures ReportIsCurrent(r, j) { assert ReportIsCurrent(s, j); }
      forall k: Key | !Owes(r, k) ensures SameAt(r.view, AsMap(r.node.contacts), k) {
        StillOwed(s, r, id, k);
        if Owes(s, k) {
          assert ReportIsCurrent(s, id);
        } else {
          assert SameAt(s.view, AsMap(s.node.contacts), k) && !Owed(w, k);
        }
      }
    }
  }

  lemma StepConsistentIff(s: Stage, step: Step, self: Key, max: nat)
    requires Inv(s, self) && Consistent(s)
    ensures Consistent(Next(s, step, self, max)) <==> !Disturbs(s, step, self, max)
  {
    DisturbsIsTouching(s, step, self, max);
    hide Consistent, Next, Inv, Disturbs;
    match step
    case Arrives(id, e) => ArrivalConsistentIff(s, id, e, self, max);
    case Resumes(id) =>
      ResumeConsistent(s, id, self, max);
      ResumesIsQuiet(s, id, self, max);
  }

  lemma ResumesIsQuiet(s: Stage, id: nat, self: Key, max: nat)
    ensures !Disturbs(s, Resumes(id), self, max)
  {}

  predicate NeverDisturbs(s: Stage, steps: seq<Step>, self: Key, max: nat)
    decreases |steps|
  {
    steps == [] ||
    (!Disturbs(s, steps[0], self, max) && NeverDisturbs(Next(s, steps[0], self, max), steps[1..], self, max))
  }

  /** Over every interleaving: after every prefix the client has what is stored
      or is about to be told it, exactly when no event touches a key while an
      earlier report about that key is outstanding. */
  lemma {:induction false} ConsistentIffNeverDisturbs(s: Stage, steps: seq<Step>, self: Key, max: nat)
    requires Inv(s, self) && Consistent(s)
    ensures (forall n :: 0 <= n <= |steps| ==> Consistent(Run(s, steps[..n], self, max)))
            <==> NeverDisturbs(s, steps, self, max)
    decreases |steps|
  {
    hide Inv, Consistent, Next, Disturbs;
    if steps == [] { return; }
    StepKeepsInv(s, steps[0], self, max);
    StepConsistentIff(s, steps[0], self, max);
    var m, rest := Next(s, steps[0], self, max), steps[1..];
    forall n | 0 <= n <= |rest| ensures Run(s, steps[..n + 1], self, max) == Run(m, rest[..n], self, max) {
      assert steps[..n + 1][0] == steps[0] && steps[..n + 1][1..] == rest[..n];
    }
    if Disturbs(s, steps[0], self, max) {
      assert Run(s, steps[..0 + 1], self, max) == Run(m, rest[..0], self, max) == m;
      return;
    }
    ConsistentIffNeverDisturbs(m, rest, self, max);
    if forall n :: 0 <= n <= |steps| ==> Consistent(Run(s, steps[..n], self, max)) {
      forall n | 0 <= n <= |rest| ensures Consistent(Run(m, rest[..n], self, max)) {
        assert Consistent(Run(s, steps[..n + 1], self, max));
      }
    }
    if NeverDisturbs(m, rest, self, max) {
      forall n | 0 <= n <= |steps| ensures Consistent(Run(s, steps[..n], self, max)) {
        if n > 0 { assert Consistent(Run(m, rest[..n - 1], self, max)) && steps[..(n - 1) + 1] == steps[..n]; }
      }
    }
  }

  // ----- It does go wrong -----

  /** An advert of the contact, under preferences that overwrite the oldest. */
  function Heard(c: Contact): Event {
    Event(Advert(c, [], [], None, 0), Prefs(0, 1, 0))
  }

  /** A full store of one contact gives it up for another. */
  lemma Evicting(v: Contact, n: Contact, self: Key)
    requires Evictable(v) && v.publicKey != [] && Usable(n) && n.publicKey != self && n.publicKey != v.publicKey
    ensures var d, r := n.(flags := 0), Handle(Node([ByKey(v)], []), Heard(n).advert, Heard(n).prefs, self, 1);
            r.node.contacts == [ByKey(d)] &&
            r.callbacks == [ContactDeleted(v.publicKey), AdvertReceived(d), NodeDiscovered(d)]
  {
    var s, d := [ByKey(v)], n.(flags := 0);
    assert !Has(s, d.publicKey) && s[0] == ByKey(v);
    assert s[..0] == [] && Oldest(s[..0], Evictable) == 0 && Oldest(s, Evictable) == 0;
    assert Remove(s, v.publicKey) == [] by { assert s[1..] == []; }
    assert Put([], ByKey(d)) == [ByKey(d)];
    assert Overwritten(s, d, 1) == [ByKey(d)] && Overwrites(s, d, 1) == Some(v.publicKey);
    assert ApplyToStore(s, d, Heard(n).advert, Heard(n).prefs, 1) ==
           Applied([ByKey(d)], Some(d), [ContactDeleted(v.publicKey)]);
    hide ApplyToStore;
  }

  /** A newer advert of the one contact stored. */
  lemma Refreshing(n: Node, c: Contact, newer: Contact, self: Key)
    requires n.contacts == [ByKey(c)] && Usable(newer) && newer.publicKey == c.publicKey != self
    requires newer.lastAdvert > c.lastAdvert
    ensures var d, r := Merged(newer.(flags := 0), c), Handle(n, Heard(newer).advert, Heard(newer).prefs, self, 1);
            r.node.contacts == [ByKey(d)] && r.callbacks == [AdvertReceived(d), NodeDiscovered(d)]
  {
    var s, i := [ByKey(c)], newer.(flags := 0);
    assert s[0] == ByKey(c) && s[1..] == [];
    assert AsMap(s) == AsMap(s[1..])[c.publicKey := c];
    var d := Merged(i, c);
    assert Put(s, ByKey(d)) == [ByKey(d)];
    assert ApplyToStore(s, i, Heard(newer).advert, Heard(newer).prefs, 1) == Applied([ByKey(d)], Some(d), []);
    hide ApplyToStore;
  }

  /** While the report of a contact that took another's place is outstanding, a
      newer advert of it is stored and reported first; then the older report
      arrives, and with nothing outstanding the client is left with it. */
  lemma OverlapMisleads(v: Contact, n: Contact, newer: Contact, self: Key)
    requires Evictable(v) && v.publicKey != [] && Usable(n) && n.publicKey != self && n.publicKey != v.publicKey
    requires Usable(newer) && newer.publicKey == n.publicKey && newer.lastAdvert > n.lastAdvert
    ensures var s := Stage(Node([ByKey(v)], []), map[v.publicKey := v], map[]);
            var r := Run(s, [Arrives(0, Heard(n)), Arrives(1, Heard(newer)), Resumes(0)], self, 1);
            && (forall k: Key :: !Owes(r, k)) && n.publicKey in r.view && r.view[n.publicKey] == n.(flags := 0)
            && r.node.contacts == [ByKey(Merged(newer.(flags := 0), n.(flags := 0)))]
  {
    hide Handle, Merged;
    var s, c := Stage(Node([ByKey(v)], []), map[v.publicKey := v], map[]), n.(flags := 0);
    Evicting(v, n, self);
    var a := Next(s, Arrives(0, Heard(n)), self, 1);
    assert a.waiting == map[0 := [AdvertReceived(c), NodeDiscovered(c)]];
    Refreshing(a.node, c, newer, self);
    var b := Next(a, Arrives(1, Heard(newer)), self, 1);
    var d := Merged(newer.(flags := 0), c);
    assert b.waiting == map[0 := [AdvertReceived(c), NodeDiscovered(c)], 1 := [NodeDiscovered(d)]];
    var r := Next(b, Resumes(0), self, 1);
    assert r.waiting == map[0 := [NodeDiscovered(c)], 1 := [NodeDiscovered(d)]];
    var steps := [Arrives(0, Heard(n)), Arrives(1, Heard(newer)), Resumes(0)];
    assert steps[1..][1..] == [Resumes(0)] && [Resumes(0)][1..] == [];
    assert Run(b, [Resumes(0)], self, 1) == r && Run(a, steps[1..], self, 1) == Run(b, [Resumes(0)], self, 1);
  }
}
