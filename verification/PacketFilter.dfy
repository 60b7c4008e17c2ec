/** The packet filter's bounded tables: the refreshing hash cache, the duplicate
    window and the malformed-frame blacklist.  Clock readings are parameters. */
module PacketFilter {
  import opened Options
  import opened Recency

  type Key = string
  type Stamp = Entry<Key, real>

  /** The readings in a history do not decrease. */
  predicate Ordered(s: seq<Stamp>) {
    forall i, j :: 0 <= i < j < |s| ==> s[i].value <= s[j].value
  }

  lemma OrderedTail(s: seq<Stamp>)
    requires Ordered(s) && s != []
    ensures Ordered(s[1..])
  {}

  lemma {:induction false} LatestOrdered(h: seq<Stamp>)
    requires Ordered(h)
    ensures Ordered(Latest(h))
  {
    if h != [] {
      OrderedTail(h);
      LatestOrdered(h[1..]);
      var rest := Latest(h[1..]);
      forall j | 0 <= j < |rest| ensures h[0].value <= rest[j].value {
        LatestMember(h[1..], rest[j]);
        assert rest[j] in h[1..];
      }
    }
  }

  // ----- The hash cache -----

  /** Drop from the head while it is older than the TTL. */
  function Evict(s: seq<Stamp>, now: real, ttl: real): seq<Stamp> {
    if s == [] || now - s[0].value <= ttl then s else Evict(s[1..], now, ttl)
  }

  function Cap(s: seq<Stamp>, limit: nat): seq<Stamp> {
    if |s| > limit then s[1..] else s
  }

  function Checked(s: seq<Stamp>, k: Key, now: real, ttl: real, limit: nat): seq<Stamp> {
    Cap(Touch(Evict(s, now, ttl), Entry(k, now)), limit)
  }

  class PacketHashCache {
    const ttl: real
    const maxEntries: nat
    var entries: seq<Stamp>

    constructor (ttl: real, maxEntries: int)
      requires ttl >= 0.0 && maxEntries > 0
      ensures this.ttl == ttl && this.maxEntries == maxEntries && entries == []
    {
      this.ttl, this.maxEntries, entries := ttl, maxEntries, [];
    }

    method EvictExpired(now: real)
      modifies this
      ensures entries == Evict(old(entries), now, ttl)
    {
      while |entries| > 0
        invariant Evict(entries, now, ttl) == Evict(old(entries), now, ttl)
        decreases |entries|
      {
        if now - entries[0].value <= ttl { break; }
        entries := entries[1..];
      }
    }

    method CheckAndAdd(k: Key, now: real) returns (hit: bool)
      modifies this
      ensures hit <==> Has(Evict(old(entries), now, ttl), k)
      ensures entries == Checked(old(entries), k, now, ttl, maxEntries)
    {
      EvictExpired(now);
      hit := Has(entries, k);
      entries := Touch(entries, Entry(k, now));
      if |entries| > maxEntries { entries := entries[1..]; }
    }
  }

  /** Construction refuses a negative TTL and a limit that is not positive. */
  method NewHashCache(ttl: real, maxEntries: int) returns (cache: PacketHashCache?)
    ensures cache == null <==> ttl < 0.0 || maxEntries <= 0
    ensures cache != null ==> fresh(cache) && cache.ttl == ttl && cache.maxEntries == maxEntries && cache.entries == []
  {
    if ttl < 0.0 || maxEntries <= 0 { return null; }
    cache := new PacketHashCache(ttl, maxEntries);
  }

  /** The cache after a history of calls. */
  function AfterCalls(h: seq<Stamp>, ttl: real, limit: nat): seq<Stamp> {
    if h == [] then []
    else var e := h[|h| - 1];
         Checked(AfterCalls(h[..|h| - 1], ttl, limit), e.key, e.value, ttl, limit)
  }

  /** Few enough entries, and none too old. */
  predicate Fits(s: seq<Stamp>, now: real, ttl: real, limit: nat) {
    |s| <= limit && forall i :: 0 <= i < |s| ==> now - s[i].value <= ttl
  }

  /** The longest suffix that fits. */
  function LongestFit(s: seq<Stamp>, now: real, ttl: real, limit: nat): (r: seq<Stamp>)
    ensures Fits(r, now, ttl, limit)
  {
    if s == [] || Fits(s, now, ttl, limit) then s else LongestFit(s[1..], now, ttl, limit)
  }

  lemma {:induction false} FitIsSuffix(s: seq<Stamp>, now: real, ttl: real, limit: nat)
    ensures var r := LongestFit(s, now, ttl, limit);
            |r| <= |s| && r == s[|s| - |r|..]
  {
    if s != [] && !Fits(s, now, ttl, limit) {
      hide Fits;
      FitIsSuffix(s[1..], now, ttl, limit);
      var r := LongestFit(s, now, ttl, limit);
      assert s[1..][|s| - 1 - |r|..] == s[|s| - |r|..];
    } else {
      assert s[0..] == s;
    }
  }

  lemma {:induction false} NoLongerSuffixFits(s: seq<Stamp>, now: real, ttl: real, limit: nat, k: nat)
    requires k <= |s| && Fits(s[k..], now, ttl, limit)
    ensures |s| - k <= |LongestFit(s, now, ttl, limit)|
    decreases |s|
  {
    if s != [] && !Fits(s, now, ttl, limit) {
      assert s[0..] == s;
      assert s[1..][k - 1..] == s[k..];
      hide Fits;
      NoLongerSuffixFits(s[1..], now, ttl, limit, k - 1);
    }
  }

  /** On a short ordered table, evicting from the head removes every expired
      entry and nothing else. */
  lemma {:induction false} EvictIsFit(s: seq<Stamp>, now: real, ttl: real, limit: nat)
    requires Ordered(s) && |s| <= limit
    ensures Evict(s, now, ttl) == LongestFit(s, now, ttl, limit)
  {
    if s != [] {
      OrderedTail(s);
      EvictIsFit(s[1..], now, ttl, limit);
      if now - s[0].value <= ttl {
        forall i | 0 <= i < |s| ensures now - s[i].value <= ttl { if i > 0 { assert s[0].value <= s[i].value; } }
      }
    }
  }

  /** What did not fit before does not fit later. */
  lemma {:induction false} FitShrinks(s: seq<Stamp>, t: real, now: real, ttl: real, limit: nat)
    requires t <= now
    ensures LongestFit(LongestFit(s, t, ttl, limit), now, ttl, limit) == LongestFit(s, now, ttl, limit)
  {
    if !Fits(s, t, ttl, limit) && s != [] {
      FitShrinks(s[1..], t, now, ttl, limit);
      assert !Fits(s, now, ttl, limit) by {
        if |s| <= limit {
          var i :| 0 <= i < |s| && t - s[i].value > ttl;
        }
      }
    }
  }

  /** When everything fits, so does everything touched, but for the head. */
  lemma TouchFitting(s: seq<Stamp>, e: Stamp, ttl: real, limit: nat)
    requires Distinct(s) && ttl >= 0.0 && limit > 0 && Fits(s, e.value, ttl, limit)
    ensures LongestFit(Touch(s, e), e.value, ttl, limit) == Cap(Touch(s, e), limit)
  {
    var t, now := Touch(s, e), e.value;
    TouchDistinct(s, e);
    forall i | 0 <= i < |t| ensures now - t[i].value <= ttl {
      if i < |t| - 1 {
        RemoveMember(s, e.key, t[i]);
        assert t[i] in Remove(s, e.key);
        assert t[i] in s;
      }
    }
    if |t| > limit { assert Fits(t[1..], now, ttl, limit); }
  }

  /** An ordered table that does not fit still does not once touched. */
  lemma TouchUnfitting(s: seq<Stamp>, e: Stamp, ttl: real, limit: nat)
    requires Ordered(s) && Distinct(s) && s != [] && !Fits(s, e.value, ttl, limit)
    ensures LongestFit(Touch(s, e), e.value, ttl, limit) == LongestFit(Touch(s[1..], e), e.value, ttl, limit)
  {
    var t, now, rest := Touch(s, e), e.value, s[1..];
    TouchDistinct(s, e);
    if s[0].key == e.key {
      assert Remove(s, e.key) == Remove(rest, e.key);
    } else {
      assert t == [s[0]] + Touch(rest, e);
      assert t[0] == s[0] && t[1..] == Touch(rest, e);
      if |s| <= limit {
        var i :| 0 <= i < |s| && now - s[i].value > ttl;
        assert s[0].value <= s[i].value;
      }
    }
  }

  /** Touching the newest end commutes with taking the longest fit. */
  lemma {:induction false} TouchFits(s: seq<Stamp>, e: Stamp, ttl: real, limit: nat)
    requires Ordered(s) && Distinct(s) && ttl >= 0.0 && limit > 0
    ensures LongestFit(Touch(s, e), e.value, ttl, limit) ==
            Cap(Touch(LongestFit(s, e.value, ttl, limit), e), limit)
    decreases |s|
  {
    hide Touch, Cap;
    if Fits(s, e.value, ttl, limit) {
      TouchFitting(s, e, ttl, limit);
    } else {
      if s != [] {
        OrderedTail(s);
        DistinctTail(s);
        hide Fits;
        TouchFits(s[1..], e, ttl, limit);
        TouchUnfitting(s, e, ttl, limit);
      }
    }
  }

  /** The table equals a function of the whole history: of every key the latest
      call, the longest suffix of these that is neither too long nor, at the
      time of the last call, too old. */
  lemma {:induction false} CacheEqualsHistory(h: seq<Stamp>, ttl: real, limit: nat)
    requires Ordered(h) && h != [] && ttl >= 0.0 && limit > 0
    ensures AfterCalls(h, ttl, limit) == LongestFit(Latest(h), h[|h| - 1].value, ttl, limit)
    decreases |h|, 0
  {
    hide Latest, LongestFit, Evict, Touch;
    var n := |h| - 1;
    var e, before := h[n], h[..n];
    assert h == before + [e];
    HistoryBefore(before, e, ttl, limit);
    LatestSnoc(before, e);
    LatestOrdered(before);
    LatestDistinct(before);
    TouchFits(Latest(before), e, ttl, limit);
  }

  /** The table as a call at `e.value` finds it, expired entries gone. */
  lemma {:induction false} HistoryBefore(before: seq<Stamp>, e: Stamp, ttl: real, limit: nat)
    requires Ordered(before + [e]) && ttl >= 0.0 && limit > 0
    ensures Evict(AfterCalls(before, ttl, limit), e.value, ttl) ==
            LongestFit(Latest(before), e.value, ttl, limit)
    decreases |before|, 1
  {
    hide Latest, LongestFit;
    if before != [] {
      var last := before[|before| - 1];
      assert (before + [e])[|before| - 1] == last && (before + [e])[|before|] == e;
      assert Ordered(before) by { OrderedPrefix(before, e); }
      CacheEqualsHistory(before, ttl, limit);
      LatestOrdered(before);
      var table := AfterCalls(before, ttl, limit);
      FitShrinks(Latest(before), last.value, e.value, ttl, limit);
      FitOrdered(Latest(before), last.value, ttl, limit);
      EvictIsFit(table, e.value, ttl, limit);
    } else {
      EmptyFit(e.value, ttl, limit);
    }
  }

  lemma EmptyFit(now: real, ttl: real, limit: nat)
    ensures LongestFit(Latest([]), now, ttl, limit) == []
  {}

  lemma OrderedPrefix(s: seq<Stamp>, e: Stamp)
    requires Ordered(s + [e])
    ensures Ordered(s)
  {
    forall i, j | 0 <= i < j < |s| ensures s[i].value <= s[j].value {
      assert (s + [e])[i] == s[i] && (s + [e])[j] == s[j];
    }
  }

  lemma FitOrdered(s: seq<Stamp>, now: real, ttl: real, limit: nat)
    requires Ordered(s)
    ensures Ordered(LongestFit(s, now, ttl, limit)) && |LongestFit(s, now, ttl, limit)| <= limit
  {
    FitIsSuffix(s, now, ttl, limit);
    hide LongestFit;
    var r := LongestFit(s, now, ttl, limit);
    var o := |s| - |r|;
    forall i, j | 0 <= i < j < |r| ensures r[i].value <= r[j].value {
      assert r[i] == s[o + i] && r[j] == s[o + j];
    }
  }

  /** `check_and_add` answers True exactly for a key whose latest call is still
      in the longest fitting suffix. */
  lemma HitIffInWindow(before: seq<Stamp>, k: Key, now: real, ttl: real, limit: nat)
    requires Ordered(before + [Entry(k, now)]) && ttl >= 0.0 && limit > 0
    ensures Has(Evict(AfterCalls(before, ttl, limit), now, ttl), k) <==>
            Has(LongestFit(Latest(before), now, ttl, limit), k)
  {
    HistoryBefore(before, Entry(k, now), ttl, limit);
  }

  // ----- The duplicate window and the blacklist -----

  const BLACKLIST_MAX: nat := 4096
  const BLACKLIST_TTL: real := 300.0

  datatype Tables = Tables(hashes: map<Key, real>, blacklist: seq<Stamp>)

  /** The value stored for a key, if any. */
  function Lookup(s: seq<Stamp>, k: Key): Option<real> {
    if s == [] then None else if s[0].key == k then Some(s[0].value) else Lookup(s[1..], k)
  }

  predicate DuplicateIn(t: Tables, k: Key, now: real, window: real) {
    k in t.hashes && now - t.hashes[k] < window
  }

  predicate BlacklistedIn(t: Tables, k: Key, now: real) {
    var at := Lookup(t.blacklist, k);
    at.Some? && now - at.value < BLACKLIST_TTL
  }

  function Tracked(t: Tables, k: Key, now: real): Tables {
    t.(hashes := t.hashes[k := now])
  }

  function Blacklisted(t: Tables, k: Key, now: real): Tables {
    t.(blacklist := Cap(Touch(t.blacklist, Entry(k, now)), BLACKLIST_MAX))
  }

  function Fresh(s: seq<Stamp>, now: real, ttl: real): seq<Stamp> {
    if s == [] then []
    else (if now - s[0].value > ttl then [] else [s[0]]) + Fresh(s[1..], now, ttl)
  }

  function Cleaned(t: Tables, now: real, window: real): Tables {
    Tables(map k | k in t.hashes && now - t.hashes[k] <= window :: t.hashes[k],
           Fresh(t.blacklist, now, BLACKLIST_TTL))
  }

  class Filter {
    const window: real
    var hashes: map<Key, real>
    var blacklist: seq<Stamp>

    function State(): Tables
      reads this
    {
      Tables(hashes, blacklist)
    }

    constructor (window: real)
      ensures this.window == window && State() == Tables(map[], [])
    {
      this.window, hashes, blacklist := window, map[], [];
    }

    method IsDuplicate(k: Key, now: real) returns (r: bool)
      ensures r == DuplicateIn(State(), k, now, window)
    {
      if k in hashes {
        var age := now - hashes[k];
        if age < window { return true; }
      }
      return false;
    }

    method TrackPacket(k: Key, now: real)
      modifies this
      ensures State() == Tracked(old(State()), k, now)
    {
      hashes := hashes[k := now];
    }

    method Blacklist(k: Key, now: real)
      modifies this
      ensures State() == Blacklisted(old(State()), k, now)
    {
      blacklist := Touch(blacklist, Entry(k, now));
      if |blacklist| > BLACKLIST_MAX { blacklist := blacklist[1..]; }
    }

    method IsBlacklisted(k: Key, now: real) returns (r: bool)
      ensures r == BlacklistedIn(State(), k, now)
    {
      for i := 0 to |blacklist|
        invariant Lookup(blacklist, k) == Lookup(blacklist[i..], k)
      {
        assert blacklist[i..][1..] == blacklist[i + 1..];
        if blacklist[i].key == k { return now - blacklist[i].value < 300.0; }
      }
      return false;
    }

    method CleanupOldHashes(now: real)
      modifies this
      ensures State() == Cleaned(old(State()), now, window)
    {
      hashes := map k | k in hashes && now - hashes[k] <= window :: hashes[k];
      var kept: seq<Stamp> := [];
      for i := 0 to |blacklist|
        invariant kept + Fresh(blacklist[i..], now, BLACKLIST_TTL) == Fresh(blacklist, now, BLACKLIST_TTL)
        invariant hashes == Cleaned(old(State()), now, window).hashes && blacklist == old(blacklist)
      {
        assert blacklist[i..][1..] == blacklist[i + 1..];
        if !(now - blacklist[i].value > 300.0) { kept := kept + [blacklist[i]]; }
      }
      blacklist := kept;
    }

    method Clear()
      modifies this
      ensures State() == Tables(map[], [])
    {
      hashes, blacklist := map[], [];
    }
  }

  // ----- Cleanup is invisible -----

  datatype Call =
    | Track(k: Key, at: real)
    | Ban(k: Key, at: real)
    | AskDuplicate(k: Key, at: real)
    | AskBlacklisted(k: Key, at: real)
    | Cleanup(at: real)
    | Forget(at: real)

  function Next(t: Tables, c: Call, window: real): Tables {
    match c
    case Track(k, at) => Tracked(t, k, at)
    case Ban(k, at) => Blacklisted(t, k, at)
    case Cleanup(at) => Cleaned(t, at, window)
    case Forget(_) => Tables(map[], [])
    case _ => t
  }

  function Answer(t: Tables, c: Call, window: real): seq<bool> {
    match c
    case AskDuplicate(k, at) => [DuplicateIn(t, k, at, window)]
    case AskBlacklisted(k, at) => [BlacklistedIn(t, k, at)]
    case _ => []
  }

  function Answers(t: Tables, calls: seq<Call>, window: real): seq<bool>
    decreases |calls|
  {
    if calls == [] then []
    else Answer(t, calls[0], window) + Answers(Next(t, calls[0], window), calls[1..], window)
  }

  function WithoutCleanup(calls: seq<Call>): seq<Call> {
    if calls == [] then []
    else (if calls[0].Cleanup? then [] else [calls[0]]) + WithoutCleanup(calls[1..])
  }

  predicate Monotone(now: real, calls: seq<Call>)
    decreases |calls|
  {
    calls == [] || (now <= calls[0].at && Monotone(calls[0].at, calls[1..]))
  }

  /** A cleaned table is the tail of the uncleaned one, and what it lacks had
      already expired. */
  predicate BlacklistBehind(full: seq<Stamp>, dropped: seq<Stamp>, lean: seq<Stamp>, now: real) {
    && full == dropped + lean
    && Distinct(full) && Ordered(full) && |full| <= BLACKLIST_MAX
    && (forall i :: 0 <= i < |full| ==> full[i].value <= now)
    && (forall i :: 0 <= i < |dropped| ==> now - dropped[i].value > BLACKLIST_TTL)
  }

  predicate HashesBehind(full: map<Key, real>, lean: map<Key, real>, now: real, window: real) {
    && (forall k :: k in lean ==> k in full && lean[k] == full[k])
    && (forall k :: k in full ==> full[k] <= now)
    && (forall k :: k in full && k !in lean ==> now - full[k] > window)
  }

  ghost predicate Behind(full: Tables, lean: Tables, now: real, window: real) {
    && HashesBehind(full.hashes, lean.hashes, now, window)
    && exists dropped :: BlacklistBehind(full.blacklist, dropped, lean.blacklist, now)
  }

  lemma {:induction false} LookupBehind(dropped: seq<Stamp>, lean: seq<Stamp>, k: Key)
    requires Distinct(dropped + lean)
    ensures if Has(dropped, k) then
              && Lookup(lean, k) == None
              && exists i :: 0 <= i < |dropped| && Lookup(dropped + lean, k) == Some(dropped[i].value)
            else Lookup(dropped + lean, k) == Lookup(lean, k)
    decreases |dropped|
  {
    if dropped == [] {
      assert dropped + lean == lean;
    } else {
      var rest, all := dropped[1..], dropped + lean;
      assert all[0] == dropped[0] && all[1..] == rest + lean;
      HasTail(dropped, k);
      DistinctTail(all);
      LookupBehind(rest, lean, k);
      if dropped[0].key == k {
        forall i | 0 <= i < |lean| ensures lean[i].key != k { assert all[|dropped| + i] == lean[i]; }
        LookupAbsent(lean, k);
      } else if Has(rest, k) {
        var i :| 0 <= i < |rest| && Lookup(rest + lean, k) == Some(rest[i].value);
        assert dropped[i + 1] == rest[i];
      }
    }
  }

  lemma DistinctTail(s: seq<Stamp>)
    requires Distinct(s) && s != []
    ensures Distinct(s[1..])
  {}

  lemma {:induction false} LookupAbsent(s: seq<Stamp>, k: Key)
    requires !Has(s, k)
    ensures Lookup(s, k) == None
  {
    if s != [] {
      HasTail(s, k);
      LookupAbsent(s[1..], k);
    }
  }

  /** On an ordered table the fresh entries are a suffix. */
  lemma {:induction false} FreshIsSuffix(s: seq<Stamp>, now: real, ttl: real) returns (k: nat)
    requires Ordered(s)
    ensures k <= |s| && Fresh(s, now, ttl) == s[k..]
    ensures forall i :: 0 <= i < k ==> now - s[i].value > ttl
  {
    if s == [] || now - s[0].value <= ttl {
      AllFresh(s, now, ttl);
      assert s[0..] == s;
      return 0;
    }
    OrderedTail(s);
    var j := FreshIsSuffix(s[1..], now, ttl);
    k := j + 1;
    assert s[1..][j..] == s[k..];
    forall i | 0 <= i < k ensures now - s[i].value > ttl {
      if i > 0 { assert s[i] == s[1..][i - 1]; }
    }
  }

  lemma {:induction false} AllFresh(s: seq<Stamp>, now: real, ttl: real)
    requires Ordered(s) && (s != [] ==> now - s[0].value <= ttl)
    ensures Fresh(s, now, ttl) == s
  {
    if s != [] {
      OrderedTail(s);
      if |s| > 1 { assert s[1..][0] == s[1] && s[0].value <= s[1].value; }
      AllFresh(s[1..], now, ttl);
    }
  }

  /** Banning a key keeps the cleaned table a tail of the full one, although
      only the full one may have to evict. */
  lemma BanKeepsBehind(full: seq<Stamp>, dropped: seq<Stamp>, lean: seq<Stamp>, e: Stamp)
    returns (dropped': seq<Stamp>)
    requires BlacklistBehind(full, dropped, lean, e.value)
    ensures BlacklistBehind(Cap(Touch(full, e), BLACKLIST_MAX), dropped',
                            Cap(Touch(lean, e), BLACKLIST_MAX), e.value)
  {
    var d, l := Remove(dropped, e.key), Remove(lean, e.key);
    RemoveAppend(dropped, lean, e.key);
    assert Touch(full, e) == d + Touch(lean, e);
    TouchDistinct(full, e);
    TouchOrdered(full, e);
    RemoveExpired(dropped, e);
    var t := Touch(full, e);
    if |t| > BLACKLIST_MAX {
      assert Cap(t, BLACKLIST_MAX) == t[1..];
      if d == [] {
        dropped' := [];
      } else {
        dropped' := d[1..];
        assert t[1..] == d[1..] + Touch(lean, e);
      }
    } else {
      dropped' := d;
    }
  }

  lemma TouchOrdered(s: seq<Stamp>, e: Stamp)
    requires Ordered(s) && forall i :: 0 <= i < |s| ==> s[i].value <= e.value
    ensures Ordered(Touch(s, e))
    ensures forall i :: 0 <= i < |Touch(s, e)| ==> Touch(s, e)[i].value <= e.value
  {
    RemoveOrdered(s, e.key);
    var r := Remove(s, e.key);
    forall i | 0 <= i < |r| ensures r[i].value <= e.value {
      RemoveMember(s, e.key, r[i]);
      assert r[i] in s;
    }
  }

  lemma {:induction false} RemoveOrdered(s: seq<Stamp>, k: Key)
    requires Ordered(s)
    ensures Ordered(Remove(s, k))
  {
    if s != [] {
      OrderedTail(s);
      RemoveOrdered(s[1..], k);
      var r := Remove(s[1..], k);
      forall j | 0 <= j < |r| ensures s[0].value <= r[j].value {
        RemoveMember(s[1..], k, r[j]);
        assert r[j] in s[1..];
      }
    }
  }

  lemma RemoveExpired(s: seq<Stamp>, e: Stamp)
    requires forall i :: 0 <= i < |s| ==> e.value - s[i].value > BLACKLIST_TTL
    ensures forall i :: 0 <= i < |Remove(s, e.key)| ==> e.value - Remove(s, e.key)[i].value > BLACKLIST_TTL
  {
    var r := Remove(s, e.key);
    forall i | 0 <= i < |r| ensures e.value - r[i].value > BLACKLIST_TTL {
      RemoveMember(s, e.key, r[i]);
      assert r[i] in s;
    }
  }

  lemma BlacklistLater(full: seq<Stamp>, dropped: seq<Stamp>, lean: seq<Stamp>, now: real, later: real)
    requires BlacklistBehind(full, dropped, lean, now) && now <= later
    ensures BlacklistBehind(full, dropped, lean, later)
  {}

  lemma CleanKeepsBehind(full: seq<Stamp>, dropped: seq<Stamp>, lean: seq<Stamp>, now: real)
    returns (dropped': seq<Stamp>)
    requires BlacklistBehind(full, dropped, lean, now)
    ensures BlacklistBehind(full, dropped', Fresh(lean, now, BLACKLIST_TTL), now)
  {
    assert Ordered(lean) by {
      forall i, j | 0 <= i < j < |lean| ensures lean[i].value <= lean[j].value {
        assert full[|dropped| + i] == lean[i] && full[|dropped| + j] == lean[j];
      }
    }
    var k := FreshIsSuffix(lean, now, BLACKLIST_TTL);
    dropped' := dropped + lean[..k];
    assert full == dropped' + lean[k..];
  }

  lemma AnswersAgree(full: Tables, lean: Tables, c: Call, now: real, window: real)
    requires Behind(full, lean, now, window) && now <= c.at
    ensures Answer(full, c, window) == Answer(lean, c, window)
  {
    if c.AskBlacklisted? {
      var dropped :| BlacklistBehind(full.blacklist, dropped, lean.blacklist, now);
      LookupBehind(dropped, lean.blacklist, c.k);
    }
  }

  lemma StepKeepsBehind(full: Tables, lean: Tables, c: Call, now: real, window: real)
    requires Behind(full, lean, now, window) && now <= c.at
    ensures c.Cleanup? ==> Behind(full, Next(lean, c, window), c.at, window)
    ensures !c.Cleanup? ==> Behind(Next(full, c, window), Next(lean, c, window), c.at, window)
  {
    var dropped :| BlacklistBehind(full.blacklist, dropped, lean.blacklist, now);
    BlacklistLater(full.blacklist, dropped, lean.blacklist, now, c.at);
    match c
    case Ban(k, at) =>
      var dropped' := BanKeepsBehind(full.blacklist, dropped, lean.blacklist, Entry(k, at));
    case Cleanup(at) =>
      var dropped' := CleanKeepsBehind(full.blacklist, dropped, lean.blacklist, at);
    case Forget(at) =>
      assert BlacklistBehind([], [], [], at);
    case _ =>
  }

  /** For every run with a non-decreasing clock, the queries answer the same
      whether or not cleanups are interspersed, wherever they are: two runs
      that differ only in their cleanups answer alike. */
  lemma {:induction false} CleanupIsTransparent(full: Tables, lean: Tables, calls: seq<Call>, now: real, window: real)
    requires Behind(full, lean, now, window) && Monotone(now, calls)
    ensures Answers(full, WithoutCleanup(calls), window) == Answers(lean, calls, window)
    decreases |calls|
  {
    if calls != [] {
      var c, rest := calls[0], calls[1..];
      StepKeepsBehind(full, lean, c, now, window);
      if c.Cleanup? {
        assert WithoutCleanup(calls) == WithoutCleanup(rest);
        CleanupIsTransparent(full, Next(lean, c, window), rest, c.at, window);
      } else {
        var kept := WithoutCleanup(calls);
        assert kept[0] == c && kept[1..] == WithoutCleanup(rest);
        AnswersAgree(full, lean, c, now, window);
        CleanupIsTransparent(Next(full, c, window), Next(lean, c, window), rest, c.at, window);
      }
    }
  }

  lemma CleanupIsTransparentFromStart(calls: seq<Call>, now: real, window: real)
    requires Monotone(now, calls)
    ensures var start := Tables(map[], []);
            Answers(start, calls, window) == Answers(start, WithoutCleanup(calls), window)
  {
    assert BlacklistBehind([], [], [], now);
    CleanupIsTransparent(Tables(map[], []), Tables(map[], []), calls, now, window);
  }

  // ----- The blacklist equals its history -----

  function After(calls: seq<Call>, window: real): Tables
    decreases |calls|
  {
    if calls == [] then Tables(map[], []) else Next(After(calls[..|calls| - 1], window), calls[|calls| - 1], window)
  }

  /** The same calls, the cleanups left out. */
  function Uncleaned(calls: seq<Call>, window: real): Tables
    decreases |calls|
  {
    if calls == [] then Tables(map[], [])
    else
      var t, c := Uncleaned(calls[..|calls| - 1], window), calls[|calls| - 1];
      if c.Cleanup? then t else Next(t, c, window)
  }

  /** The bans since the tables were last cleared. */
  function Bans(calls: seq<Call>): seq<Stamp>
    decreases |calls|
  {
    if calls == [] then []
    else
      match calls[|calls| - 1]
      case Forget(_) => []
      case Ban(k, at) => Bans(calls[..|calls| - 1]) + [Entry(k, at)]
      case _ => Bans(calls[..|calls| - 1])
  }

  function ClockEnd(now: real, calls: seq<Call>): real {
    if calls == [] then now else calls[|calls| - 1].at
  }

  lemma {:induction false} MonotonePrefix(now: real, calls: seq<Call>, c: Call)
    requires Monotone(now, calls + [c])
    ensures Monotone(now, calls) && ClockEnd(now, calls) <= c.at
    decreases |calls|
  {
    if calls != [] {
      assert (calls + [c])[0] == calls[0] && (calls + [c])[1..] == calls[1..] + [c];
      MonotonePrefix(calls[0].at, calls[1..], c);
    }
  }

  lemma {:induction false} BehindAfter(calls: seq<Call>, now: real, window: real)
    requires Monotone(now, calls)
    ensures Behind(Uncleaned(calls, window), After(calls, window), ClockEnd(now, calls), window)
    decreases |calls|
  {
    if calls == [] {
      assert BlacklistBehind([], [], [], now);
    } else {
      var before, c := calls[..|calls| - 1], calls[|calls| - 1];
      assert calls == before + [c];
      MonotonePrefix(now, before, c);
      BehindAfter(before, now, window);
      hide Behind, Next;
      StepKeepsBehind(Uncleaned(before, window), After(before, window), c, ClockEnd(now, before), window);
    }
  }

  lemma CapIsLast(s: seq<Stamp>, e: Stamp, limit: nat)
    requires limit > 0 && Distinct(s)
    ensures Cap(Touch(LastN(s, limit), e), limit) == LastN(Touch(s, e), limit)
  {
    hide Remove, LastN;
    LastTouched(s, e, limit);
    var b := Remove(LastN(s, limit), e.key);
    if |b| >= limit { assert (b + [e])[1..] == b[1..] + [e]; }
  }

  /** Without cleanups the blacklist holds exactly the last 4096 distinct hashes
      banned since it was last cleared, each with its latest ban, in that order. */
  lemma {:induction false} BlacklistEqualsHistory(calls: seq<Call>, window: real)
    ensures Uncleaned(calls, window).blacklist == LastN(Latest(Bans(calls)), 4096)
    decreases |calls|
  {
    if calls != [] {
      var before, c := calls[..|calls| - 1], calls[|calls| - 1];
      BlacklistEqualsHistory(before, window);
      if c.Ban? {
        hide LastN, Touch, Cap, Latest;
        LatestSnoc(Bans(before), Entry(c.k, c.at));
        LatestDistinct(Bans(before));
        CapIsLast(Latest(Bans(before)), Entry(c.k, c.at), BLACKLIST_MAX);
      }
    }
  }

  lemma {:induction false} LookupIsMember(s: seq<Stamp>, k: Key, v: real)
    requires Distinct(s)
    ensures Lookup(s, k) == Some(v) <==> Entry(k, v) in s
  {
    if s != [] {
      DistinctTail(s);
      LookupIsMember(s[1..], k, v);
      assert s[0] in s && forall e :: e in s <==> e == s[0] || e in s[1..];
      if s[0].key == k { LookupAbsentKey(s, k); }
    }
  }

  lemma LookupAbsentKey(s: seq<Stamp>, k: Key)
    requires Distinct(s) && s != [] && s[0].key == k
    ensures forall v: real :: Entry(k, v) !in s[1..]
  {
    forall i | 0 <= i < |s[1..]| ensures s[1..][i].key != k { assert s[1..][i] == s[i + 1]; }
  }

  /** The hash's latest ban is among the last 4096 and younger than the TTL. */
  ghost predicate RecentlyBanned(calls: seq<Call>, k: Key, at: real) {
    exists v: real :: Entry(k, v) in LastN(Latest(Bans(calls)), 4096) && at - v < 300.0
  }

  /** Over every run with a non-decreasing clock, cleanups and clears included,
      a hash is blacklisted exactly when it was recently banned. */
  lemma BlacklistedIffRecentlyBanned(calls: seq<Call>, k: Key, at: real, now: real, window: real)
    requires Monotone(now, calls + [AskBlacklisted(k, at)])
    ensures BlacklistedIn(After(calls, window), k, at) <==> RecentlyBanned(calls, k, at)
  {
    var ask := AskBlacklisted(k, at);
    MonotonePrefix(now, calls, ask);
    BehindAfter(calls, now, window);
    var full, lean := Uncleaned(calls, window), After(calls, window);
    AnswersAgree(full, lean, ask, ClockEnd(now, calls), window);
    assert BlacklistedIn(full, k, at) == BlacklistedIn(lean, k, at);
    BlacklistEqualsHistory(calls, window);
    hide Bans, Latest, LastN, After, Uncleaned, Lookup;
    var dropped :| BlacklistBehind(full.blacklist, dropped, lean.blacklist, ClockEnd(now, calls));
    var found := Lookup(full.blacklist, k);
    if found.Some? { LookupIsMember(full.blacklist, k, found.value); }
    if v: real :| Entry(k, v) in full.blacklist && at - v < BLACKLIST_TTL { LookupIsMember(full.blacklist, k, v); }
  }

  // ----- The duplicate window equals its history -----

  /** The last call that tracked the hash did so at `t`, and nothing was cleared
      since. */
  predicate TracksLast(calls: seq<Call>, i: nat, k: Key, t: real)
    requires i < |calls|
  {
    && calls[i] == Track(k, t)
    && forall j :: i < j < |calls| ==> !calls[j].Forget? && !(calls[j].Track? && calls[j].k == k)
  }

  ghost predicate TrackedLast(calls: seq<Call>, k: Key, t: real) {
    exists i :: 0 <= i < |calls| && TracksLast(calls, i, k, t)
  }

  lemma TrackedLastSnoc(calls: seq<Call>, c: Call, k: Key, t: real)
    ensures TrackedLast(calls + [c], k, t) <==>
            if c.Forget? then false
            else if c.Track? && c.k == k then c.at == t
            else TrackedLast(calls, k, t)
  {
    var all := calls + [c];
    if i :| 0 <= i < |all| && TracksLast(all, i, k, t) {
      assert i < |calls| ==> !all[|calls|].Forget? && !(all[|calls|].Track? && all[|calls|].k == k);
      if i < |calls| {
        assert TracksLast(calls, i, k, t) by {
          forall j | i < j < |calls| ensures !calls[j].Forget? && !(calls[j].Track? && calls[j].k == k) {
            assert calls[j] == all[j];
          }
        }
      }
    }
    if c == Track(k, t) { assert TracksLast(all, |calls|, k, t); }
    if i :| 0 <= i < |calls| && TracksLast(calls, i, k, t) {
      if !c.Forget? && !(c.Track? && c.k == k) { assert TracksLast(all, i, k, t); }
    }
  }

  /** Without cleanups the table holds exactly the latest track of every hash
      since it was last cleared. */
  lemma {:induction false} HashesEqualHistory(calls: seq<Call>, window: real, k: Key, t: real)
    ensures var hashes := Uncleaned(calls, window).hashes;
            k in hashes && hashes[k] == t <==> TrackedLast(calls, k, t)
    decreases |calls|
  {
    if calls != [] {
      hide TrackedLast;
      var before, c := calls[..|calls| - 1], calls[|calls| - 1];
      assert calls == before + [c];
      TrackedLastSnoc(before, c, k, t);
      HashesEqualHistory(before, window, k, t);
    }
  }

  /** Over every run with a non-decreasing clock, cleanups and clears included,
      a hash is a duplicate exactly when the last call that tracked it, since
      the tables were last cleared, is younger than the window. */
  lemma DuplicateIffRecentlyTracked(calls: seq<Call>, k: Key, at: real, now: real, window: real)
    requires Monotone(now, calls + [AskDuplicate(k, at)])
    ensures DuplicateIn(After(calls, window), k, at, window) <==>
            exists t: real :: TrackedLast(calls, k, t) && at - t < window
  {
    hide TrackedLast, After, Uncleaned;
    var ask := AskDuplicate(k, at);
    MonotonePrefix(now, calls, ask);
    BehindAfter(calls, now, window);
    var full, lean := Uncleaned(calls, window), After(calls, window);
    AnswersAgree(full, lean, ask, ClockEnd(now, calls), window);
    assert DuplicateIn(full, k, at, window) == DuplicateIn(lean, k, at, window);
    if k in full.hashes { HashesEqualHistory(calls, window, k, full.hashes[k]); }
    if t: real :| TrackedLast(calls, k, t) && at - t < window { HashesEqualHistory(calls, window, k, t); }
  }

  lemma {:induction false} FreshMember(s: seq<Stamp>, now: real, ttl: real, e: Stamp)
    ensures e in Fresh(s, now, ttl) <==> e in s && now - e.value <= ttl
  {
    if s != [] { FreshMember(s[1..], now, ttl, e); }
  }

  /** A cleanup leaves exactly what has not expired of all that was tracked and
      banned before it, whatever cleanups came before. */
  lemma CleanupLeavesUnexpired(calls: seq<Call>, at: real, now: real, window: real, k: Key, t: real)
    requires Monotone(now, calls + [Cleanup(at)])
    ensures var left := After(calls + [Cleanup(at)], window);
            && (k in left.hashes && left.hashes[k] == t <==> TrackedLast(calls, k, t) && at - t <= window)
            && (Entry(k, t) in left.blacklist <==>
                  Entry(k, t) in LastN(Latest(Bans(calls)), 4096) && at - t <= 300.0)
  {
    var all := calls + [Cleanup(at)];
    assert all[..|all| - 1] == calls;
    assert After(all, window) == Cleaned(After(calls, window), at, window);
    hide TrackedLast, After, Uncleaned, Bans, Latest, LastN, Fresh;
    MonotonePrefix(now, calls, Cleanup(at));
    BehindAfter(calls, now, window);
    var full, lean := Uncleaned(calls, window), After(calls, window);
    HashesEqualHistory(calls, window, k, t);
    BlacklistEqualsHistory(calls, window);
    FreshMember(lean.blacklist, at, BLACKLIST_TTL, Entry(k, t));
    var dropped :| BlacklistBehind(full.blacklist, dropped, lean.blacklist, ClockEnd(now, calls));
    assert Entry(k, t) in full.blacklist <==> Entry(k, t) in dropped || Entry(k, t) in lean.blacklist;
  }
}
