/** The companion's flood scope: a sticky "unscoped" request, a transient key
    and a persisted default decide the region of every flood it sends. */
module FloodScope {
  import opened Options

  type Key = seq<int>

  const KEY_SIZE := 16
  const NAME_LIMIT := 30
  const ZERO_KEY: Key := Zeros(KEY_SIZE)

  function Zeros(n: nat): (r: Key)
    ensures |r| == n && forall i :: 0 <= i < n ==> r[i] == 0
  {
    if n == 0 then [] else [0] + Zeros(n - 1)
  }

  /** The white space that stripping a name removes. */
  predicate IsSpace(c: char) {
    var u := c as int;
    9 <= u <= 13 || 0x1C <= u <= 0x20 || u == 0x85 || u == 0xA0 || u == 0x1680 || 0x2000 <= u <= 0x200A
    || u == 0x2028 || u == 0x2029 || u == 0x202F || u == 0x205F || u == 0x3000
  }

  function TrimLeft(s: string): string {
    if s != [] && IsSpace(s[0]) then TrimLeft(s[1..]) else s
  }

  function TrimRight(s: string): string {
    if s != [] && IsSpace(s[|s| - 1]) then TrimRight(s[..|s| - 1]) else s
  }

  function Trim(s: string): string { TrimRight(TrimLeft(s)) }

  function Padded(k: Key): Key {
    if |k| >= KEY_SIZE then k[..KEY_SIZE] else k + Zeros(KEY_SIZE - |k|)
  }

  /** The stored fields. */
  datatype Scope = Scope(unscoped: bool, transientKey: Option<Key>, name: string, key: Key)

  /** The key of the persisted default, if it is set and not null. */
  function DefaultKey(name: string, key: Key): Option<Key> {
    if Trim(name) == "" || Padded(key) == ZERO_KEY then None else Some(Padded(key))
  }

  /** The region of the next flood; none means a plain flood. */
  function Decision(s: Scope): Option<Key> {
    if s.unscoped then None
    else if s.transientKey.Some? then s.transientKey
    else DefaultKey(s.name, s.key)
  }

  /** A key as the scope command accepts it: 16 bytes, not all zero. */
  function Usable(k: Option<Key>): Option<Key> {
    if k.Some? && |k.value| >= KEY_SIZE && k.value[..KEY_SIZE] != ZERO_KEY then Some(k.value[..KEY_SIZE]) else None
  }

  function Hashed(region: string): string {
    if region != "" && region[0] == '#' then region else "#" + region
  }

  // ----- The setters -----

  datatype Call =
    | SetScope(key: Option<Key>)
    | SetUnscoped
    | SetRegion(region: Option<string>)
    | SetDefault(name: Option<string>, defaultKey: Option<Key>)

  /** `auto` derives a region's key; none where it rejects the name. */
  function After(s: Scope, c: Call, auto: string -> Option<Key>): Scope {
    match c
    case SetScope(k) => s.(unscoped := false, transientKey := Usable(k))
    case SetUnscoped => s.(unscoped := true)
    case SetRegion(region) =>
      if region.None? || region.value == "" then s.(unscoped := false, transientKey := None)
      else if auto(Hashed(region.value)).None? then s
      else s.(unscoped := false, transientKey := auto(Hashed(region.value)))
    case SetDefault(name, k) =>
      if Clears(name, k) then s.(name := "", key := [])
      else if Shortened(name.value) == "" then s
      else s.(name := Shortened(name.value), key := k.value[..KEY_SIZE])
  }

  predicate Clears(name: Option<string>, k: Option<Key>) {
    name.None? || name.value == "" || k.None? || |k.value| < KEY_SIZE
  }

  function Shortened(name: string): string {
    Trim(if |name| <= NAME_LIMIT then name else name[..NAME_LIMIT])
  }

  /** What sending needs to know of a packet. `transport` is the key its
      transport codes were computed from. */
  datatype Route = Direct | Flood | TransportFlood

  class Packet {
    var route: Route
    var scopeApplied: bool
    var transport: Option<Key>

    constructor (route: Route, scopeApplied: bool)
      ensures this.route == route && this.scopeApplied == scopeApplied && transport == None
    {
      this.route, this.scopeApplied, transport := route, scopeApplied, None;
    }
  }

  class FloodScopes {
    var unscoped: bool
    var transientKey: Option<Key>
    var name: string
    var key: Key
    const auto: string -> Option<Key>

    function State(): Scope
      reads this
    {
      Scope(unscoped, transientKey, name, key)
    }

    constructor (name: string, key: Key, auto: string -> Option<Key>)
      ensures State() == Scope(false, None, name, key) && this.auto == auto
    {
      unscoped, transientKey, this.name, this.key, this.auto := false, None, name, key, auto;
    }

    method SetFloodScope(k: Option<Key>)
      modifies this
      ensures State() == After(old(State()), SetScope(k), auto)
    {
      unscoped := false;
      if k.Some? && |k.value| >= KEY_SIZE {
        var short := k.value[..KEY_SIZE];
        transientKey := if short == ZERO_KEY then None else Some(short);
        return;
      }
      transientKey := None;
    }

    method SetFloodUnscoped()
      modifies this
      ensures State() == After(old(State()), SetUnscoped, auto)
    {
      unscoped := true;
    }

    method SetDefaultFloodScope(name: Option<string>, k: Option<Key>)
        returns (ok: bool)
      modifies this
      ensures State() == After(old(State()), SetDefault(name, k), auto)
      ensures !ok <==> !Clears(name, k) && Shortened(name.value) == ""
    {
      if name.None? || name.value == "" || k.None? || |k.value| < KEY_SIZE {
        this.name, key := "", [];
        return true;
      }
      var normalized := Shortened(name.value);
      if normalized == "" { return false; }
      this.name, key := normalized, k.value[..KEY_SIZE];
      return true;
    }

    /** Fails without effect when no key can be derived. */
    method SetFloodRegion(region: Option<string>) returns (ok: bool)
      modifies this
      ensures !ok <==> region.Some? && region.value != "" && auto(Hashed(region.value)).None?
      ensures State() == After(old(State()), SetRegion(region), auto)
    {
      if region.Some? && region.value != "" {
        var derived := auto(Hashed(region.value));
        if derived.None? { return false; }
        transientKey := derived;
        unscoped := false;
      } else {
        transientKey := None;
        unscoped := false;
      }
      return true;
    }

    /** A flood that carries no decision yet is decided here, and marked even
        when it stays plain; anything else is left alone. */
    method ApplyFloodScope(p: Packet)
      modifies p
      ensures var open := old(p.route) == Flood && !old(p.scopeApplied);
              && p.scopeApplied == (old(p.scopeApplied) || open)
              && p.transport == (if open && Decision(State()).Some? then Decision(State()) else old(p.transport))
              && p.route == (if open && Decision(State()).Some? then TransportFlood else old(p.route))
    {
      if p.scopeApplied || p.route != Flood { return; }
      p.scopeApplied := true;
      if unscoped { return; }
      var effective := if transientKey.Some? then transientKey else DefaultKey(name, key);
      if effective.None? { return; }
      p.transport := effective;
      p.route := TransportFlood;
    }
  }

  // ----- The decision is a function of the calls made -----

  function Run(s: Scope, calls: seq<Call>, auto: string -> Option<Key>): Scope
    decreases |calls|
  {
    if calls == [] then s else After(Run(s, calls[..|calls| - 1], auto), calls[|calls| - 1], auto)
  }

  /** A call that overrides the region, or asks for none. */
  predicate Overrides(c: Call, auto: string -> Option<Key>) {
    c.SetScope? || c.SetUnscoped? ||
    (c.SetRegion? && (c.region.None? || c.region.value == "" || auto(Hashed(c.region.value)).Some?))
  }

  /** A call that replaces or clears the default. */
  predicate SetsDefault(c: Call) {
    c.SetDefault? && (Clears(c.name, c.defaultKey) || Shortened(c.name.value) != "")
  }

  /** `k` is the latest call for which `P` holds. */
  predicate Latest(calls: seq<Call>, P: Call -> bool, k: nat) {
    k < |calls| && P(calls[k]) && forall i :: k < i < |calls| ==> !P(calls[i])
  }

  predicate Never(calls: seq<Call>, P: Call -> bool) {
    forall i :: 0 <= i < |calls| ==> !P(calls[i])
  }

  /** Sixteen bytes or more, of which the first sixteen are not all zero. */
  predicate RealKey(k: Option<Key>) {
    k.Some? && |k.value| >= 16 && exists i :: 0 <= i < 16 && k.value[i] != 0
  }

  /** What one overriding call alone asks for; none falls back on the default. */
  function Asked(c: Call, auto: string -> Option<Key>): Option<Key> {
    match c
    case SetScope(k) => if RealKey(k) then Some(k.value[..16]) else None
    case SetRegion(region) =>
      if region.None? || region.value == "" then None
      else if region.value[0] == '#' then auto(region.value)
      else auto("#" + region.value)
    case _ => None
  }

  /** What one default-setting call alone makes the default. */
  function DefaultAsked(c: Call): Option<Key>
    requires SetsDefault(c)
  {
    if c.name.Some? && c.name.value != "" && RealKey(c.defaultKey) then Some(c.defaultKey.value[..16]) else None
  }

  lemma ZeroKeyIff(k: Key)
    requires |k| == 16
    ensures k == ZERO_KEY <==> forall i :: 0 <= i < 16 ==> k[i] == 0
  {
    assert ZERO_KEY == Zeros(16);
    if forall i :: 0 <= i < 16 ==> k[i] == 0 { assert k == Zeros(16); }
  }

  lemma UsableIff(k: Option<Key>)
    ensures Usable(k) == if RealKey(k) then Some(k.value[..16]) else None
  {
    if k.Some? && |k.value| >= 16 {
      ZeroKeyIff(k.value[..16]);
      assert forall i :: 0 <= i < 16 ==> k.value[..16][i] == k.value[i];
    }
  }

  lemma {:induction false} TrimRightEnds(s: string)
    ensures TrimRight(s) != "" ==> !IsSpace(TrimRight(s)[|TrimRight(s)| - 1]) && TrimRight(s)[0] == s[0]
    ensures TrimRight(TrimRight(s)) == TrimRight(s)
    decreases |s|
  {
    if s != [] && IsSpace(s[|s| - 1]) { TrimRightEnds(s[..|s| - 1]); }
  }

  lemma {:induction false} TrimLeftStarts(s: string)
    ensures TrimLeft(s) != "" ==> !IsSpace(TrimLeft(s)[0])
    decreases |s|
  {
    if s != [] && IsSpace(s[0]) { TrimLeftStarts(s[1..]); }
  }

  lemma TrimTwice(s: string)
    ensures Trim(Trim(s)) == Trim(s)
  {
    TrimLeftStarts(s);
    TrimRightEnds(TrimLeft(s));
    assert TrimLeft(Trim(s)) == Trim(s);
  }

  lemma SetsDefaultEffect(s: Scope, c: Call, auto: string -> Option<Key>)
    requires SetsDefault(c)
    ensures DefaultKey(After(s, c, auto).name, After(s, c, auto).key) == DefaultAsked(c)
  {
    if Clears(c.name, c.defaultKey) {
      assert Trim("") == "";
    } else {
      var n := c.name.value;
      TrimTwice(if |n| <= NAME_LIMIT then n else n[..NAME_LIMIT]);
      assert Padded(c.defaultKey.value[..KEY_SIZE]) == c.defaultKey.value[..KEY_SIZE];
      UsableIff(c.defaultKey);
    }
  }

  /** The default in force is what the latest accepted default call set. */
  lemma {:induction false} DefaultIsLatest(s: Scope, calls: seq<Call>, auto: string -> Option<Key>, k: nat)
    requires Latest(calls, SetsDefault, k)
    ensures var r := Run(s, calls, auto); DefaultKey(r.name, r.key) == DefaultAsked(calls[k])
    decreases |calls|
  {
    var last := |calls| - 1;
    if k == last {
      SetsDefaultEffect(Run(s, calls[..last], auto), calls[last], auto);
    } else {
      assert !SetsDefault(calls[last]);
      DefaultIsLatest(s, calls[..last], auto, k);
    }
  }

  lemma {:induction false} DefaultUntouched(s: Scope, calls: seq<Call>, auto: string -> Option<Key>)
    requires Never(calls, SetsDefault)
    ensures var r := Run(s, calls, auto); r.name == s.name && r.key == s.key
    decreases |calls|
  {
    if calls != [] {
      var last := |calls| - 1;
      assert !SetsDefault(calls[last]);
      DefaultUntouched(s, calls[..last], auto);
    }
  }

  /** The region of the next flood depends only on the latest override and on
      the default in force: an unscoped request wins over both, a key wins over
      the default, and a cleared or null override falls back on the default. */
  lemma {:induction false} DecisionIsLatest(s: Scope, calls: seq<Call>, auto: string -> Option<Key>, k: nat)
    requires Latest(calls, c => Overrides(c, auto), k)
    ensures var r := Run(s, calls, auto);
            Decision(r) == if calls[k].SetUnscoped? then None
                           else if Asked(calls[k], auto).Some? then Asked(calls[k], auto)
                           else DefaultKey(r.name, r.key)
  {
    OverrideIsLatest(s, calls, auto, k);
  }

  lemma {:induction false} OverrideIsLatest(s: Scope, calls: seq<Call>, auto: string -> Option<Key>, k: nat)
    requires Latest(calls, c => Overrides(c, auto), k)
    ensures Run(s, calls, auto).unscoped == calls[k].SetUnscoped?
    ensures !calls[k].SetUnscoped? ==> Run(s, calls, auto).transientKey == Asked(calls[k], auto)
    decreases |calls|
  {
    var last := |calls| - 1;
    if k != last {
      assert !Overrides(calls[last], auto);
      OverrideIsLatest(s, calls[..last], auto, k);
    } else if calls[k].SetScope? {
      UsableIff(calls[k].key);
    }
  }

  /** With no override made, the default decides. */
  lemma {:induction false} DecisionWithoutOverride(s: Scope, calls: seq<Call>, auto: string -> Option<Key>)
    requires !s.unscoped && s.transientKey.None? && Never(calls, c => Overrides(c, auto))
    ensures var r := Run(s, calls, auto);
            !r.unscoped && r.transientKey.None? && Decision(r) == DefaultKey(r.name, r.key)
    decreases |calls|
  {
    if calls != [] {
      var last := |calls| - 1;
      assert !Overrides(calls[last], auto);
      DecisionWithoutOverride(s, calls[..last], auto);
    }
  }

  // ----- Names and keys, by their contents -----

  lemma {:induction false} TrimLeftCuts(s: string) returns (i: nat)
    ensures i <= |s| && TrimLeft(s) == s[i..] && forall m :: 0 <= m < i ==> IsSpace(s[m])
    decreases |s|
  {
    i := 0;
    if s != [] && IsSpace(s[0]) {
      var j := TrimLeftCuts(s[1..]);
      i := j + 1;
      assert s[1..][j..] == s[i..];
      forall m | 0 <= m < i ensures IsSpace(s[m]) { if m > 0 { assert s[m] == s[1..][m - 1]; } }
    }
  }

  lemma {:induction false} TrimRightCuts(s: string) returns (i: nat)
    ensures i <= |s| && TrimRight(s) == s[..i] && forall m :: i <= m < |s| ==> IsSpace(s[m])
    decreases |s|
  {
    i := |s|;
    if s != [] && IsSpace(s[|s| - 1]) {
      var init := s[..|s| - 1];
      i := TrimRightCuts(init);
      assert init[..i] == s[..i];
      forall m | i <= m < |s| ensures IsSpace(s[m]) { if m < |init| { assert s[m] == init[m]; } }
    }
  }

  /** `t` is what lies between the white space at the ends of `s`. */
  ghost predicate Stripped(t: string, s: string) {
    && (t != "" ==> !IsSpace(t[0]) && !IsSpace(t[|t| - 1]))
    && exists i, j :: 0 <= i <= j <= |s| && t == s[i..j]
                      && (forall m :: 0 <= m < i ==> IsSpace(s[m])) && (forall m :: j <= m < |s| ==> IsSpace(s[m]))
  }

  lemma TrimStrips(s: string)
    ensures Stripped(Trim(s), s)
  {
    var i := TrimLeftCuts(s);
    var l := TrimLeft(s);
    var j := TrimRightCuts(l);
    TrimLeftStarts(s);
    TrimRightEnds(l);
    assert Trim(s) == s[i..i + j];
    forall m | i + j <= m < |s| ensures IsSpace(s[m]) { assert s[m] == l[m - i]; }
  }

  /** An accepted default is stored under the first thirty characters of its
      name without the white space around them, and with the first sixteen bytes
      of its key; one whose name has nothing else is refused. */
  lemma DefaultIsStored(s: Scope, name: string, k: Key, auto: string -> Option<Key>) returns (t: string)
    requires name != "" && |k| >= 16
    ensures Stripped(t, if |name| <= 30 then name else name[..30])
    ensures After(s, SetDefault(Some(name), Some(k)), auto) == if t == "" then s else s.(name := t, key := k[..16])
  {
    t := Shortened(name);
    TrimStrips(if |name| <= 30 then name else name[..30]);
  }

  /** Tabs, line breaks and blanks are white space. */
  lemma BlankIsSpace(c: char)
    requires c in " \t\n\r"
    ensures IsSpace(c)
  {}

  /** A stored default counts exactly when its name has a character that is not
      white space and its first sixteen bytes one that is not zero; a short key
      is filled up with zeros behind. */
  lemma DefaultKeyIff(name: string, key: Key)
    ensures DefaultKey(name, key).Some? <==>
            (exists c <- name :: !IsSpace(c)) && (exists i :: 0 <= i < 16 && i < |key| && key[i] != 0)
    ensures DefaultKey(name, key).Some? ==>
              var v := DefaultKey(name, key).value;
              |v| == 16 && forall i :: 0 <= i < 16 ==> v[i] == if i < |key| then key[i] else 0
  {
    hide Zeros;
    TrimStrips(name);
    var t := Trim(name);
    if t != "" { assert t[0] in name; }
    var v := Padded(key);
    assert |v| == 16 && forall i :: 0 <= i < 16 ==> v[i] == if i < |key| then key[i] else 0;
    ZeroKeyIff(v);
  }
}
