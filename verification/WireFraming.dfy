/** The modem wire format `SYNC | CMD | LEN | PAYLOAD | CRC` and the receive
    loop that the USB and TCP drivers share.

    `Parse` is the offline reading of a whole byte stream.  `RxWorker` is the
    incremental loop: it keeps a residual buffer between reads and clears it
    when the link is lost. */
module WireFraming {
  import opened Bytes
  import Crc16
  import CrcCheck
  import CrcCodeword
  import CrcOrder

  const SYNC: byte := 0xAA
  const MAX_LORA_PAYLOAD := 255
  const MAX_LEN := MAX_LORA_PAYLOAD + 32
  const MIN_FRAME := 6
  const MAX_RESIDUE := MAX_LEN + MIN_FRAME - 1

  datatype Frame = Frame(cmd: byte, payload: seq<byte>)

  datatype Built = Bytes(frame: seq<byte>) | PayloadTooLong

  // ----- Building a frame -----

  function LowByte(n: nat): byte { n % 256 }

  function HighByte(n: nat): byte
    requires n < 0x1_0000
  {
    n / 256
  }

  function LittleEndian(lo: byte, hi: byte): nat {
    (lo as int) + 256 * (hi as int)
  }

  lemma LittleEndianRoundTrip(n: nat)
    requires n < 0x1_0000
    ensures LittleEndian(LowByte(n), HighByte(n)) == n
  {}

  lemma LittleEndianInjective(lo: byte, hi: byte, lo': byte, hi': byte)
    requires LittleEndian(lo, hi) == LittleEndian(lo', hi')
    ensures lo == lo' && hi == hi'
  {}

  /** The bytes the CRC covers. */
  function Covered(f: Frame): seq<byte>
    requires |f.payload| < 0x1_0000
  {
    [f.cmd, LowByte(|f.payload|), HighByte(|f.payload|)] + f.payload
  }

  function CrcBytes(covered: seq<byte>): (r: seq<byte>)
    ensures |r| == 2
  {
    Crc16.CrcBound(covered);
    [LowByte(Crc16.Crc(covered)), HighByte(Crc16.Crc(covered))]
  }

  lemma CrcBytesValue(covered: seq<byte>)
    ensures var r := CrcBytes(covered); LittleEndian(r[0], r[1]) == Crc16.Crc(covered)
  {
    hide Crc16.Crc;
    Crc16.CrcBound(covered);
    LittleEndianRoundTrip(Crc16.Crc(covered));
  }

  function Wire(f: Frame): (r: seq<byte>)
    requires |f.payload| < 0x1_0000
    ensures |r| == MIN_FRAME + |f.payload|
  {
    [SYNC] + Covered(f) + CrcBytes(Covered(f))
  }

  /** Byte by byte: 0xAA, the command, the length, the payload and the CRC of all
      but the first byte, both numbers with the low byte first. */
  predicate Laid(w: seq<byte>, cmd: byte, payload: seq<byte>) {
    && |w| == |payload| + 6
    && w[0] == 0xAA && w[1] == cmd
    && (w[2] as int) + 256 * (w[3] as int) == |payload|
    && w[4..|payload| + 4] == payload
    && (w[|payload| + 4] as int) + 256 * (w[|payload| + 5] as int) == Crc16.Crc(w[1..|payload| + 4])
  }

  lemma WireIsLaid(f: Frame)
    requires |f.payload| < 0x1_0000
    ensures Laid(Wire(f), f.cmd, f.payload)
  {
    hide Crc16.Crc;
    var w, covered := Wire(f), Covered(f);
    CrcBytesValue(covered);
    assert w[1..|f.payload| + 4] == covered && w[4..|f.payload| + 4] == f.payload;
  }

  /** The bytes of a ping. */
  lemma PingFrame()
    ensures Wire(Frame(0xFF, [])) == [0xAA, 0xFF, 0x00, 0x00, 0xFF, 0x03]
  {
    hide Crc16.Crc;
    CrcCheck.PingCrc(Covered(Frame(0xFF, [])));
  }

  method BuildFrame(cmd: byte, payload: seq<byte>) returns (r: Built)
    ensures r.PayloadTooLong? <==> |payload| > 0xFFFF
    ensures r.Bytes? ==> r.frame == Wire(Frame(cmd, payload)) && Laid(r.frame, cmd, payload)
  {
    hide Crc16.Crc;
    if |payload| <= 0xFFFF { WireIsLaid(Frame(cmd, payload)); }
    if |payload| > 0xFFFF { return PayloadTooLong; }
    var hdr := [cmd, LowByte(|payload|), HighByte(|payload|)];
    var crc := Crc16.Crc16Ccitt(hdr + payload);
    Crc16.CrcBound(hdr + payload);
    r := Bytes([SYNC] + (hdr + payload) + [LowByte(crc), HighByte(crc)]);
  }

  // ----- The offline parser -----

  /** The length field of a buffer that starts with a header. */
  function HeaderLen(s: seq<byte>): nat
    requires |s| >= 4
  {
    LittleEndian(s[2], s[3])
  }

  predicate CrcMatches(s: seq<byte>)
    requires |s| >= 4 && |s| >= MIN_FRAME + HeaderLen(s)
  {
    var n := HeaderLen(s);
    LittleEndian(s[4 + n], s[5 + n]) == Crc16.Crc(s[1..4 + n])
  }

  function FrameAt(s: seq<byte>): Frame
    requires |s| >= 4 && |s| >= MIN_FRAME + HeaderLen(s)
  {
    Frame(s[1], s[4..4 + HeaderLen(s)])
  }

  /** The frames of a whole stream: skip to SYNC, drop a SYNC whose length is
      implausible, stop at an incomplete frame, drop a frame whose CRC is wrong. */
  function Parse(s: seq<byte>): seq<Frame>
    decreases |s|
  {
    if s == [] then []
    else if s[0] != SYNC then Parse(s[1..])
    else if |s| < 4 then []
    else if HeaderLen(s) > MAX_LEN then Parse(s[1..])
    else if |s| < MIN_FRAME + HeaderLen(s) then []
    else (if CrcMatches(s) then [FrameAt(s)] else []) + Parse(s[MIN_FRAME + HeaderLen(s)..])
  }

  lemma ParseSkips(s: seq<byte>)
    requires s != [] && (s[0] != SYNC || (|s| >= 4 && HeaderLen(s) > MAX_LEN))
    ensures Parse(s) == Parse(s[1..])
  {}

  lemma ParseWaits(s: seq<byte>)
    requires s != [] && s[0] == SYNC
    requires |s| < 4 || (HeaderLen(s) <= MAX_LEN && |s| < MIN_FRAME + HeaderLen(s))
    ensures Parse(s) == []
  {}

  lemma ParseTakes(s: seq<byte>, size: nat)
    requires |s| >= 4 && s[0] == SYNC && HeaderLen(s) <= MAX_LEN && size == MIN_FRAME + HeaderLen(s) <= |s|
    ensures Parse(s) == (if CrcMatches(s) then [FrameAt(s)] else []) + Parse(s[size..])
  {
    hide Crc16.Crc;
  }

  // ----- The receive loop -----

  /** `buf.find(PROTO_SYNC)`, with the length for a miss. */
  function SyncIndex(s: seq<byte>): (k: nat)
    ensures k <= |s|
    ensures forall i :: 0 <= i < k ==> s[i] != SYNC
    ensures k < |s| ==> s[k] == SYNC
  {
    if s == [] || s[0] == SYNC then 0 else 1 + SyncIndex(s[1..])
  }

  /** What the loop makes of a buffer: frames to dispatch and bytes to keep. */
  datatype Drained = Drained(frames: seq<Frame>, rest: seq<byte>)

  function Drain(buf: seq<byte>): Drained
    decreases |buf|, 1
  {
    if |buf| < MIN_FRAME then Drained([], buf) else DrainFrom(buf[SyncIndex(buf)..])
  }

  /** The rest of a turn, once the buffer has been trimmed to its first SYNC. */
  function DrainFrom(b: seq<byte>): Drained
    decreases |b|, 0
  {
    if |b| < 4 then Drained([], b)
    else if HeaderLen(b) > MAX_LEN then Drain(b[1..])
    else if |b| < MIN_FRAME + HeaderLen(b) then Drained([], b)
    else
      var d := Drain(b[MIN_FRAME + HeaderLen(b)..]);
      Drained((if CrcMatches(b) then [FrameAt(b)] else []) + d.frames, d.rest)
  }

  lemma DrainShort(buf: seq<byte>)
    requires |buf| < MIN_FRAME
    ensures Drain(buf) == Drained([], buf)
  {}

  lemma DrainTrims(buf: seq<byte>)
    requires |buf| >= MIN_FRAME
    ensures Drain(buf) == DrainFrom(buf[SyncIndex(buf)..])
  {}

  lemma DrainFromWaits(b: seq<byte>)
    requires |b| < 4 || (HeaderLen(b) <= MAX_LEN && |b| < MIN_FRAME + HeaderLen(b))
    ensures DrainFrom(b) == Drained([], b)
  {}

  lemma DrainFromDropsSync(b: seq<byte>)
    requires |b| >= 4 && HeaderLen(b) > MAX_LEN
    ensures DrainFrom(b) == Drain(b[1..])
  {}

  lemma DrainFromTakes(b: seq<byte>, size: nat)
    requires |b| >= 4 && HeaderLen(b) <= MAX_LEN && size == MIN_FRAME + HeaderLen(b) <= |b|
    ensures DrainFrom(b).frames == (if CrcMatches(b) then [FrameAt(b)] else []) + Drain(b[size..]).frames
    ensures DrainFrom(b).rest == Drain(b[size..]).rest
  {
    hide Crc16.Crc, Drain;
  }

  datatype LinkEvent = Read(chunk: seq<byte>) | Lost

  datatype Worker = Worker(buf: seq<byte>, dispatched: seq<Frame>)

  function Handle(w: Worker, e: LinkEvent): Worker {
    match e
    case Read(chunk) =>
      var d := Drain(w.buf + chunk);
      Worker(d.rest, w.dispatched + d.frames)
    case Lost => w.(buf := [])
  }

  class RxWorker {
    var buf: seq<byte>
    var dispatched: seq<Frame>

    function State(): Worker
      reads this
    {
      Worker(buf, dispatched)
    }

    constructor ()
      ensures State() == Worker([], [])
    {
      buf, dispatched := [], [];
    }

    /** `buf.find(PROTO_SYNC)` as a scan. */
    method FindSync() returns (k: int)
      ensures k < 0 ==> SyncIndex(buf) == |buf|
      ensures k >= 0 ==> k == SyncIndex(buf) < |buf|
    {
      for i := 0 to |buf|
        invariant forall j :: 0 <= j < i ==> buf[j] != SYNC
      {
        if buf[i] == SYNC { return i; }
      }
      return -1;
    }

    /** One read: extend the buffer, then parse complete frames out of it. */
    method Receive(chunk: seq<byte>)
      modifies this
      ensures State() == Handle(old(State()), Read(chunk))
    {
      hide Crc16.Crc, SyncIndex, Drain, DrainFrom;
      buf := buf + chunk;
      ghost var whole := Drain(buf);
      while |buf| >= MIN_FRAME
        invariant old(dispatched) + whole.frames == dispatched + Drain(buf).frames
        invariant whole.rest == Drain(buf).rest
        decreases |buf|
      {
        ghost var head := buf;
        var k := FindSync();
        DrainTrims(head);
        if k < 0 {
          assert head[SyncIndex(head)..] == [];
          DrainFromWaits([]);
          buf := [];
          return;
        }
        if k > 0 { buf := buf[k..]; }
        if |buf| < 4 {
          DrainFromWaits(buf);
          return;
        }
        var length := buf[2] as int + 256 * (buf[3] as int);
        if length > MAX_LORA_PAYLOAD + 32 {
          DrainFromDropsSync(buf);
          buf := buf[1..];
          continue;
        }
        var frameSize := 1 + 1 + 2 + length + 2;
        if |buf| < frameSize {
          DrainFromWaits(buf);
          return;
        }
        DrainFromTakes(buf, frameSize);
        var frame := Frame(buf[1], buf[4..4 + length]);
        var received := buf[4 + length] as int + 256 * (buf[5 + length] as int);
        var computed := Crc16.Crc16Ccitt(buf[1..4 + length]);
        buf := buf[frameSize..];
        if received == computed {
          AppendAssoc(dispatched, [frame], Drain(buf).frames);
          dispatched := dispatched + [frame];
        }
      }
      DrainShort(buf);
    }

    /** `buf.clear()` when the link is lost or reopened. */
    method LinkLost()
      modifies this`buf
      ensures State() == Handle(old(State()), Lost)
    {
      buf := [];
    }
  }

  // ----- The loop against the offline parser -----

  lemma {:induction false} SkipToSync(s: seq<byte>, later: seq<byte>)
    ensures Parse(s + later) == Parse(s[SyncIndex(s)..] + later)
    decreases |s|
  {
    if s != [] && s[0] != SYNC {
      assert (s + later)[1..] == s[1..] + later;
      assert s[SyncIndex(s)..] == s[1..][SyncIndex(s[1..])..];
      SkipToSync(s[1..], later);
    } else {
      assert s[0..] == s;
    }
  }

  /** A whole frame in front is read the same whatever follows it. */
  lemma TakeFrame(b: seq<byte>, later: seq<byte>)
    requires |b| >= 4 && b[0] == SYNC && HeaderLen(b) <= MAX_LEN && |b| >= MIN_FRAME + HeaderLen(b)
    ensures Parse(b + later) ==
            (if CrcMatches(b) then [FrameAt(b)] else []) + Parse(b[MIN_FRAME + HeaderLen(b)..] + later)
  {
    hide Crc16.Crc;
    var s, n := b + later, HeaderLen(b);
    assert HeaderLen(s) == n;
    assert s[1..4 + n] == b[1..4 + n] && s[4..4 + n] == b[4..4 + n];
    assert s[MIN_FRAME + n..] == b[MIN_FRAME + n..] + later;
  }

  /** Draining commits to nothing that later bytes could change. */
  lemma {:induction false} DrainPrefix(buf: seq<byte>, later: seq<byte>)
    ensures Parse(buf + later) == Drain(buf).frames + Parse(Drain(buf).rest + later)
    decreases |buf|
  {
    hide Crc16.Crc;
    if |buf| >= MIN_FRAME {
      var b := buf[SyncIndex(buf)..];
      SkipToSync(buf, later);
      if |b| >= 4 {
        if HeaderLen(b) > MAX_LEN {
          assert (b + later)[1..] == b[1..] + later;
          DrainPrefix(b[1..], later);
        } else if |b| >= MIN_FRAME + HeaderLen(b) {
          TakeFrame(b, later);
          DrainPrefix(b[MIN_FRAME + HeaderLen(b)..], later);
        }
      }
    }
  }

  /** The kept bytes hold no complete frame, and there are few of them. */
  lemma {:induction false} ResidueIsBounded(buf: seq<byte>)
    ensures Parse(Drain(buf).rest) == [] && |Drain(buf).rest| <= 292
    decreases |buf|
  {
    if |buf| < MIN_FRAME {
      ShortStream(buf);
    } else {
      var b := buf[SyncIndex(buf)..];
      if |b| >= 4 {
        if HeaderLen(b) > MAX_LEN {
          ResidueIsBounded(b[1..]);
        } else if |b| >= MIN_FRAME + HeaderLen(b) {
          ResidueIsBounded(b[MIN_FRAME + HeaderLen(b)..]);
        }
      } else {
        ShortStream(b);
      }
    }
  }

  lemma {:induction false} ShortStream(s: seq<byte>)
    requires |s| < MIN_FRAME
    ensures Parse(s) == []
    decreases |s|
  {
    if s != [] { ShortStream(s[1..]); }
  }

  // ----- Every run of reads and link losses -----

  function Run(w: Worker, events: seq<LinkEvent>): Worker
    decreases |events|
  {
    if events == [] then w else Run(Handle(w, events[0]), events[1..])
  }

  /** The bytes of each link session, the last one still open. */
  function Sessions(open: seq<byte>, events: seq<LinkEvent>): seq<seq<byte>>
    decreases |events|
  {
    if events == [] then [open]
    else match events[0]
      case Read(chunk) => Sessions(open + chunk, events[1..])
      case Lost => [open] + Sessions([], events[1..])
  }

  function ParseAll(sessions: seq<seq<byte>>): seq<Frame> {
    if sessions == [] then [] else Parse(sessions[0]) + ParseAll(sessions[1..])
  }

  /** For every stream, every way of cutting it into reads and every placement
      of link losses, the loop has dispatched exactly the frames that the
      offline parser finds in each session, and its buffer stays small. */
  lemma ChunkIndependence(events: seq<LinkEvent>)
    ensures Run(Worker([], []), events).dispatched == ParseAll(Sessions([], events))
    ensures |Run(Worker([], []), events).buf| <= 292
  {
    LostKeepsCaught(Worker([], []), []);
    RunParses(Worker([], []), [], [], events);
  }

  /** Whatever comes next, the worker will have dispatched what the parser finds. */
  predicate OnTrack(w: Worker, earlier: seq<Frame>, open: seq<byte>, later: seq<byte>) {
    w.dispatched + Parse(w.buf + later) == earlier + Parse(open + later)
  }

  ghost predicate Caught(w: Worker, earlier: seq<Frame>, open: seq<byte>) {
    && Parse(w.buf) == []
    && |w.buf| <= MAX_RESIDUE
    && forall later :: OnTrack(w, earlier, open, later)
  }

  lemma {:induction false} RunParses(w: Worker, earlier: seq<Frame>, open: seq<byte>, events: seq<LinkEvent>)
    requires Caught(w, earlier, open)
    ensures Run(w, events).dispatched == earlier + ParseAll(Sessions(open, events))
    ensures |Run(w, events).buf| <= MAX_RESIDUE
    decreases |events|
  {
    hide Parse, Drain;
    assert w.dispatched == earlier + Parse(open) by {
      assert OnTrack(w, earlier, open, []);
      assert w.buf + [] == w.buf && open + [] == open;
    }
    if events == [] {
      assert ParseAll([open]) == Parse(open);
    } else {
      var w' := Handle(w, events[0]);
      match events[0]
      case Read(chunk) =>
        ReadKeepsCaught(w, earlier, open, chunk);
        RunParses(w', earlier, open + chunk, events[1..]);
      case Lost =>
        LostKeepsCaught(w', earlier + Parse(open));
        RunParses(w', earlier + Parse(open), [], events[1..]);
        assert earlier + Parse(open) + ParseAll(Sessions([], events[1..]))
            == earlier + ParseAll(Sessions(open, events));
    }
  }

  lemma LostKeepsCaught(w: Worker, earlier: seq<Frame>)
    requires w == Worker([], earlier)
    ensures Caught(w, earlier, [])
  {}

  lemma ReadKeepsCaught(w: Worker, earlier: seq<Frame>, open: seq<byte>, chunk: seq<byte>)
    requires Caught(w, earlier, open)
    ensures Caught(Handle(w, Read(chunk)), earlier, open + chunk)
  {
    hide Parse, Drain;
    var w' := Handle(w, Read(chunk));
    ResidueIsBounded(w.buf + chunk);
    forall later ensures OnTrack(w', earlier, open + chunk, later) {
      DrainPrefix(w.buf + chunk, later);
      assert w.buf + chunk + later == w.buf + (chunk + later);
      assert open + chunk + later == open + (chunk + later);
      assert OnTrack(w, earlier, open, chunk + later);
    }
  }

  // ----- Round trip -----

  function WireAll(fs: seq<Frame>): seq<byte>
    requires forall f <- fs :: |f.payload| < 0x1_0000
  {
    if fs == [] then [] else Wire(fs[0]) + WireAll(fs[1..])
  }

  /** A frame in front of anything is delivered when its payload fits the cap. */
  lemma WireParses(f: Frame, later: seq<byte>)
    requires |f.payload| <= MAX_LEN
    ensures Parse(Wire(f) + later) == [f] + Parse(later)
  {
    hide Crc16.Crc;
    var b := Wire(f);
    LittleEndianRoundTrip(|f.payload|);
    assert HeaderLen(b) == |f.payload|;
    assert b[1..4 + |f.payload|] == Covered(f);
    assert b[4..4 + |f.payload|] == f.payload;
    CrcBytesValue(Covered(f));
    assert CrcMatches(b);
    TakeFrame(b, later);
    assert b[MIN_FRAME + |f.payload|..] + later == later;
  }

  lemma {:induction false} RoundTrip(fs: seq<Frame>)
    requires forall f <- fs :: |f.payload| <= MAX_LEN
    ensures Parse(WireAll(fs)) == fs
    decreases |fs|
  {
    if fs != [] {
      WireParses(fs[0], WireAll(fs[1..]));
      RoundTrip(fs[1..]);
    }
  }

  lemma {:induction false} ParsedPayloadsFit(s: seq<byte>)
    ensures forall f <- Parse(s) :: |f.payload| <= 287
    decreases |s|
  {
    if s != [] {
      ParsedPayloadsFit(s[1..]);
      if s[0] == SYNC && |s| >= 4 && HeaderLen(s) <= MAX_LEN && |s| >= MIN_FRAME + HeaderLen(s) {
        ParsedPayloadsFit(s[MIN_FRAME + HeaderLen(s)..]);
      }
    }
  }

  /** `build_frame` accepts payloads up to 65535 bytes, the receiver only up to
      287: a frame comes back exactly when it is within the receiver's cap. */
  lemma FrameReturnsIffWithinCap(f: Frame)
    requires |f.payload| < 0x1_0000
    ensures Parse(Wire(f)) == [f] <==> |f.payload| <= 287
  {
    if |f.payload| <= MAX_LEN {
      WireParses(f, []);
      assert Wire(f) + [] == Wire(f);
    } else {
      ParsedPayloadsFit(Wire(f));
      assert f !in Parse(Wire(f));
    }
  }

  // ----- Resynchronisation after garbage -----

  /** A frame with no SYNC byte after its first. */
  predicate SyncOnlyFirst(f: Frame)
    requires |f.payload| < 0x1_0000
  {
    SYNC !in Wire(f)[1..]
  }

  lemma {:induction false} NoSyncSkipped(s: seq<byte>, later: seq<byte>)
    requires SYNC !in s
    ensures Parse(s + later) == Parse(later)
    decreases |s|
  {
    if s == [] {
      assert s + later == later;
    } else {
      assert s[0] in s;
      assert (s + later)[1..] == s[1..] + later;
      NoSyncSkipped(s[1..], later);
    }
  }

  predicate Resyncable(fs: seq<Frame>) {
    forall f <- fs :: |f.payload| <= MAX_LEN && SyncOnlyFirst(f)
  }

  /** Cutting into such a stream at any offset loses the frames before it and
      the one it cuts, and no other. */
  lemma {:induction false} CutDelivers(fs: seq<Frame>, cut: nat) returns (i: nat)
    requires Resyncable(fs) && cut <= |WireAll(fs)|
    ensures i <= |fs| && Parse(WireAll(fs)[cut..]) == fs[i..]
    ensures i > 0 ==> |WireAll(fs[..i - 1])| < cut
    decreases |fs|
  {
    hide Crc16.Crc, Parse;
    if cut == 0 {
      RoundTrip(fs);
      assert WireAll(fs)[0..] == WireAll(fs);
      return 0;
    }
    var first, rest := Wire(fs[0]), WireAll(fs[1..]);
    if cut < |first| {
      assert WireAll(fs)[cut..] == first[cut..] + rest;
      assert forall b <- first[cut..] :: b in first[1..] by {
        assert first[cut..] == first[1..][cut - 1..];
      }
      NoSyncSkipped(first[cut..], rest);
      RoundTrip(fs[1..]);
      assert fs[..0] == [];
      return 1;
    }
    assert WireAll(fs)[cut..] == rest[cut - |first|..];
    var j := CutDelivers(fs[1..], cut - |first|);
    i := j + 1;
    assert fs[i..] == fs[1..][j..];
    if j > 0 {
      assert fs[..i - 1][1..] == fs[1..][..j - 1] && fs[..i - 1][0] == fs[0];
      assert WireAll(fs[..i - 1]) == first + WireAll(fs[1..][..j - 1]);
    } else {
      assert fs[..0] == [];
    }
  }

  /** After arbitrary garbage the parser may deliver phantoms and lose some
      frames, but every frame that starts 292 or more bytes past the garbage
      is delivered, in order and with nothing after. */
  lemma {:induction false} ResyncAfterGarbage(garbage: seq<byte>, fs: seq<Frame>)
    returns (phantoms: seq<Frame>, i: nat)
    requires Resyncable(fs)
    ensures i <= |fs| && Parse(garbage + WireAll(fs)) == phantoms + fs[i..]
    ensures i > 0 ==> |WireAll(fs[..i - 1])| < 292
    decreases |garbage|
  {
    hide Crc16.Crc, WireAll, Parse, CrcMatches, FrameAt;
    var tail := WireAll(fs);
    var s := garbage + tail;
    if garbage == [] {
      assert s == tail;
      RoundTrip(fs);
      return [], 0;
    }
    if s[0] != SYNC || (|s| >= 4 && HeaderLen(s) > MAX_LEN) {
      ParseSkips(s);
      assert s[1..] == garbage[1..] + tail;
      phantoms, i := ResyncAfterGarbage(garbage[1..], fs);
      return;
    }
    if |s| < 4 || |s| < MIN_FRAME + HeaderLen(s) {
      ParseWaits(s);
      LostTail(fs);
      return [], |fs|;
    }
    var size := MIN_FRAME + HeaderLen(s);
    var head := if CrcMatches(s) then [FrameAt(s)] else [];
    ParseTakes(s, size);
    if size <= |garbage| {
      assert s[size..] == garbage[size..] + tail;
      var more: seq<Frame>;
      more, i := ResyncAfterGarbage(garbage[size..], fs);
      AppendAssoc(head, more, fs[i..]);
      phantoms := head + more;
    } else {
      assert s[size..] == tail[size - |garbage|..];
      i := CutDelivers(fs, size - |garbage|);
      phantoms := head;
    }
  }

  /** Everything but the last frame is shorter than the whole. */
  lemma {:induction false} LostTail(fs: seq<Frame>)
    requires forall f <- fs :: |f.payload| < 0x1_0000
    ensures |fs| > 0 ==> |WireAll(fs[..|fs| - 1])| < |WireAll(fs)|
    decreases |fs|
  {
    if |fs| > 1 {
      assert fs[..|fs| - 1][1..] == fs[1..][..|fs| - 2] && fs[..|fs| - 1][0] == fs[0];
      LostTail(fs[1..]);
    } else if |fs| == 1 {
      assert fs[..0] == [];
    }
  }

  // ----- Damage inside a frame -----

  /** Any damage confined to two adjacent bytes of the command or payload is
      rejected by the CRC, and the damaged frame is stepped over as a whole:
      the frames behind it are read as if it had not been there. */
  lemma DamageIsContained(f: Frame, before: seq<byte>, x: seq<byte>, y: seq<byte>, after: seq<byte>,
                          later: seq<byte>)
    requires |f.payload| <= MAX_LEN && Covered(f) == before + x + after
    requires |x| == |y| <= 2 && x != y
    requires (before + y + after)[1..3] == Covered(f)[1..3]
    ensures Parse([SYNC] + (before + y + after) + CrcBytes(Covered(f)) + later) == Parse(later)
  {
    hide Crc16.Crc, Parse;
    Crc16.AdjacentBytesDetected(before, x, y, after);
    CrcBytesValue(Covered(f));
    var damaged := before + y + after;
    LengthStays(f, damaged);
    WrongCrcSkipped(damaged, CrcBytes(Covered(f)), later);
  }

  /** So is any damage of one, two or three bits of command, payload and CRC field
      taken together, wherever they are. */
  lemma FewBitErrorsAreContained(f: Frame, damaged: seq<byte>, crc: seq<byte>, later: seq<byte>)
    requires |f.payload| <= MAX_LEN && |damaged| == |Covered(f)| && damaged[1..3] == Covered(f)[1..3] && |crc| == 2
    requires 1 <= CrcOrder.Ones(XorBits(Crc16.Bits(Covered(f) + CrcBytes(Covered(f))), Crc16.Bits(damaged + crc))) <= 3
    ensures Parse([SYNC] + damaged + crc + later) == Parse(later)
  {
    hide Crc16.Crc, Crc16.Bits, CrcOrder.Ones, XorBits, Parse, Crc16.RegisterOf, CrcBytes;
    var own := CrcBytes(Covered(f));
    BitErrorsSplit(Covered(f), own, damaged, crc);
    CrcBytesValue(Covered(f));
    CrcOrder.OnesSwap(own[0], own[1], crc[0], crc[1]);
    assert own == [own[0], own[1]] && crc == [crc[0], crc[1]];
    CrcCodeword.FewCodewordErrorsDetected(Covered(f), damaged, LittleEndian(crc[0], crc[1]));
    LengthStays(f, damaged);
    WrongCrcSkipped(damaged, crc, later);
  }

  lemma LengthStays(f: Frame, damaged: seq<byte>)
    requires |f.payload| <= MAX_LEN && |damaged| == |Covered(f)| && damaged[1..3] == Covered(f)[1..3]
    ensures |damaged| >= 3 && LittleEndian(damaged[1], damaged[2]) == |damaged| - 3 <= MAX_LEN
  {
    assert damaged[1..3][0] == damaged[1] && damaged[1..3][1] == damaged[2];
    assert Covered(f)[1..3][0] == Covered(f)[1] && Covered(f)[1..3][1] == Covered(f)[2];
    LittleEndianRoundTrip(|f.payload|);
  }

  lemma BitErrorsSplit(a: seq<byte>, b: seq<byte>, c: seq<byte>, d: seq<byte>)
    requires |a| == |c| && |b| == |d|
    ensures CrcOrder.Ones(XorBits(Crc16.Bits(a + b), Crc16.Bits(c + d))) ==
            CrcOrder.Ones(XorBits(Crc16.Bits(a), Crc16.Bits(c))) + CrcOrder.Ones(XorBits(Crc16.Bits(b), Crc16.Bits(d)))
  {
    hide Crc16.Bits, CrcOrder.Ones, XorBits;
    Crc16.BitsAppend(a, b);
    Crc16.BitsAppend(c, d);
    CrcOrder.XorOfJoined(Crc16.Bits(a), Crc16.Bits(b), Crc16.Bits(c), Crc16.Bits(d));
    CrcOrder.OnesAppend(XorBits(Crc16.Bits(a), Crc16.Bits(c)), XorBits(Crc16.Bits(b), Crc16.Bits(d)));
  }

  /** Two adjacent bytes across the border of payload and CRC are the exception:
      changing the last payload byte to `y` and the low CRC byte to `lo` yields
      another valid frame exactly when they change by 0x89 and 0xA1, and otherwise
      costs this frame and nothing else. */
  lemma BorderDamageMissedIff(f: Frame, y: byte, lo: byte, later: seq<byte>)
    requires 1 <= |f.payload| <= MAX_LEN && y != f.payload[|f.payload| - 1]
    ensures var x, own := f.payload[|f.payload| - 1], CrcBytes(Covered(f));
            var g := Frame(f.cmd, f.payload[..|f.payload| - 1] + [y]);
            Parse([SYNC] + Covered(g) + [lo, own[1]] + later) ==
            (if BitXor(x, y) == 0x89 && BitXor(own[0], lo) == 0xA1 then [g] else []) + Parse(later)
  {
    var n := |f.payload| - 1;
    var x, g, own := f.payload[n], Frame(f.cmd, f.payload[..n] + [y]), CrcBytes(Covered(f));
    var before := Covered(f)[..3 + n];
    assert Covered(f) == before + [x] && Covered(g) == before + [y];
    Crc16.CrcBound(Covered(f));
    CrcCodeword.BorderMissedIff(before, x, y, lo);
    var crc := [lo, own[1]];
    hide Crc16.Crc, Parse, BitXor;
    CrcFieldDecides(crc, Covered(g));
    LittleEndianRoundTrip(|g.payload|);
    if crc == CrcBytes(Covered(g)) {
      WireParses(g, later);
      assert [SYNC] + Covered(g) + crc == Wire(g);
    } else {
      WrongCrcSkipped(Covered(g), crc, later);
      assert [] + Parse(later) == Parse(later);
    }
  }

  /** So is any damage confined to the CRC field itself. */
  lemma CrcDamageIsContained(f: Frame, crc: seq<byte>, later: seq<byte>)
    requires |f.payload| <= MAX_LEN && |crc| == 2 && crc != CrcBytes(Covered(f))
    ensures Parse([SYNC] + Covered(f) + crc + later) == Parse(later)
  {
    hide Crc16.Crc, CrcBytes, Parse;
    var covered := Covered(f);
    CrcFieldDecides(crc, covered);
    assert LittleEndian(covered[1], covered[2]) == |covered| - 3 by { LittleEndianRoundTrip(|f.payload|); }
    WrongCrcSkipped(covered, crc, later);
  }

  lemma CrcFieldDecides(crc: seq<byte>, covered: seq<byte>)
    requires |crc| == 2
    ensures LittleEndian(crc[0], crc[1]) == Crc16.Crc(covered) <==> crc == CrcBytes(covered)
  {
    hide Crc16.Crc, CrcBytes;
    var own := CrcBytes(covered);
    CrcBytesValue(covered);
    if LittleEndian(crc[0], crc[1]) == LittleEndian(own[0], own[1]) {
      LittleEndianInjective(crc[0], crc[1], own[0], own[1]);
      assert crc == [crc[0], crc[1]] == [own[0], own[1]] == own;
    }
  }

  lemma WrongCrcSkipped(covered: seq<byte>, crc: seq<byte>, later: seq<byte>)
    requires |covered| >= 3 && |crc| == 2
    requires LittleEndian(covered[1], covered[2]) == |covered| - 3 <= MAX_LEN
    requires LittleEndian(crc[0], crc[1]) != Crc16.Crc(covered)
    ensures Parse([SYNC] + covered + crc + later) == Parse(later)
  {
    hide Crc16.Crc;
    var b := [SYNC] + covered + crc;
    var n := |covered| - 3;
    assert HeaderLen(b) == n;
    assert b[1..4 + n] == covered;
    assert b[4 + n] == crc[0] && b[5 + n] == crc[1];
    TakeFrame(b, later);
    assert b[MIN_FRAME + n..] + later == later;
  }
}
