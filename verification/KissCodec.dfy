/** The KISS framing of the modem and serial drivers: one encoder, a byte-wise
    decoder and a bulk decoder, in the two dialects the drivers use.

    Two automata specify the decoders.  `ByteStep` looks at the delimiters
    first, `BulkStep` at the escape state first.  The bulk decoder's run-copying
    loop refines the fold of `BulkStep`. */
module KissCodec {
  import opened Bytes

  const FEND: byte := 0xC0
  const FESC: byte := 0xDB
  const TFEND: byte := 0xDC
  const TFESC: byte := 0xDD
  const MAX_FRAME_SIZE: nat := 512

  /** The serial driver caps escaped bytes too and wants a byte after the
      command; the modem driver does neither. */
  datatype Dialect = Modem | Serial {
    function MinFrame(): nat { if Modem? then 1 else 2 }
  }

  predicate Special(b: byte) { b == FEND || b == FESC }

  datatype Decoder = Decoder(buf: seq<byte>, inFrame: bool, escaped: bool,
                             frames: seq<seq<byte>>, errors: nat)

  const INITIAL := Decoder([], false, false, [], 0)

  // ----- The automata -----

  /** Count an error and wait for the next FEND. */
  function Resync(st: Decoder): Decoder {
    Decoder([], false, false, st.frames, st.errors + 1)
  }

  /** The frame that a FEND completes, if any. */
  function Completed(d: Dialect, st: Decoder): seq<seq<byte>> {
    if st.inFrame && |st.buf| >= d.MinFrame() then [st.buf] else []
  }

  function OnFend(d: Dialect, st: Decoder): Decoder {
    Decoder([], true, false, st.frames + Completed(d, st), st.errors)
  }

  function OnFesc(st: Decoder): Decoder {
    if st.inFrame then st.(escaped := true) else st
  }

  function OnEscaped(d: Dialect, st: Decoder, b: byte): Decoder {
    if b != TFEND && b != TFESC then Resync(st)
    else if d.Serial? && |st.buf| >= MAX_FRAME_SIZE then Resync(st)
    else st.(buf := st.buf + [if b == TFEND then FEND else FESC], escaped := false)
  }

  function OnPlain(st: Decoder, b: byte): Decoder {
    if !st.inFrame then st
    else if |st.buf| >= MAX_FRAME_SIZE then Resync(st)
    else st.(buf := st.buf + [b])
  }

  /** One byte through `_decode_kiss_byte`. */
  function ByteStep(d: Dialect, st: Decoder, b: byte): Decoder {
    if b == FEND then OnFend(d, st)
    else if b == FESC then OnFesc(st)
    else if st.escaped then OnEscaped(d, st, b)
    else OnPlain(st, b)
  }

  /** One byte as `_decode_kiss` treats it. */
  function BulkStep(d: Dialect, st: Decoder, b: byte): Decoder {
    if st.escaped then OnEscaped(d, st, b)
    else if b == FEND then OnFend(d, st)
    else if b == FESC then OnFesc(st)
    else OnPlain(st, b)
  }

  function ByteFold(d: Dialect, st: Decoder, data: seq<byte>): Decoder
    decreases |data|
  {
    if data == [] then st else ByteFold(d, ByteStep(d, st, data[0]), data[1..])
  }

  function BulkFold(d: Dialect, st: Decoder, data: seq<byte>): Decoder
    decreases |data|
  {
    if data == [] then st else BulkFold(d, BulkStep(d, st, data[0]), data[1..])
  }

  lemma {:induction false} BulkFoldAppend(d: Dialect, st: Decoder, a: seq<byte>, b: seq<byte>)
    ensures BulkFold(d, st, a + b) == BulkFold(d, BulkFold(d, st, a), b)
    decreases |a|
  {
    if a == [] {
      assert a + b == b;
    } else {
      assert (a + b)[0] == a[0] && (a + b)[1..] == a[1..] + b;
      BulkFoldAppend(d, BulkStep(d, st, a[0]), a[1..], b);
    }
  }

  // ----- The decoders -----

  predicate Plain(run: seq<byte>) {
    forall b <- run :: !Special(b)
  }

  /** What a run of plain bytes does all at once. */
  function OnRun(st: Decoder, run: seq<byte>): Decoder {
    if !st.inFrame || run == [] then st
    else if |run| <= MAX_FRAME_SIZE - |st.buf| then st.(buf := st.buf + run)
    else Resync(st)
  }

  lemma {:induction false} RunIsFold(d: Dialect, st: Decoder, run: seq<byte>)
    requires Plain(run) && !st.escaped
    ensures BulkFold(d, st, run) == OnRun(st, run)
    decreases |run|
  {
    if run != [] {
      var next := BulkStep(d, st, run[0]);
      assert run[0] in run;
      assert Plain(run[1..]);
      RunIsFold(d, next, run[1..]);
      if st.inFrame && |st.buf| < MAX_FRAME_SIZE {
        assert st.buf + [run[0]] + run[1..] == st.buf + run;
      }
    }
  }

  class KissDecoder {
    const dialect: Dialect
    var rxFrameBuffer: seq<byte>
    var inFrame: bool
    var escaped: bool
    var processed: seq<seq<byte>>
    var frameErrors: nat

    function State(): Decoder
      reads this
    {
      Decoder(rxFrameBuffer, inFrame, escaped, processed, frameErrors)
    }

    constructor (dialect: Dialect)
      ensures this.dialect == dialect && State() == INITIAL
    {
      this.dialect := dialect;
      rxFrameBuffer, inFrame, escaped, processed, frameErrors := [], false, false, [], 0;
    }

    method DecodeByte(b: byte)
      modifies this
      ensures State() == ByteStep(dialect, old(State()), b)
    {
      if b == FEND {
        if inFrame && |rxFrameBuffer| >= dialect.MinFrame() {
          processed := processed + [rxFrameBuffer];
        }
        rxFrameBuffer := [];
        inFrame := true;
        escaped := false;
      } else if b == FESC {
        if inFrame { escaped := true; }
      } else if escaped {
        if b == TFEND || b == TFESC {
          if dialect.Serial? && |rxFrameBuffer| >= MAX_FRAME_SIZE {
            frameErrors := frameErrors + 1;
            rxFrameBuffer := [];
            inFrame := false;
          } else {
            rxFrameBuffer := rxFrameBuffer + [if b == TFEND then FEND else FESC];
          }
        } else {
          frameErrors := frameErrors + 1;
          rxFrameBuffer := [];
          inFrame := false;
        }
        escaped := false;
      } else {
        if inFrame {
          if |rxFrameBuffer| >= MAX_FRAME_SIZE {
            frameErrors := frameErrors + 1;
            rxFrameBuffer := [];
            inFrame := false;
          } else {
            rxFrameBuffer := rxFrameBuffer + [b];
          }
        }
      }
    }

    /** `data.find(b, i)` */
    static method Find(data: seq<byte>, b: byte, start: nat) returns (k: int)
      requires start <= |data|
      ensures k == -1 ==> b !in data[start..]
      ensures k != -1 ==> start <= k < |data| && data[k] == b && b !in data[start..k]
    {
      for j := start to |data|
        invariant b !in data[start..j]
      {
        if data[j] == b { return j; }
        assert data[start..j + 1] == data[start..j] + [data[j]];
      }
      return -1;
    }

    /** Whatever stands between the delimiters, escapes included, one byte on. */
    method TakeEscaped(b: byte)
      requires escaped
      modifies this
      ensures State() == OnEscaped(dialect, old(State()), b)
    {
      escaped := false;
      if b == TFEND || b == TFESC {
        if dialect.Serial? && |rxFrameBuffer| >= MAX_FRAME_SIZE {
          frameErrors := frameErrors + 1;
          rxFrameBuffer := [];
          inFrame := false;
        } else {
          rxFrameBuffer := rxFrameBuffer + [if b == TFEND then FEND else FESC];
        }
      } else {
        frameErrors := frameErrors + 1;
        rxFrameBuffer := [];
        inFrame := false;
      }
    }

    /** A run of plain bytes, up to the frame cap. */
    method TakeRun(run: seq<byte>)
      requires !escaped
      modifies this
      ensures State() == OnRun(old(State()), run)
    {
      if |run| > 0 && inFrame {
        var space := MAX_FRAME_SIZE - |rxFrameBuffer|;
        if |run| <= space {
          rxFrameBuffer := rxFrameBuffer + run;
        } else {
          if space > 0 { rxFrameBuffer := rxFrameBuffer + run[..space]; }
          frameErrors := frameErrors + 1;
          rxFrameBuffer := [];
          inFrame := false;
        }
      }
    }

    /** A FEND or FESC outside an escape. */
    method TakeDelimiter(b: byte)
      requires !escaped && Special(b)
      modifies this
      ensures State() == BulkStep(dialect, old(State()), b)
    {
      if b == FEND {
        if inFrame && |rxFrameBuffer| >= dialect.MinFrame() {
          processed := processed + [rxFrameBuffer];
        }
        rxFrameBuffer := [];
        inFrame := true;
        escaped := false;
      } else {
        if inFrame { escaped := true; }
      }
    }

    /** The bulk decoder: escapes one at a time, plain bytes run by run. */
    method Decode(data: seq<byte>)
      modifies this
      ensures State() == BulkFold(dialect, old(State()), data)
    {
      hide BulkFold, OnRun, OnEscaped;
      var n := |data|;
      FoldEnd(dialect, State());
      if n == 0 { return; }
      var i := 0;
      while i < n
        invariant 0 <= i <= n
        invariant BulkFold(dialect, State(), data[i..]) == BulkFold(dialect, old(State()), data)
        decreases n - i
      {
        ghost var before := State();
        if escaped {
          FoldStep(dialect, before, data, i);
          TakeEscaped(data[i]);
          i := i + 1;
          continue;
        }
        var fend := Find(data, FEND, i);
        var fesc := Find(data, FESC, i);
        var nxt := if fend == -1 then fesc else if fesc == -1 then fend
                   else if fend < fesc then fend else fesc;
        var runEnd := if nxt == -1 then n else nxt;
        PlainUpTo(data, i, runEnd);
        RunUpTo(dialect, before, data, i, runEnd);
        TakeRun(data[i..runEnd]);
        if nxt == -1 {
          assert data[n..] == [];
          FoldEnd(dialect, State());
          return;
        }
        i := runEnd;
        FoldStep(dialect, State(), data, i);
        TakeDelimiter(data[i]);
        i := i + 1;
      }
      assert data[n..] == [];
      FoldEnd(dialect, State());
    }
  }

  lemma FoldEnd(d: Dialect, st: Decoder)
    ensures BulkFold(d, st, []) == st
  {}

  lemma FoldStep(d: Dialect, st: Decoder, data: seq<byte>, i: nat)
    requires i < |data|
    ensures BulkFold(d, st, data[i..]) == BulkFold(d, BulkStep(d, st, data[i]), data[i + 1..])
  {
    assert data[i..][1..] == data[i + 1..];
  }

  lemma PlainUpTo(data: seq<byte>, i: nat, j: nat)
    requires i <= j <= |data| && FEND !in data[i..j] && FESC !in data[i..j]
    ensures Plain(data[i..j])
  {}

  lemma RunUpTo(d: Dialect, st: Decoder, data: seq<byte>, i: nat, j: nat)
    requires i <= j <= |data| && !st.escaped && Plain(data[i..j])
    ensures BulkFold(d, st, data[i..]) == BulkFold(d, OnRun(st, data[i..j]), data[j..])
    ensures !OnRun(st, data[i..j]).escaped
  {
    RunIsFold(d, st, data[i..j]);
    assert data[i..] == data[i..j] + data[j..];
    BulkFoldAppend(d, st, data[i..j], data[j..]);
  }

  // ----- Chunking -----

  function DecodeChunks(d: Dialect, st: Decoder, chunks: seq<seq<byte>>): Decoder
    decreases |chunks|
  {
    if chunks == [] then st else DecodeChunks(d, BulkFold(d, st, chunks[0]), chunks[1..])
  }

  /** However a stream is cut into reads, the decoder ends in the same state
      with the same frames and the same error count. */
  lemma {:induction false} ChunkIndependence(d: Dialect, st: Decoder, chunks: seq<seq<byte>>)
    ensures DecodeChunks(d, st, chunks) == BulkFold(d, st, Concat(chunks))
    decreases |chunks|
  {
    if chunks != [] {
      BulkFoldAppend(d, st, chunks[0], Concat(chunks[1..]));
      ChunkIndependence(d, BulkFold(d, st, chunks[0]), chunks[1..]);
    }
  }

  // ----- Bulk against byte-wise -----

  /** No delimiter arrives while an escape is pending. */
  predicate Clean(d: Dialect, st: Decoder, data: seq<byte>)
    decreases |data|
  {
    data == [] ||
    (!(st.escaped && Special(data[0])) && Clean(d, BulkStep(d, st, data[0]), data[1..]))
  }

  predicate AgreeAfter(d: Dialect, st: Decoder, data: seq<byte>, n: nat)
    requires n <= |data|
  {
    ByteFold(d, st, data[..n]) == BulkFold(d, st, data[..n])
  }

  /** The decoders take the same step except when a delimiter meets a pending
      escape, and then always a different one. */
  lemma StepsAgreeIff(d: Dialect, st: Decoder, b: byte)
    ensures ByteStep(d, st, b) == BulkStep(d, st, b) <==> !(st.escaped && Special(b))
  {}

  /** The two decoders agree after every prefix of a stream (frames, errors
      and state) exactly when the stream is clean for the starting state. */
  lemma {:induction false} DecodersAgreeIffClean(d: Dialect, st: Decoder, data: seq<byte>)
    ensures (forall n :: 0 <= n <= |data| ==> AgreeAfter(d, st, data, n)) <==> Clean(d, st, data)
    decreases |data|
  {
    if data == [] {
    } else {
      var rest := data[1..];
      StepsAgreeIff(d, st, data[0]);
      AgreeAfterFirst(d, st, data);
      if st.escaped && Special(data[0]) {
        assert !AgreeAfter(d, st, data, 1);
      } else {
        var next := BulkStep(d, st, data[0]);
        DecodersAgreeIffClean(d, next, rest);
        forall n | 1 <= n <= |data| ensures AgreeAfter(d, st, data, n) == AgreeAfter(d, next, rest, n - 1) {
          assert data[..n][1..] == rest[..n - 1];
        }
        if Clean(d, st, data) {
          forall n | 0 <= n <= |data| ensures AgreeAfter(d, st, data, n) {
            if n > 0 { assert AgreeAfter(d, next, rest, n - 1); }
          }
        }
        if forall n :: 0 <= n <= |data| ==> AgreeAfter(d, st, data, n) {
          forall n | 0 <= n <= |rest| ensures AgreeAfter(d, next, rest, n) {
            assert AgreeAfter(d, st, data, n + 1);
          }
        }
      }
    }
  }

  lemma AgreeAfterFirst(d: Dialect, st: Decoder, data: seq<byte>)
    requires data != []
    ensures AgreeAfter(d, st, data, 1) <==> ByteStep(d, st, data[0]) == BulkStep(d, st, data[0])
  {
    assert data[..1] == [data[0]];
    assert ByteFold(d, st, [data[0]]) == ByteFold(d, ByteStep(d, st, data[0]), []);
    assert BulkFold(d, st, [data[0]]) == BulkFold(d, BulkStep(d, st, data[0]), []);
  }

  /** A check on the bytes alone: no FESC directly before a delimiter. */
  predicate NoSplitEscape(escaped: bool, data: seq<byte>) {
    && (escaped && data != [] ==> !Special(data[0]))
    && (forall i :: 0 <= i < |data| - 1 && data[i] == FESC ==> !Special(data[i + 1]))
  }

  lemma {:induction false} NoSplitEscapeIsClean(d: Dialect, st: Decoder, data: seq<byte>)
    requires NoSplitEscape(st.escaped, data)
    ensures Clean(d, st, data)
    decreases |data|
  {
    if data != [] {
      var next := BulkStep(d, st, data[0]);
      assert next.escaped ==> data[0] == FESC;
      forall i | 0 <= i < |data[1..]| - 1 && data[1..][i] == FESC ensures !Special(data[1..][i + 1]) {
        assert data[i + 1] == FESC;
      }
      NoSplitEscapeIsClean(d, next, data[1..]);
    }
  }

  /** A frame cut short by a lone FESC: the byte-wise decoder delivers it, the
      bulk decoder counts an error. */
  lemma DecodersDiffer()
    ensures ByteFold(Modem, INITIAL, [0xC0, 0x00, 0x41, 0xDB, 0xC0]) ==
            Decoder([], true, false, [[0x00, 0x41]], 0)
    ensures BulkFold(Modem, INITIAL, [0xC0, 0x00, 0x41, 0xDB, 0xC0]) ==
            Decoder([], false, false, [], 1)
  {
    var s: seq<byte> := [0xC0, 0x00, 0x41, 0xDB, 0xC0];
    var s0 := Decoder([], true, false, [], 0);
    var s1 := s0.(buf := [0x00]);
    var s2 := s0.(buf := [0x00, 0x41]);
    var s3 := s2.(escaped := true);
    assert s[1..] == [0x00, 0x41, 0xDB, 0xC0] && s[2..] == [0x41, 0xDB, 0xC0];
    assert s[3..] == [0xDB, 0xC0] && s[4..] == [0xC0] && s[5..] == [];
    assert s[1..][1..] == s[2..] && s[2..][1..] == s[3..] && s[3..][1..] == s[4..] && s[4..][1..] == s[5..];
    assert ByteStep(Modem, INITIAL, s[0]) == s0 == BulkStep(Modem, INITIAL, s[0]);
    assert ByteStep(Modem, s0, s[1]) == s1 == BulkStep(Modem, s0, s[1]);
    assert ByteStep(Modem, s1, s[2]) == s2 == BulkStep(Modem, s1, s[2]);
    assert ByteStep(Modem, s2, s[3]) == s3 == BulkStep(Modem, s2, s[3]);
    assert ByteStep(Modem, s3, s[4]) == Decoder([], true, false, [[0x00, 0x41]], 0);
    assert BulkStep(Modem, s3, s[4]) == Decoder([], false, false, [], 1);
    assert ByteFold(Modem, s3, s[4..]) == ByteFold(Modem, ByteStep(Modem, s3, s[4]), s[5..]);
    assert BulkFold(Modem, s3, s[4..]) == BulkFold(Modem, BulkStep(Modem, s3, s[4]), s[5..]);
    assert ByteFold(Modem, s1, s[2..]) == ByteFold(Modem, s2, s[3..]) == ByteFold(Modem, s3, s[4..]);
    assert BulkFold(Modem, s1, s[2..]) == BulkFold(Modem, s2, s[3..]) == BulkFold(Modem, s3, s[4..]);
    assert ByteFold(Modem, INITIAL, s) == ByteFold(Modem, s0, s[1..]) == ByteFold(Modem, s1, s[2..]);
    assert BulkFold(Modem, INITIAL, s) == BulkFold(Modem, s0, s[1..]) == BulkFold(Modem, s1, s[2..]);
  }

  // ----- The encoder -----

  function EscapeByte(b: byte): seq<byte> {
    if b == FEND then [FESC, TFEND] else if b == FESC then [FESC, TFESC] else [b]
  }

  function Escape(data: seq<byte>): seq<byte> {
    if data == [] then [] else EscapeByte(data[0]) + Escape(data[1..])
  }

  function Encode(cmd: byte, data: seq<byte>): seq<byte> {
    [FEND, cmd] + Escape(data) + [FEND]
  }

  // ----- The escapes, in bytes alone -----

  /** `DB DC` stands for `C0` and `DB DD` for `DB`; every other byte for itself. */
  function Unescape(wire: seq<byte>): seq<byte> {
    if wire == [] then []
    else if |wire| >= 2 && wire[0] == 0xDB && wire[1] == 0xDC then [0xC0] + Unescape(wire[2..])
    else if |wire| >= 2 && wire[0] == 0xDB && wire[1] == 0xDD then [0xDB] + Unescape(wire[2..])
    else [wire[0]] + Unescape(wire[1..])
  }

  predicate EscapedAt(wire: seq<byte>, i: nat)
    requires i < |wire|
  {
    && wire[i] != 0xC0
    && (wire[i] == 0xDB ==> i + 1 < |wire| && (wire[i + 1] == 0xDC || wire[i + 1] == 0xDD))
  }

  /** No `C0`, and every `DB` is followed by `DC` or `DD`. */
  predicate WellEscaped(wire: seq<byte>) {
    forall i :: 0 <= i < |wire| ==> EscapedAt(wire, i)
  }

  lemma WellEscapedRest(wire: seq<byte>, k: nat)
    requires WellEscaped(wire) && k <= |wire|
    ensures WellEscaped(wire[k..])
  {
    forall i | 0 <= i < |wire[k..]| ensures EscapedAt(wire[k..], i) { assert EscapedAt(wire, k + i); }
  }

  lemma {:induction false} EscapeIsWellEscaped(data: seq<byte>)
    ensures WellEscaped(Escape(data))
    decreases |data|
  {
    if data != [] {
      EscapeIsWellEscaped(data[1..]);
      var e, rest := EscapeByte(data[0]), Escape(data[1..]);
      forall i | 0 <= i < |e + rest| ensures EscapedAt(e + rest, i) {
        if i >= |e| { assert EscapedAt(rest, i - |e|); }
      }
    }
  }

  lemma UnescapeByte(b: byte, rest: seq<byte>)
    ensures Unescape(EscapeByte(b) + rest) == [b] + Unescape(rest)
  {
    var wire := EscapeByte(b) + rest;
    assert wire[|EscapeByte(b)|..] == rest;
  }

  /** The encoder's escapes mean the data they stand for. */
  lemma {:induction false} EscapeMeansData(data: seq<byte>)
    ensures Unescape(Escape(data)) == data
    decreases |data|
  {
    if data != [] {
      EscapeMeansData(data[1..]);
      var e, rest := EscapeByte(data[0]), Escape(data[1..]);
      UnescapeByte(data[0], rest);
      assert [data[0]] + data[1..] == data;
    }
  }

  method EncodeFrame(cmd: byte, data: seq<byte>) returns (frame: seq<byte>)
    ensures frame == Encode(cmd, data)
    ensures |frame| >= 3 && frame[0] == 0xC0 && frame[1] == cmd && frame[|frame| - 1] == 0xC0
    ensures WellEscaped(frame[2..|frame| - 1]) && Unescape(frame[2..|frame| - 1]) == data
  {
    frame := [FEND, cmd];
    for i := 0 to |data|
      invariant frame + Escape(data[i..]) == [FEND, cmd] + Escape(data)
    {
      assert data[i..][1..] == data[i + 1..];
      ghost var before := frame;
      if data[i] == FEND {
        frame := frame + [FESC, TFEND];
      } else if data[i] == FESC {
        frame := frame + [FESC, TFESC];
      } else {
        frame := frame + [data[i]];
      }
      assert frame == before + EscapeByte(data[i]);
      AppendAssoc(before, EscapeByte(data[i]), Escape(data[i + 1..]));
    }
    frame := frame + [FEND];
    assert frame == Encode(cmd, data);
    assert Encode(cmd, data)[2..|frame| - 1] == Escape(data);
    EscapeIsWellEscaped(data);
    EscapeMeansData(data);
  }

  /** The serial encoder's command byte; `port` is a 4-bit port number. */
  function SerialCommand(port: nat, cmd: nat): byte
    requires port < 16
  {
    port * 16 + cmd % 16
  }

  /** The command byte is sent raw, so two port and command pairs collide with
      the delimiters; of data frames only those of port 12 do. */
  lemma SerialCommandCollides(port: nat, cmd: nat)
    requires port < 16
    ensures Special(SerialCommand(port, cmd)) <==>
            (port == 12 && cmd % 16 == 0) || (port == 13 && cmd % 16 == 11)
  {}

  // ----- What a decoder makes of encoded frames -----

  datatype Message = Message(cmd: byte, data: seq<byte>) {
    function Contents(): seq<byte> { [cmd] + data }
  }

  /** Room for one more byte in a frame that holds `held`.  Past the cap the
      modem dialect still takes a byte that arrives escaped. */
  predicate Takes(d: Dialect, held: nat, b: byte) {
    held < 512 || (d.Modem? && Special(b))
  }

  predicate Fits(d: Dialect, held: nat, data: seq<byte>) {
    forall i :: 0 <= i < |data| ==> Takes(d, held + i, data[i])
  }

  predicate Deliverable(d: Dialect, m: Message) {
    Fits(d, 1, m.data) && |m.data| + 1 >= d.MinFrame()
  }

  function Delivered(d: Dialect, ms: seq<Message>): seq<seq<byte>> {
    if ms == [] then []
    else (if Deliverable(d, ms[0]) then [ms[0].Contents()] else []) + Delivered(d, ms[1..])
  }

  function Oversized(d: Dialect, ms: seq<Message>): nat {
    if ms == [] then 0 else (if Fits(d, 1, ms[0].data) then 0 else 1) + Oversized(d, ms[1..])
  }

  function EncodeAll(ms: seq<Message>): seq<byte> {
    if ms == [] then [] else Encode(ms[0].cmd, ms[0].data) + EncodeAll(ms[1..])
  }

  predicate RawCommands(ms: seq<Message>) {
    forall m <- ms :: !Special(m.cmd)
  }

  /** Outside a frame everything up to the next FEND is ignored. */
  lemma {:induction false} IgnoredOutside(d: Dialect, st: Decoder, data: seq<byte>)
    requires !st.inFrame && !st.escaped && FEND !in data
    ensures BulkFold(d, st, data) == st
    decreases |data|
  {
    if data != [] {
      assert data[0] in data;
      IgnoredOutside(d, st, data[1..]);
    }
  }

  lemma {:induction false} EscapeHasNoFend(data: seq<byte>)
    ensures FEND !in Escape(data)
    decreases |data|
  {
    if data != [] { EscapeHasNoFend(data[1..]); }
  }

  lemma EscapedByteFolds(d: Dialect, st: Decoder, b: byte, later: seq<byte>)
    requires st.inFrame && !st.escaped
    ensures BulkFold(d, st, EscapeByte(b) + later) ==
            BulkFold(d, if Takes(d, |st.buf|, b) then st.(buf := st.buf + [b]) else Resync(st), later)
  {
    var e := EscapeByte(b);
    assert (e + later)[0] == e[0];
    if |e| == 1 {
      assert (e + later)[1..] == later;
    } else {
      assert (e + later)[1..] == [e[1]] + later && ([e[1]] + later)[1..] == later;
    }
  }

  lemma FitsSplit(d: Dialect, held: nat, data: seq<byte>)
    requires data != []
    ensures Fits(d, held, data) <==> Takes(d, held, data[0]) && Fits(d, held + 1, data[1..])
  {
    var rest := data[1..];
    if Takes(d, held, data[0]) && Fits(d, held + 1, rest) {
      forall i | 0 <= i < |data| ensures Takes(d, held + i, data[i]) {
        if i > 0 { assert Takes(d, held + 1 + (i - 1), rest[i - 1]); }
      }
    }
    if Fits(d, held, data) {
      assert Takes(d, held + 0, data[0]);
      forall i | 0 <= i < |rest| ensures Takes(d, held + 1 + i, rest[i]) {
        assert Takes(d, held + (i + 1), data[i + 1]);
      }
    }
  }

  /** Inside a frame escaped data arrives whole, or costs one error and the
      rest of the frame. */
  lemma {:induction false} EscapeFolds(d: Dialect, st: Decoder, data: seq<byte>)
    requires st.inFrame && !st.escaped
    ensures BulkFold(d, st, Escape(data)) ==
            if Fits(d, |st.buf|, data) then st.(buf := st.buf + data) else Resync(st)
    decreases |data|
  {
    if data == [] {
      assert st.buf + data == st.buf;
    } else {
      var rest := Escape(data[1..]);
      EscapedByteFolds(d, st, data[0], rest);
      FitsSplit(d, |st.buf|, data);
      if Takes(d, |st.buf|, data[0]) {
        EscapeFolds(d, st.(buf := st.buf + [data[0]]), data[1..]);
        assert st.buf + [data[0]] + data[1..] == st.buf + data;
      } else {
        EscapeHasNoFend(data[1..]);
        IgnoredOutside(d, Resync(st), rest);
      }
    }
  }

  /** Whatever the decoders read as escaped, within the cap, adds what it stands
      for to the frame. */
  lemma {:induction false} DecodersUnescape(d: Dialect, st: Decoder, wire: seq<byte>)
    requires WellEscaped(wire) && st.inFrame && !st.escaped && |st.buf| + |Unescape(wire)| <= 512
    ensures BulkFold(d, st, wire) == ByteFold(d, st, wire) == st.(buf := st.buf + Unescape(wire))
    decreases |wire|
  {
    if wire == [] {
      assert st.buf + Unescape(wire) == st.buf;
    } else if wire[0] == 0xDB {
      assert EscapedAt(wire, 0);
      var b: byte := if wire[1] == 0xDC then 0xC0 else 0xDB;
      var next := st.(buf := st.buf + [b]);
      WellEscapedRest(wire, 2);
      assert wire[1..][1..] == wire[2..];
      assert st.buf + Unescape(wire) == next.buf + Unescape(wire[2..]);
      EscapePair(d, st, wire[1], b);
      DecodersUnescape(d, next, wire[2..]);
    } else {
      var next := st.(buf := st.buf + [wire[0]]);
      assert EscapedAt(wire, 0);
      WellEscapedRest(wire, 1);
      assert st.buf + Unescape(wire) == next.buf + Unescape(wire[1..]);
      DecodersUnescape(d, next, wire[1..]);
    }
  }

  lemma EscapePair(d: Dialect, st: Decoder, code: byte, b: byte)
    requires st.inFrame && !st.escaped && |st.buf| < 512
    requires (code == 0xDC && b == 0xC0) || (code == 0xDD && b == 0xDB)
    ensures BulkStep(d, BulkStep(d, st, 0xDB), code) == ByteStep(d, ByteStep(d, st, 0xDB), code) ==
            st.(buf := st.buf + [b])
  {}

  /** A fresh decoder makes of the bytes between two `C0` what they stand for:
      a frame of one to 512 bytes, or of two to 512 for the serial driver. */
  lemma WireFrameDecodes(d: Dialect, wire: seq<byte>)
    requires WellEscaped(wire) && |Unescape(wire)| <= 512
    ensures var frames := BulkFold(d, INITIAL, [0xC0] + wire + [0xC0]).frames;
            if |Unescape(wire)| >= (if d.Modem? then 1 else 2) then frames == [Unescape(wire)] else frames == []
  {
    hide BulkFold, Unescape, WellEscaped;
    var unescaped := Unescape(wire);
    var start := Decoder([], true, false, [], 0);
    BulkFoldAppend(d, INITIAL, [0xC0] + wire, [0xC0]);
    BulkFoldAppend(d, INITIAL, [0xC0], wire);
    OneByte(d, INITIAL, 0xC0);
    assert BulkStep(d, INITIAL, 0xC0) == start;
    DecodersUnescape(d, start, wire);
    assert [] + unescaped == unescaped;
    OneByte(d, start.(buf := unescaped), 0xC0);
    assert Completed(d, start.(buf := unescaped)) == if |unescaped| >= d.MinFrame() then [unescaped] else [];
  }

  /** The state right behind an encoded frame. */
  function Behind(d: Dialect, frames: seq<seq<byte>>, errors: nat, m: Message): Decoder {
    Decoder([], true, false,
            frames + (if Deliverable(d, m) then [m.Contents()] else []),
            errors + (if Fits(d, 1, m.data) then 0 else 1))
  }

  /** The body of a frame, from just behind its opening FEND. */
  lemma BodyDecodes(d: Dialect, frames: seq<seq<byte>>, errors: nat, m: Message)
    requires !Special(m.cmd)
    ensures BulkFold(d, Decoder([], true, false, frames, errors), [m.cmd] + Escape(m.data) + [FEND]) ==
            Behind(d, frames, errors, m)
  {
    hide Escape;
    var start := Decoder([], true, false, frames, errors);
    var held := start.(buf := [m.cmd]);
    var e := Escape(m.data);
    BulkFoldAppend(d, start, [m.cmd] + e, [FEND]);
    BulkFoldAppend(d, start, [m.cmd], e);
    OneByte(d, start, m.cmd);
    EscapeFolds(d, held, m.data);
    OneByte(d, BulkFold(d, held, e), FEND);
    assert [] + [m.cmd] == [m.cmd];
    assert frames + [] == frames;
  }

  lemma OneByte(d: Dialect, st: Decoder, b: byte)
    ensures BulkFold(d, st, [b]) == BulkStep(d, st, b)
  {
    assert [b][1..] == [];
    FoldEnd(d, BulkStep(d, st, b));
  }

  /** From any state without a pending escape an encoded frame first completes
      what was in the buffer, then arrives whole. */
  lemma FrameDecodes(d: Dialect, st: Decoder, m: Message)
    requires !Special(m.cmd) && !st.escaped
    ensures BulkFold(d, st, Encode(m.cmd, m.data)) ==
            Behind(d, st.frames + Completed(d, st), st.errors, m)
  {
    hide Escape;
    var body := [m.cmd] + Escape(m.data) + [FEND];
    assert Encode(m.cmd, m.data) == [FEND] + body;
    BulkFoldAppend(d, st, [FEND], body);
    OneByte(d, st, FEND);
    BodyDecodes(d, st.frames + Completed(d, st), st.errors, m);
  }

  /** With an escape pending the bulk decoder spends the frame on resyncing. */
  lemma FrameResyncs(d: Dialect, st: Decoder, m: Message)
    requires !Special(m.cmd) && st.escaped
    ensures BulkFold(d, st, Encode(m.cmd, m.data)) ==
            Decoder([], true, false, st.frames, st.errors + 1)
  {
    hide Escape;
    var e := Escape(m.data);
    var inner := [m.cmd] + e;
    assert Encode(m.cmd, m.data) == [FEND] + (inner + [FEND]);
    BulkFoldAppend(d, st, [FEND], inner + [FEND]);
    OneByte(d, st, FEND);
    BulkFoldAppend(d, Resync(st), inner, [FEND]);
    EscapeHasNoFend(m.data);
    IgnoredOutside(d, Resync(st), inner);
    OneByte(d, Resync(st), FEND);
    assert st.frames + [] == st.frames;
  }

  /** The decoder behind a stream of encoded frames, from a state with an
      empty buffer: exactly the deliverable ones, in order, and one error for
      each that exceeds the cap. */
  lemma {:induction false} FramesDecode(d: Dialect, st: Decoder, ms: seq<Message>)
    requires RawCommands(ms) && !st.escaped && Completed(d, st) == []
    ensures var r := BulkFold(d, st, EncodeAll(ms));
            && r.frames == st.frames + Delivered(d, ms)
            && r.errors == st.errors + Oversized(d, ms)
            && !r.escaped && Completed(d, r) == []
    decreases |ms|
  {
    hide Encode, Deliverable, Fits, BulkFold;
    if ms == [] {
      assert EncodeAll(ms) == [];
      FoldEnd(d, st);
    } else {
      var first := Encode(ms[0].cmd, ms[0].data);
      var next := BulkFold(d, st, first);
      BulkFoldAppend(d, st, first, EncodeAll(ms[1..]));
      FrameDecodes(d, st, ms[0]);
      assert st.frames + [] == st.frames;
      FramesDecode(d, next, ms[1..]);
      AppendAssoc(st.frames, if Deliverable(d, ms[0]) then [ms[0].Contents()] else [], Delivered(d, ms[1..]));
    }
  }

  /** Round trip and resynchronisation in one statement, for every starting
      state, list of frames and chunking.  A pending escape costs the first
      frame and one error; otherwise a buffered frame is completed first and
      nothing is lost. */
  lemma StreamDecodes(d: Dialect, st: Decoder, ms: seq<Message>, chunks: seq<seq<byte>>)
    requires RawCommands(ms) && ms != [] && Concat(chunks) == EncodeAll(ms)
    ensures var r := DecodeChunks(d, st, chunks);
            if st.escaped then
              && r.frames == st.frames + Delivered(d, ms[1..])
              && r.errors == st.errors + 1 + Oversized(d, ms[1..])
            else
              && r.frames == st.frames + Completed(d, st) + Delivered(d, ms)
              && r.errors == st.errors + Oversized(d, ms)
  {
    hide Encode, Deliverable, Fits, BulkFold, DecodeChunks, Concat;
    ChunkIndependence(d, st, chunks);
    var first := Encode(ms[0].cmd, ms[0].data);
    BulkFoldAppend(d, st, first, EncodeAll(ms[1..]));
    if st.escaped {
      FrameResyncs(d, st, ms[0]);
    } else {
      FrameDecodes(d, st, ms[0]);
    }
    FramesDecode(d, BulkFold(d, st, first), ms[1..]);
    AppendAssoc(st.frames + Completed(d, st), if Deliverable(d, ms[0]) then [ms[0].Contents()] else [],
                Delivered(d, ms[1..]));
  }

  lemma {:induction false} AllDelivered(d: Dialect, ms: seq<Message>)
    requires forall m <- ms :: |m.data| <= 511 && |m.data| + 1 >= d.MinFrame()
    ensures Delivered(d, ms) == seq(|ms|, i requires 0 <= i < |ms| => ms[i].Contents())
    ensures Oversized(d, ms) == 0
    decreases |ms|
  {
    if ms != [] {
      assert ms[0] in ms;
      AllDelivered(d, ms[1..]);
    }
  }

  /** One frame returns through a fresh decoder exactly when its command byte is
      not a delimiter, its data fits and, for serial, it has data. */
  lemma FrameReturnsIff(d: Dialect, m: Message)
    ensures BulkFold(d, INITIAL, Encode(m.cmd, m.data)).frames == [m.Contents()] <==>
            !Special(m.cmd) && Deliverable(d, m)
  {
    hide Deliverable, Fits, BulkFold;
    if !Special(m.cmd) {
      FrameDecodes(d, INITIAL, m);
      assert [] + [m.Contents()] == [m.Contents()];
    } else if m.cmd == FEND {
      FendCommand(d, m.data);
    } else {
      FescCommand(d, m.data);
    }
  }

  lemma FendCommand(d: Dialect, data: seq<byte>)
    ensures BulkFold(d, INITIAL, Encode(FEND, data)).frames != [[FEND] + data]
  {
    hide Escape, Fits;
    var start := Decoder([], true, false, [], 0);
    var e := Escape(data);
    assert Encode(FEND, data) == [FEND] + ([FEND] + (e + [FEND]));
    BulkFoldAppend(d, INITIAL, [FEND], [FEND] + (e + [FEND]));
    OneByte(d, INITIAL, FEND);
    BulkFoldAppend(d, start, [FEND], e + [FEND]);
    OneByte(d, start, FEND);
    BulkFoldAppend(d, start, e, [FEND]);
    EscapeFolds(d, start, data);
    OneByte(d, BulkFold(d, start, e), FEND);
    assert [[FEND] + data][0] != data;
  }

  lemma FescCommand(d: Dialect, data: seq<byte>)
    ensures BulkFold(d, INITIAL, Encode(FESC, data)).frames != [[FESC] + data]
  {
    hide Fits;
    var start := Decoder([], true, false, [], 0);
    var pending := start.(escaped := true);
    var e := Escape(data);
    assert Encode(FESC, data) == [FEND] + ([FESC] + (e + [FEND]));
    BulkFoldAppend(d, INITIAL, [FEND], [FESC] + (e + [FEND]));
    OneByte(d, INITIAL, FEND);
    BulkFoldAppend(d, start, [FESC], e + [FEND]);
    OneByte(d, start, FESC);
    BulkFoldAppend(d, pending, e, [FEND]);
    if data == [] {
      assert e == [];
      FoldEnd(d, pending);
      OneByte(d, pending, FEND);
    } else {
      PendingEscapeFolds(d, pending, data);
      OneByte(d, BulkFold(d, pending, e), FEND);
      assert [[FESC] + data][0] == [FESC] + data;
    }
  }

  /** Escaped data read under a pending escape never fills the buffer with as
      many bytes as the data has, plus one. */
  lemma PendingEscapeFolds(d: Dialect, st: Decoder, data: seq<byte>)
    requires st == Decoder([], true, true, [], 0) && data != []
    ensures var r := BulkFold(d, st, Escape(data));
            r.frames == [] && !r.escaped && (r.inFrame ==> |r.buf| == |data|)
  {
    hide Fits, BulkFold;
    var e, rest := EscapeByte(data[0]), Escape(data[1..]);
    EscapeHasNoFend(data[1..]);
    var after := BulkStep(d, st, e[0]);
    assert e == [e[0]] + e[1..];
    AppendAssoc([e[0]], e[1..], rest);
    BulkFoldAppend(d, st, [e[0]], e[1..] + rest);
    OneByte(d, st, e[0]);
    if after.inFrame {
      assert e[1..] + rest == rest;
      EscapeFolds(d, after, data[1..]);
    } else {
      IgnoredOutside(d, after, e[1..] + rest);
    }
  }

  /** The serial driver accepts up to 512 data bytes to send.  What it accepts
      reaches a fresh peer on the same port exactly when the port is not 12 and
      the data is neither empty nor of the full 512 bytes. */
  lemma SerialSendReachesIff(port: nat, data: seq<byte>)
    requires port < 16 && |data| <= MAX_FRAME_SIZE
    ensures var cmd := SerialCommand(port, 0);
            BulkFold(Serial, INITIAL, Encode(cmd, data)).frames == [[cmd] + data] <==>
            port != 12 && 1 <= |data| <= 511
  {
    hide BulkFold, Encode;
    var m := Message(SerialCommand(port, 0), data);
    FrameReturnsIff(Serial, m);
    SerialCommandCollides(port, 0);
    if |data| == 512 { assert !Takes(Serial, 1 + 511, data[511]); }
  }

  /** Encoded streams split no escape, and end where the next may begin. */
  lemma {:induction false} EncodedStreamsAreClean(ms: seq<Message>)
    requires RawCommands(ms)
    ensures NoSplitEscape(false, EncodeAll(ms))
    ensures ms != [] ==> EncodeAll(ms)[0] == FEND && EncodeAll(ms)[|EncodeAll(ms)| - 1] == FEND
    decreases |ms|
  {
    if ms != [] {
      hide Escape;
      assert ms[0] in ms;
      assert RawCommands(ms[1..]);
      var e, rest := Escape(ms[0].data), EncodeAll(ms[1..]);
      EncodedStreamsAreClean(ms[1..]);
      EscapedIsClean(ms[0].data);
      var first := Encode(ms[0].cmd, ms[0].data);
      assert first == [FEND, ms[0].cmd] + (e + [FEND]);
      EndsPlain(e);
      JoinClean([FEND, ms[0].cmd], e + [FEND]);
      JoinClean(first, rest);
    }
  }

  /** On everything the encoder produces, from every state without a pending
      escape, the two decoders agree after every prefix. */
  lemma DecodersAgreeOnEncoded(d: Dialect, st: Decoder, ms: seq<Message>)
    requires RawCommands(ms) && !st.escaped
    ensures forall n :: 0 <= n <= |EncodeAll(ms)| ==> AgreeAfter(d, st, EncodeAll(ms), n)
  {
    hide AgreeAfter, EncodeAll;
    EncodedStreamsAreClean(ms);
    NoSplitEscapeIsClean(d, st, EncodeAll(ms));
    DecodersAgreeIffClean(d, st, EncodeAll(ms));
  }

  /** Streams that do not end in FESC can be joined. */
  lemma JoinClean(a: seq<byte>, b: seq<byte>)
    requires NoSplitEscape(false, a) && NoSplitEscape(false, b) && a != [] && a[|a| - 1] != FESC
    ensures NoSplitEscape(false, a + b)
  {}

  lemma EndsPlain(e: seq<byte>)
    requires NoSplitEscape(false, e) && (e != [] ==> e[|e| - 1] != FESC)
    ensures NoSplitEscape(false, e + [FEND])
  {}

  lemma {:induction false} EscapedIsClean(data: seq<byte>)
    ensures NoSplitEscape(false, Escape(data))
    ensures Escape(data) != [] ==> Escape(data)[|Escape(data)| - 1] != FESC
    decreases |data|
  {
    if data != [] {
      EscapedIsClean(data[1..]);
      JoinClean(EscapeByte(data[0]), Escape(data[1..]));
    }
  }
}
