/** How the KISS modem host sorts a decoded frame: the type byte carries a port
    and a command, SetHardware frames carry a sub-command. */
module ModemFrames {
  import opened Bytes
  import opened Options

  const CMD_DATA: byte := 0x00
  const CMD_SETHARDWARE: byte := 0x06
  const RESP_OK: byte := 0xF0
  const RESP_ERROR: byte := 0xF1
  const RESP_TX_DONE: byte := 0xF8
  const RESP_RX_META: byte := 0xF9
  const RESP_SIGNAL_REPORT: byte := 0x9A
  const ERR_TX_BUSY: byte := 0x07

  /** A SetHardware reply as a command caller sees it. */
  datatype Response = Response(sub: byte, payload: seq<byte>)

  datatype Routed =
    | Ignored
    | Data(payload: seq<byte>)
    | RxMeta(meta: seq<byte>)
    | TxDone(status: Option<byte>)
    | TxBusy
    | Reply(response: Response)

  function Route(frame: seq<byte>): Routed {
    if |frame| < 1 || frame[0] / 16 != 0 then Ignored
    else if frame[0] % 16 == CMD_DATA then Data(frame[1..])
    else if frame[0] % 16 == CMD_SETHARDWARE && |frame| >= 2 then RouteHardware(frame[1], frame[2..])
    else Ignored
  }

  function RouteHardware(sub: byte, payload: seq<byte>): Routed {
    if sub == RESP_RX_META then RxMeta(payload)
    else if sub == RESP_TX_DONE then TxDone(if |payload| >= 1 then Some(payload[0]) else None)
    else if sub == RESP_ERROR && |payload| >= 1 && payload[0] == ERR_TX_BUSY then TxBusy
    else Reply(Response(sub, payload))
  }

  /** Never a TX_DONE, an RX_META or a TX_BUSY error. */
  predicate Solicited(r: Response) {
    && r.sub != RESP_TX_DONE
    && r.sub != RESP_RX_META
    && !(r.sub == RESP_ERROR && |r.payload| >= 1 && r.payload[0] == ERR_TX_BUSY)
  }

  /** Each kind of frame, by its bytes: data is 0x00, metrics are 06 F9, a
      finished transmission is 06 F8, a busy modem is 06 F1 07, and any other
      frame with 06 in front of a code is a reply; nothing else is handled. */
  lemma RouteIff(frame: seq<byte>, bytes: seq<byte>, code: byte)
    ensures Route(frame) == Data(bytes) <==> frame == [0x00] + bytes
    ensures Route(frame) == RxMeta(bytes) <==> frame == [0x06, 0xF9] + bytes
    ensures Route(frame) == TxDone(Some(code)) <==> [0x06, 0xF8, code] <= frame
    ensures Route(frame) == TxDone(None) <==> frame == [0x06, 0xF8]
    ensures Route(frame) == TxBusy <==> [0x06, 0xF1, 0x07] <= frame
    ensures Route(frame) == Reply(Response(code, bytes)) <==>
            && frame == [0x06, code] + bytes && code != 0xF8 && code != 0xF9
            && !([0x06, 0xF1, 0x07] <= frame)
  {
    if frame != [] {
      TypeByte(frame[0]);
      assert frame == [frame[0]] + frame[1..];
      if |frame| >= 2 { assert frame == [frame[0], frame[1]] + frame[2..]; }
    }
    assert ([0x00] + bytes)[1..] == bytes && ([0x06, code] + bytes)[2..] == bytes;
    assert ([0x06, 0xF9] + bytes)[2..] == bytes;
  }

  lemma TypeByte(b: byte)
    ensures b / 16 == 0 && b % 16 == 0 <==> b == 0
    ensures b / 16 == 0 && b % 16 == 6 <==> b == 6
  {}
}
