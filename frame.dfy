/** Message framing (send_msg, get_msg): every message travels as a 4-byte
    big-endian length followed by that many body bytes (section 3 of
    draft-ietf-secsh-filexfer-02), and both directions refuse bodies longer
    than MaxMsgLength. This module works on the raw byte streams; the
    transport in module Client works one frame at a time. */
module Frame {
  import opened Wire

  /** put_u32: the big-endian encoding of a 32-bit word. */
  function PutU32(n: u32): (b: Bytes)
    ensures |b| == 4
  {
    [n / 0x100_0000, (n / 0x1_0000) % 0x100, (n / 0x100) % 0x100, n % 0x100]
  }

  /** buffer_get_int on exactly four bytes. */
  function GetU32(b: Bytes): u32
    requires |b| == 4
  {
    (b[0] as int) * 0x100_0000 + (b[1] as int) * 0x1_0000 + (b[2] as int) * 0x100 + b[3] as int
  }

  lemma GetPut(n: u32)
    ensures GetU32(PutU32(n)) == n
  {
    var hi, lo := n / 0x1_0000, n % 0x1_0000;
    assert n == hi * 0x1_0000 + lo;
    assert hi == (hi / 0x100) * 0x100 + hi % 0x100;
    assert lo == (lo / 0x100) * 0x100 + lo % 0x100;
    assert n / 0x100_0000 == hi / 0x100;
    assert (n / 0x100) % 0x100 == lo / 0x100;
    assert n % 0x100 == lo % 0x100;
  }

  lemma PutGet(b: Bytes)
    requires |b| == 4
    ensures PutU32(GetU32(b)) == b
  {
    var n := GetU32(b);
    var b0, b1, b2, b3 := b[0] as int, b[1] as int, b[2] as int, b[3] as int;
    var hi := b0 * 0x100 + b1;
    var mid := hi * 0x100 + b2;
    DivModOf(n, b0, b1 * 0x1_0000 + b2 * 0x100 + b3, 0x100_0000);
    DivModOf(n, hi, b2 * 0x100 + b3, 0x1_0000);
    DivModOf(hi, b0, b1, 0x100);
    DivModOf(n, mid, b3, 0x100);
    DivModOf(mid, hi, b2, 0x100);
  }

  /** What send_msg does with a body: refuse it (fatal) or emit its frame. */
  datatype Sent = Refused | Emitted(wire: Bytes)

  function SendFrame(body: Bytes): (r: Sent)
    ensures r.Refused? <==> |body| > MaxMsgLength
    ensures r.Emitted? ==> |r.wire| == 4 + |body| && GetU32(r.wire[..4]) == |body| && r.wire[4..] == body
  {
    if |body| > MaxMsgLength then Refused
    else
      GetPut(|body|);
      Emitted(PutU32(|body|) + body)
  }

  /** What get_msg makes of the input stream: a short read of the header
      or of the body (get_msg returns -1), a declared length over the
      maximum (fatal), or one whole message and the rest of the stream. */
  datatype Received =
    | HeaderShort
    | Oversized(declared: u32)
    | BodyShort(declared: u32)
    | Message(body: Bytes, rest: Bytes)

  function ReceiveFrame(stream: Bytes): (r: Received)
    ensures r.HeaderShort? <==> |stream| < 4
    ensures r.Oversized? ==> |stream| >= 4 && r.declared == GetU32(stream[..4]) && r.declared > MaxMsgLength
    ensures r.BodyShort? ==> |stream| >= 4 && r.declared == GetU32(stream[..4])
                             && r.declared <= MaxMsgLength && |stream| < 4 + r.declared
    ensures r.Message? ==> |r.body| <= MaxMsgLength && stream == PutU32(|r.body|) + r.body + r.rest
  {
    if |stream| < 4 then HeaderShort
    else
      var n := GetU32(stream[..4]);
      if n > MaxMsgLength then Oversized(n)
      else if |stream| < 4 + n then BodyShort(n)
      else
        PutGet(stream[..4]);
        assert stream == stream[..4] + stream[4..4 + n] + stream[4 + n..];
        Message(stream[4..4 + n], stream[4 + n..])
  }

  /** A frame that send_msg emits is read back whole by get_msg, whatever
      follows it on the stream. */
  lemma {:induction false} RoundTrip(body: Bytes, rest: Bytes)
    requires |body| <= MaxMsgLength
    ensures SendFrame(body).Emitted?
    ensures ReceiveFrame(SendFrame(body).wire + rest) == Message(body, rest)
  {
    var w := SendFrame(body).wire;
    var s := w + rest;
    assert s[..4] == PutU32(|body|);
    GetPut(|body|);
    assert s[4..4 + |body|] == body;
    assert s[4 + |body|..] == rest;
  }

  /** A stream that stops anywhere inside an emitted frame is a short read:
      of the header when fewer than four bytes arrived, else of the body. */
  lemma {:induction false} CutFrame(body: Bytes, k: nat)
    requires |body| <= MaxMsgLength
    requires k < 4 + |body|
    ensures SendFrame(body).Emitted?
    ensures var r := ReceiveFrame(SendFrame(body).wire[..k]);
            if k < 4 then r == HeaderShort else r == BodyShort(|body|)
  {
    var w := SendFrame(body).wire;
    if k >= 4 {
      assert w[..k][..4] == w[..4];
    }
  }

  /** A header declaring more than the maximum is fatal before any body
      byte is read. */
  lemma {:induction false} OversizedHeader(n: u32, rest: Bytes)
    requires n > MaxMsgLength
    ensures ReceiveFrame(PutU32(n) + rest) == Oversized(n)
  {
    assert (PutU32(n) + rest)[..4] == PutU32(n);
    GetPut(n);
  }
}
