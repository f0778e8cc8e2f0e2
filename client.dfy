/** The connection record (struct sftp_conn) and the transport it owns.
    The two file descriptors become one Streams object: the requests
    written so far, and the frames still to be read. */
module Client {
  import opened Wire
  import opened Correlate
  import opened Extensions

  /** The byte streams of one SFTP session, one frame at a time. */
  class Streams {
    /** Every request written to the output stream, oldest first. */
    var sent: seq<Packet>
    /** The frames the server has still to deliver, in arrival order. */
    var inbox: seq<Incoming>

    constructor (inbox: seq<Incoming>)
      ensures sent == [] && this.inbox == inbox
    {
      sent := [];
      this.inbox := inbox;
    }

    /** send_msg: a body over the maximum is fatal (ok == false), anything
        else is written as one frame. */
    method SendMsg(p: Packet) returns (ok: bool)
      modifies this
      ensures ok == Fits(p)
      ensures sent == old(sent) + (if ok then [p] else [])
      ensures inbox == old(inbox)
    {
      ok := Fits(p);
      if ok {
        sent := sent + [p];
      }
    }

    /** get_msg: reads one frame. */
    method GetMsg() returns (m: MsgRead)
      modifies this
      ensures m == ReadMsg(old(inbox))
      ensures inbox == Rest(old(inbox)) && sent == old(sent)
    {
      m := ReadMsg(inbox);
      if inbox != [] {
        inbox := inbox[1..];
      }
    }

    method GetStatus(expected: u32) returns (r: Outcome<u32>)
      modifies this
      ensures r == StatusOf(ReadMsg(old(inbox)), expected)
      ensures inbox == Rest(old(inbox)) && sent == old(sent)
    {
      var m := GetMsg();
      r := StatusOf(m, expected);
    }

    method GetHandle(expected: u32) returns (r: Outcome<Option<Bytes>>)
      modifies this
      ensures r == HandleOf(ReadMsg(old(inbox)), expected)
      ensures inbox == Rest(old(inbox)) && sent == old(sent)
    {
      var m := GetMsg();
      r := HandleOf(m, expected);
    }

    method GetDecodeStat(expected: u32) returns (r: Outcome<Option<Attrib>>)
      modifies this
      ensures r == AttrsOf(ReadMsg(old(inbox)), expected)
      ensures inbox == Rest(old(inbox)) && sent == old(sent)
    {
      var m := GetMsg();
      r := AttrsOf(m, expected);
    }

    method GetDecodeStatvfs(expected: u32) returns (r: Outcome<Option<StatVfs>>)
      modifies this
      ensures r == StatVfsOf(ReadMsg(old(inbox)), expected)
      ensures inbox == Rest(old(inbox)) && sent == old(sent)
    {
      var m := GetMsg();
      r := StatVfsOf(m, expected);
    }
  }

  /** One round trip: `p` was written (unless send_msg refused it) and one
      frame was read. */
  twostate predicate Exchanged(io: Streams, p: Packet)
    reads io
  {
    if Fits(p) then io.sent == old(io.sent) + [p] && io.inbox == Rest(old(io.inbox))
    else io.sent == old(io.sent) && io.inbox == old(io.inbox)
  }

  /** The result of a round trip whose reply reader gives `reply`. */
  function Exchange<T>(p: Packet, reply: Outcome<T>): (r: Outcome<T>)
    ensures !Fits(p) ==> r == Fatal(OutboundTooLong)
    ensures Fits(p) ==> r == reply
  {
    if Fits(p) then reply else Fatal(OutboundTooLong)
  }

  /** Requests that carry consecutive ids from `first` on, wrapping as a
      `u_int` does. */
  ghost predicate Sequential(ps: seq<Packet>, first: u32) {
    forall k :: 0 <= k < |ps| ==> IdOf(ps[k]) == Add32(first, k)
  }

  lemma AddAdd(x: u32, a: nat, b: nat)
    ensures Add32(Add32(x, a), b) == Add32(x, a + b)
  {
    var q := (x + a) / TWO_32;
    assert x + a == q * TWO_32 + Add32(x, a);
    assert Add32(x, a) + b == (x + a + b) - q * TWO_32;
  }

  /** Two runs of consecutive ids, the second starting where the first
      stopped, form one run: ids from operations done one after the other
      never repeat within 2^32 requests. */
  lemma SequentialAppend(a: seq<Packet>, b: seq<Packet>, first: u32)
    requires Sequential(a, first) && Sequential(b, Add32(first, |a|))
    ensures Sequential(a + b, first)
  {
    forall k | |a| <= k < |a| + |b|
      ensures IdOf((a + b)[k]) == Add32(first, k)
    {
      AddAdd(first, |a|, k - |a|);
    }
  }

  lemma Inc32IsAdd(x: u32)
    ensures Inc32(x) == Add32(x, 1)
  {
  }

  /** The id after the n-th of a run is the (n+1)-th. */
  lemma AddNext(x: u32, n: nat)
    ensures Inc32(Add32(x, n)) == Add32(x, n + 1)
  {
    Inc32IsAdd(Add32(x, n));
    AddAdd(x, n, 1);
  }

  /** Appending a request that carries the next id of a run extends the
      run, and the id after it is the run's next one. */
  lemma {:induction false} NextRequestKeepsIds(sent: seq<Packet>, base: nat, first: u32, p: Packet)
    requires base <= |sent| && Sequential(sent[base..], first)
    requires IdOf(p) == Add32(first, |sent| - base)
    ensures Sequential((sent + [p])[base..], first)
    ensures Inc32(IdOf(p)) == Add32(first, |sent + [p]| - base)
  {
    var run := sent[base..];
    assert (sent + [p])[base..] == run + [p];
    assert Sequential([p], Add32(first, |run|)) by {
      assert Add32(Add32(first, |run|), 0) == Add32(first, |run|);
    }
    SequentialAppend(run, [p], first);
    Inc32IsAdd(IdOf(p));
    AddAdd(first, |run|, 1);
  }

  /** The connection record. Only msg_id changes after do_init. */
  class Conn {
    const io: Streams
    const transferBuflen: u32
    const numRequests: u32
    const version: u32
    const exts: bv32
    var msgId: u32

    constructor (io: Streams, transferBuflen: u32, numRequests: u32, version: u32, exts: bv32)
      ensures this.io == io && this.transferBuflen == transferBuflen
      ensures this.numRequests == numRequests && this.version == version && this.exts == exts
      ensures msgId == 1
    {
      this.io := io;
      this.transferBuflen := transferBuflen;
      this.numRequests := numRequests;
      this.version := version;
      this.exts := exts;
      msgId := 1;
    }

    /** `id = conn->msg_id++` */
    method NextId() returns (id: u32)
      modifies this
      ensures id == old(msgId) && msgId == Inc32(old(msgId))
    {
      id := msgId;
      msgId := Inc32(msgId);
    }
  }

  /** The requests written since index `base` of the output log carry
      consecutive ids from `first` on, and msg_id is the next one. */
  ghost predicate IdsInStep(conn: Conn, base: nat, first: u32)
    reads conn, conn.io
  {
    && base <= |conn.io.sent|
    && Sequential(conn.io.sent[base..], first)
    && conn.msgId == Add32(first, |conn.io.sent| - base)
  }

  /** sftp_proto_version */
  function ProtoVersion(conn: Conn): u32 {
    conn.version
  }

  /** The version sftp_proto_version reports is the one the server
      announced in its VERSION reply, whatever the client offered. */
  lemma ProtoVersionNegotiated(c: Conn, io: Streams, v: Reply, transferBuflen: u32, numRequests: u32)
    requires v.Version? && Negotiated(c, io, v, transferBuflen, numRequests)
    ensures ProtoVersion(c) == v.version
  {
  }

  /** sftp_has_posix_rename: the server advertised posix-rename@openssh.com
      revision "1" (see Negotiated and Extensions.ExtsOfMatches). */
  function HasPosixRename(conn: Conn): (r: bool)
    ensures r <==> conn.exts & ExtPosixRename != 0
  {
    conn.exts & ExtPosixRename == ExtPosixRename
  }

  /** The INIT request: the type byte and the client's protocol version. */
  const InitPacket := Packet(FxpInit, [Int(ClientVersion)])

  /** The record do_init builds from the VERSION reply `v`. */
  ghost predicate Negotiated(c: Conn, io: Streams, v: Reply, transferBuflen: u32, numRequests: u32)
    requires v.Version?
    reads c
  {
    && c.io == io
    && c.version == v.version
    && c.exts == ExtsOf(v.extensions)
    && c.msgId == 1
    && c.numRequests == numRequests
    && c.transferBuflen == (if v.version == 0 then Min(transferBuflen, Version0Buflen) else transferBuflen)
  }

  /** One pass of the extension loop of do_init: the pair is compared with
      the table and its bit, if any, is or-ed into `exts`. */
  method AddPair(exts: bv32, p: ExtPair) returns (e: bv32)
    ensures e == exts | PairBits(p)
  {
    e := exts;
    if IsPosixRename(p) {
      e := e | ExtPosixRename;
    } else if IsStatvfs(p) {
      e := e | ExtStatvfs;
    }
    if IsFstatvfs(p) {
      e := e | ExtFstatvfs;
    }
  }

  /** The extension loop of do_init, over the advertised pairs in order. */
  method FoldExtensions(pairs: seq<ExtPair>) returns (exts: bv32)
    ensures exts == ExtsOf(pairs)
  {
    exts := 0;
    var i := 0;
    while i < |pairs|
      invariant 0 <= i <= |pairs|
      invariant exts == ExtsOf(pairs[..i])
    {
      var p := pairs[i];
      exts := AddPair(exts, p);
      ExtsOfPrefix(pairs, i);
      i := i + 1;
    }
    assert pairs[..i] == pairs;
  }

  /** do_init: send INIT, expect VERSION, fold the advertised extensions
      into `exts`. None stands for the source's NULL. */
  method DoInit(io: Streams, transferBuflen: u32, numRequests: u32) returns (r: Outcome<Option<Conn>>)
    modifies io
    ensures io.sent == old(io.sent) + [InitPacket]
    ensures io.inbox == Rest(old(io.inbox))
    ensures r.Fatal? <==> ReadMsg(old(io.inbox)).TooLong?
    ensures r.Done? && r.value.Some? <==> ReadMsg(old(io.inbox)).Got? && ReadMsg(old(io.inbox)).reply.Version?
    ensures r.Done? && r.value.Some? ==>
              fresh(r.value.value) && Negotiated(r.value.value, io, ReadMsg(old(io.inbox)).reply, transferBuflen, numRequests)
  {
    assert FieldsLen(InitPacket.fields) == 4 + FieldsLen(InitPacket.fields[1..]);
    assert InitPacket.fields[1..] == [];
    var ok := io.SendMsg(InitPacket);
    var m := io.GetMsg();
    if m.TooLong? {
      r := Fatal(InboundTooLong);
      return;
    }
    if m.ShortRead? || !m.reply.Version? {
      r := Done(None);
      return;
    }
    var exts := FoldExtensions(m.reply.extensions);
    var buflen := if m.reply.version == 0 then Min(transferBuflen, Version0Buflen) else transferBuflen;
    var c := new Conn(io, buflen, numRequests, m.reply.version, exts);
    r := Done(Some(c));
  }
}
