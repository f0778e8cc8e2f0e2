/** The upload engine (do_upload): after an OPEN that creates or truncates
    the remote file it reads the local file block by block and sends each
    block as a WRITE, keeping up to numRequests of them unacknowledged;
    every STATUS reply retires one outstanding WRITE. A local read that
    fails, a reply that is not a STATUS and an ack for no outstanding WRITE
    are fatal. */
module Upload {
  import opened Wire
  import opened Correlate
  import opened Client
  import opened Ops
  import opened Window

  /** SSH2_FXF_WRITE | SSH2_FXF_CREAT | SSH2_FXF_TRUNC: the three bits are
      distinct, so their sum is their union. */
  const UploadOpenFlags: u32 := FxfWrite + FxfCreat + FxfTrunc

  /** The largest off_t plus one: an offset that reaches it wraps negative. */
  const TWO_63: int := 0x8000_0000_0000_0000

  /** What one read() of the local file does: return the next bytes, fail
      with EINTR or EAGAIN (the source retries), or fail for good. */
  datatype Fault = Fine | Again | Failed

  /** The attributes do_upload sends with its OPEN: no size and no owner,
      only the permission bits of the mode, and the times only when the
      caller asked for them to be preserved. */
  function OpenAttrs(a: Attrib, pflag: bool): (b: Attrib)
    ensures b.flags & AttrSize == 0 && b.flags & AttrUidGid == 0
    ensures b.flags & AttrPermissions == a.flags & AttrPermissions
    ensures b.flags & !(AttrSize | AttrUidGid | AttrAcModTime) == a.flags & !(AttrSize | AttrUidGid | AttrAcModTime)
    ensures b.flags & AttrAcModTime != 0 <==> pflag && a.flags & AttrAcModTime != 0
    ensures b.perm == a.perm & PermMask
    ensures b.size == a.size && b.uid == a.uid && b.gid == a.gid && b.atime == a.atime && b.mtime == a.mtime
  {
    var f := a.flags & !AttrSize & !AttrUidGid;
    a.(flags := if pflag then f else f & !AttrAcModTime, perm := a.perm & PermMask)
  }

  /** The bytes of the local file that request `q` covers. */
  function Chunk(src: Bytes, q: Req): Bytes {
    if q.offset + q.len <= |src| then src[q.offset..q.offset + q.len] else []
  }

  /** The WRITE packet for an outstanding write. */
  function WriteOf(q: Req, handle: Bytes, src: Bytes): Packet {
    WriteRequest(q.id, handle, q.offset, Chunk(src, q))
  }

  /** The WRITE packets of a run of writes, in order. */
  function WritesOf(qs: seq<Req>, handle: Bytes, src: Bytes): (ps: seq<Packet>)
    ensures |ps| == |qs|
  {
    if qs == [] then [] else WritesOf(qs[..|qs| - 1], handle, src) + [WriteOf(qs[|qs| - 1], handle, src)]
  }

  lemma WritesOfExtend(qs: seq<Req>, q: Req, handle: Bytes, src: Bytes)
    ensures WritesOf(qs + [q], handle, src) == WritesOf(qs, handle, src) + [WriteOf(q, handle, src)]
  {
    assert (qs + [q])[..|qs|] == qs;
  }

  /** The payloads of a run of writes, one after the other. */
  function Carried(qs: seq<Req>, src: Bytes): Bytes {
    if qs == [] then [] else Carried(qs[..|qs| - 1], src) + Chunk(src, qs[|qs| - 1])
  }

  /** Writes that tile [0, end) carry exactly the first `end` bytes of the
      local file: read back in order, the remote file is the local one. */
  lemma {:induction false} CarriedIsPrefix(qs: seq<Req>, end: nat, src: Bytes)
    requires Tiles(qs, end) && end <= |src|
    ensures Carried(qs, src) == src[..end]
    decreases |qs|
  {
    if qs != [] {
      var init, last := qs[..|qs| - 1], qs[|qs| - 1];
      assert Tiles(init, last.offset) && end == last.offset + last.len;
      CarriedIsPrefix(init, last.offset, src);
      assert Carried(qs, src) == src[..last.offset] + src[last.offset..end];
      PrefixSplit(src, last.offset, end);
    }
  }

  lemma PrefixSplit(src: Bytes, i: nat, j: nat)
    requires i <= j <= |src|
    ensures src[..i] + src[i..j] == src[..j]
  {
    assert src[..j][..i] == src[..i] && src[..j][i..] == src[i..j];
  }

  /** The status the upload loop holds after the acks `codes`, in the
      order they arrived: each STATUS overwrites the one before. */
  function LastStatus(codes: seq<u32>): (s: u32)
    ensures codes == [] ==> s == FxOk
    ensures codes != [] ==> s in codes
  {
    if codes == [] then FxOk else codes[|codes| - 1]
  }

  /** Each ack replaces the status, whatever the earlier ones said. */
  lemma LastStatusOverwrites(codes: seq<u32>, c: u32)
    ensures LastStatus(codes + [c]) == c
  {
  }

  /** As written, a failed WRITE is forgotten when a later ack succeeds.
      With three blocks and numRequests >= 2 the acks arrive as OK (the
      first WRITE is awaited at once), FAILURE and then OK (both drained
      once the reads stop): the loop ends holding OK and do_upload returns
      0, although the second block never reached the remote file. */
  lemma LastStatusForgetsFailure()
    ensures var codes := [FxOk, FxFailure, FxOk];
            LastStatus(codes) == FxOk && FirstError(codes) == FxFailure
  {
    assert [FxOk, FxFailure, FxOk][1..] == [FxFailure, FxOk];
  }

  /** The status the upload evidently means to report: the first ack that
      was not OK, or OK when every ack was. */
  function FirstError(codes: seq<u32>): (s: u32)
    ensures s == FxOk <==> forall k :: 0 <= k < |codes| ==> codes[k] == FxOk
    ensures s != FxOk ==> s in codes
  {
    if codes == [] then FxOk
    else if codes[0] != FxOk then codes[0]
    else
      var s := FirstError(codes[1..]);
      assert forall k :: 1 <= k < |codes| ==> codes[k] == codes[1..][k - 1];
      s
  }

  /** Unlike LastStatus, the first error survives any later ack. */
  lemma {:induction false} FirstErrorSticks(codes: seq<u32>, more: seq<u32>)
    requires FirstError(codes) != FxOk
    ensures FirstError(codes + more) == FirstError(codes)
    decreases |codes|
  {
    if codes[0] == FxOk {
      assert (codes + more)[1..] == codes[1..] + more;
      FirstErrorSticks(codes[1..], more);
    }
  }

  /** How a read() of the local file ends, as the source's do-while sees
      it, starting at fault `k`: EINTR and EAGAIN are retried, and a
      source whose faults are used up reads fine. The result says whether
      the read failed and how many read() calls were used. */
  function Settle(faults: seq<Fault>, k: nat): (r: (bool, nat))
    ensures r.1 > k
    ensures r.0 ==> r.1 - 1 < |faults| && faults[r.1 - 1] == Failed
    ensures r.1 - 1 < |faults| ==> faults[r.1 - 1] != Again
    decreases |faults| - k
  {
    if k < |faults| && faults[k] == Again then Settle(faults, k + 1)
    else (k < |faults| && faults[k] == Failed, k + 1)
  }

  /** With `n` writes outstanding, the first of them `ackid` and the last
      `id`, the source's `id - ackid` is n - 1. */
  lemma WindowCount(ackid: u32, n: nat, id: u32)
    requires 1 <= n <= TWO_32
    requires Add32(ackid, n) == Inc32(id)
    ensures Sub32(id, ackid) == n - 1
  {
    Inc32IsAdd(id);
    var a, b := (ackid + n) / TWO_32, (id + 1) / TWO_32;
    var s := (ackid + n) % TWO_32;
    assert id + 1 == b * TWO_32 + s;
    assert ackid + n == a * TWO_32 + s;
    DivModOf(id - ackid, b - a, n - 1, TWO_32);
  }

  /** The code of the STATUS reply that frame `k` of `frames` carries,
      if that frame is a whole STATUS. */
  ghost function AckAt(frames: seq<Incoming>, k: nat): Option<u32> {
    var m := ReadMsg(if k <= |frames| then frames[k..] else []);
    if m.Got? && m.reply.Status? then Some(m.reply.code) else None
  }

  /** The first |codes| frames of `frames` are the STATUS replies that
      carried `codes`, in order. */
  ghost predicate Acked(frames: seq<Incoming>, codes: seq<u32>) {
    && |codes| <= |frames|
    && forall k :: 0 <= k < |codes| ==> AckAt(frames, k) == Some(codes[k])
  }

  /** Reading nothing, or reading the next frame as a STATUS and recording
      its code, keeps the codes those of the frames read so far. */
  lemma AckedStep(frames: seq<Incoming>, codes: seq<u32>, codes': seq<u32>, inbox': seq<Incoming>)
    requires Acked(frames, codes)
    requires var inbox := frames[|codes|..];
             || (inbox' == inbox && codes' == codes)
             || (AckAt(inbox, 0).Some? && inbox' == Rest(inbox) && codes' == codes + [AckAt(inbox, 0).value])
    ensures Acked(frames, codes') && inbox' == frames[|codes'|..]
  {
    var inbox := frames[|codes|..];
    if codes' != codes {
      assert inbox[0..] == inbox && ReadMsg(inbox).Got?;
      assert AckAt(frames, |codes|) == AckAt(inbox, 0);
    }
  }

  /** Why the ack test dies on the frame `m` while `acks` are
      outstanding, or None when the frame is a STATUS that retires one of
      them. */
  ghost function AckVerdict(m: MsgRead, acks: seq<Req>): (v: Option<FatalReason>)
    ensures v == Some(InboundTooLong) <==> m.TooLong?
    ensures v == Some(BufferUnderflow) <==> m.ShortRead?
    ensures m.Got? ==>
              && (v == Some(UnexpectedType) <==> !m.reply.Status?)
              && (v == Some(UnknownAck) <==> m.reply.Status? && forall j :: 0 <= j < |acks| ==> acks[j].id != m.reply.id)
              && (v.None? <==> m.reply.Status? && exists j :: 0 <= j < |acks| && acks[j].id == m.reply.id)
  {
    match m
    case TooLong(_) => Some(InboundTooLong)
    case ShortRead => Some(BufferUnderflow)
    case Got(reply) =>
      if !reply.Status? then Some(UnexpectedType)
      else if FirstMatch(acks, reply.id).None? then Some(UnknownAck)
      else None
  }

  /** The loop state of do_upload, its local variables: the status of the
      last ack, the offset of the next block, the id of the last WRITE, the
      id of the oldest unacknowledged one, the queue of outstanding writes,
      and how many read() calls were made (`calls`). */
  class Writer {
    const conn: Conn
    const handle: Bytes
    const src: Bytes
    const startid: u32
    var status: u32
    var offset: nat
    var id: u32
    var ackid: u32
    var acks: seq<Req>
    var calls: nat
    /** Every WRITE sent, in order. */
    ghost var issued: seq<Req>
    /** The code of every STATUS received, in order. */
    ghost var codes: seq<u32>

    ghost predicate Valid()
      reads this
    {
      && offset <= |src|
      && Tiles(issued, offset)
      && Consecutive(issued, startid)
      && Inc32(id) == Add32(startid, |issued|)
      && ackid == Add32(startid, |codes|)
      && |acks| + |codes| == |issued|
      && status == LastStatus(codes)
    }

    /** The state right after the OPEN that used id `openId`. */
    constructor (conn: Conn, handle: Bytes, src: Bytes, openId: u32)
      ensures this.conn == conn && this.handle == handle && this.src == src
      ensures startid == Inc32(openId) && id == openId && ackid == startid
      ensures status == FxOk && offset == 0 && acks == [] && calls == 0
      ensures issued == [] && codes == []
      ensures Valid()
    {
      this.conn := conn;
      this.handle := handle;
      this.src := src;
      startid := Inc32(openId);
      status, offset, id, ackid, acks, calls := FxOk, 0, openId, Inc32(openId), [], 0;
      issued, codes := [], [];
      Inc32IsAdd(openId);
    }

    /** One read() of the local file, retried on EINTR and EAGAIN: the
        next block, as long as the transfer length and the rest of the
        file allow, or a fatal failure. */
    method ReadLocal(faults: seq<Fault>) returns (r: Outcome<nat>)
      requires Valid()
      modifies this
      ensures Valid()
      ensures calls == Settle(faults, old(calls)).1
      ensures r.Fatal? <==> Settle(faults, old(calls)).0
      ensures r.Fatal? ==> r.reason == LocalReadFailed
      ensures r.Done? ==> r.value == Min(conn.transferBuflen, |src| - offset)
      ensures status == old(status) && offset == old(offset) && id == old(id) && ackid == old(ackid)
      ensures acks == old(acks) && issued == old(issued) && codes == old(codes)
    {
      var k := calls;
      while k < |faults| && faults[k] == Again
        invariant calls <= k
        invariant Settle(faults, k) == Settle(faults, calls)
        decreases |faults| - k
      {
        k := k + 1;
      }
      var failed := k < |faults| && faults[k] == Failed;
      calls := k + 1;
      if failed {
        return Fatal(LocalReadFailed);
      }
      r := Done(Min(conn.transferBuflen, |src| - offset));
    }

    /** A block of `len` bytes goes out as a WRITE under the next id and
        joins the queue. The source advances the offset after the ack
        test; nothing in between calls it, so it moves here. */
    method SendWrite(len: nat) returns (ok: bool)
      requires Valid()
      requires 0 < len <= |src| - offset && len <= conn.transferBuflen
      modifies this, conn.io
      ensures Valid()
      ensures var q := Req(Inc32(old(id)), len, old(offset));
              && issued == old(issued) + [q] && acks == old(acks) + [q]
              && (ok ==> conn.io.sent == old(conn.io.sent) + [WriteOf(q, handle, src)])
      ensures ok == Fits(WriteOf(Req(Inc32(old(id)), len, old(offset)), handle, src))
      ensures id == Inc32(old(id)) && offset == old(offset) + len && conn.io.inbox == old(conn.io.inbox)
      ensures status == old(status) && ackid == old(ackid) && codes == old(codes) && calls == old(calls)
    {
      var q := Req(Inc32(id), len, offset);
      ConsecutiveExtend(issued, q, startid);
      TilesExtend(issued, offset, q);
      id := q.id;
      acks := acks + [q];
      issued := issued + [q];
      offset := offset + len;
      ok := conn.io.SendMsg(WriteRequest(q.id, handle, q.offset, src[q.offset..q.offset + q.len]));
    }

    /** The ack test's reply: it must be a STATUS, and its id must be that
        of an outstanding write, which leaves the queue; its code becomes
        the loop's status. */
    method AwaitAck() returns (fatal: Option<FatalReason>, ghost i: nat)
      requires Valid() && acks != []
      modifies this, conn.io
      ensures conn.io.sent == old(conn.io.sent) && conn.io.inbox == Rest(old(conn.io.inbox))
      ensures fatal == AckVerdict(ReadMsg(old(conn.io.inbox)), old(acks))
      ensures var m := ReadMsg(old(conn.io.inbox));
              && (m.TooLong? ==> fatal == Some(InboundTooLong))
              && (m.ShortRead? ==> fatal == Some(BufferUnderflow))
              && (m.Got? && !m.reply.Status? ==> fatal == Some(UnexpectedType))
              && ((m.Got? && m.reply.Status? && forall j :: 0 <= j < |old(acks)| ==> old(acks)[j].id != m.reply.id)
                  ==> fatal == Some(UnknownAck))
              && ((m.Got? && m.reply.Status? && exists j :: 0 <= j < |old(acks)| && old(acks)[j].id == m.reply.id)
                  ==> fatal.None?)
              && (fatal.None? ==>
                    && m.Got? && m.reply.Status?
                    && i < |old(acks)| && old(acks)[i].id == m.reply.id
                    && (forall j :: 0 <= j < i ==> old(acks)[j].id != m.reply.id)
                    && acks == old(acks)[..i] + old(acks)[i + 1..]
                    && codes == old(codes) + [m.reply.code])
      ensures fatal.None? ==> Valid() && ackid == Inc32(old(ackid))
      ensures fatal.None? ==> offset == old(offset) && id == old(id) && issued == old(issued) && calls == old(calls)
    {
      i := 0;
      var m := conn.io.GetMsg();
      if m.TooLong? {
        return Some(InboundTooLong), i;
      }
      if m.ShortRead? {
        return Some(BufferUnderflow), i;
      }
      var reply := m.reply;
      if !reply.Status? {
        return Some(UnexpectedType), i;
      }
      status := reply.code;
      var k := FindRequest(acks, reply.id);
      if k.None? {
        return Some(UnknownAck), i;
      }
      var at := k.value;
      i := at;
      acks := acks[..at] + acks[at + 1..];
      ackid := Inc32(ackid);
      AddNext(startid, |codes|);
      codes := codes + [reply.code];
      fatal := None;
    }

    /** Why a pass with a block of `len` bytes dies when `m` is the next
        frame, or None: the block's WRITE does not fit, the ack test the
        pass makes fails, or the offset past the block reaches 2^63 and
        wraps negative. Only these end a pass fatally. */
    ghost function PassVerdict(len: nat, m: MsgRead): (v: Option<FatalReason>)
      requires len <= conn.transferBuflen
      reads this`id, this`offset, this`acks, this`ackid
      ensures v != Some(LocalReadFailed)
    {
      var q := Req(Inc32(id), len, offset);
      var last := if len > 0 then q.id else id;
      var queue := if len > 0 then acks + [q] else acks;
      var awaits := last == startid || len == 0 || Sub32(last, ackid) >= conn.numRequests;
      if len > 0 && !Fits(WriteOf(q, handle, src)) then Some(OutboundTooLong)
      else if awaits && AckVerdict(m, queue).Some? then AckVerdict(m, queue)
      else if offset + len >= TWO_63 then Some(OffsetOverflow)
      else None
    }

    /** One pass of the loop after the local read of `len` bytes: send
        them, if any, then read an ack after the first WRITE, once nothing
        was read, or while numRequests writes are outstanding, and check
        the offset for overflow. */
    method Pass(len: nat) returns (fatal: Option<FatalReason>)
      requires Valid() && |acks| <= conn.numRequests
      requires len <= |src| - offset && len <= conn.transferBuflen
      requires len == 0 ==> acks != []
      modifies this, conn.io
      ensures fatal == old(PassVerdict(len, ReadMsg(conn.io.inbox)))
      ensures fatal.None? ==> Valid() && |acks| <= conn.numRequests
      ensures fatal.None? && len > 0 ==>
                var q := Req(Inc32(old(id)), len, old(offset));
                issued == old(issued) + [q] && conn.io.sent == old(conn.io.sent) + [WriteOf(q, handle, src)]
      ensures fatal.None? && len == 0 ==> issued == old(issued) && conn.io.sent == old(conn.io.sent)
      ensures fatal.None? ==> offset == old(offset) + len && calls == old(calls)
      ensures var id' := if len > 0 then Inc32(old(id)) else old(id);
              var awaits := id' == startid || len == 0 || Sub32(id', old(ackid)) >= conn.numRequests;
              var ack := AckAt(old(conn.io.inbox), 0);
              fatal.None? ==>
                && (awaits ==> ack.Some? && conn.io.inbox == Rest(old(conn.io.inbox)) && codes == old(codes) + [ack.value])
                && (!awaits ==> conn.io.inbox == old(conn.io.inbox) && codes == old(codes))
      ensures fatal.None? ==> |src| - offset + |conn.io.inbox| < old(|src| - offset + |conn.io.inbox|)
    {
      if len != 0 {
        var ok := SendWrite(len);
        if !ok {
          return Some(OutboundTooLong);
        }
      }
      AddAdd(startid, |codes|, |acks|);
      WindowCount(ackid, |acks|, id);
      if id == startid || len == 0 || Sub32(id, ackid) >= conn.numRequests {
        ghost var i;
        ghost var inbox := conn.io.inbox;
        fatal, i := AwaitAck();
        if fatal.Some? {
          return;
        }
        assert inbox[0..] == inbox;
      }
      if offset >= TWO_63 {
        return Some(OffsetOverflow);
      }
      fatal := None;
    }

    /** The local read at the head of a pass: none when the loop was
        interrupted (`intr`) or the last ack failed, otherwise one
        read() of the next block, retried on EINTR and EAGAIN. */
    method Take(faults: seq<Fault>, intr: bool) returns (fatal: Option<FatalReason>, len: nat)
      requires Valid()
      modifies this
      ensures Valid()
      ensures var wants := !intr && old(status) == FxOk;
              && (fatal.Some? <==> wants && Settle(faults, old(calls)).0)
              && (fatal.Some? ==> fatal == Some(LocalReadFailed))
              && len == (if wants && fatal.None? then Min(conn.transferBuflen, |src| - old(offset)) else 0)
              && calls == (if wants then Settle(faults, old(calls)).1 else old(calls))
      ensures status == old(status) && offset == old(offset) && id == old(id) && ackid == old(ackid)
      ensures acks == old(acks) && issued == old(issued) && codes == old(codes)
    {
      len := 0;
      fatal := None;
      if !intr && status == FxOk {
        var got := ReadLocal(faults);
        if got.Fatal? {
          return Some(got.reason), len;
        }
        len := got.value;
      }
    }

    /** One pass of the read-write loop of do_upload: it reads a block
        unless the loop was interrupted (`sig` at poll `polls`) or the last
        ack failed, and ends the loop (`stop`) when nothing was read and
        nothing is outstanding; otherwise it hands the block to Pass. The
        WRITEs it sends extend the log of `base`. */
    method Step(faults: seq<Fault>, sig: Signal, polls: nat, ghost base: seq<Packet>)
      returns (fatal: Option<FatalReason>, stop: bool, intr: bool)
      requires Valid() && |acks| <= conn.numRequests
      requires conn.io.sent == base + WritesOf(issued, handle, src)
      modifies this, conn.io
      ensures intr == Interrupted(sig, polls)
      ensures var failed := !intr && old(status) == FxOk && Settle(faults, old(calls)).0;
              var len := if !intr && old(status) == FxOk then Min(conn.transferBuflen, |src| - old(offset)) else 0;
              && (failed ==> fatal == Some(LocalReadFailed))
              && (!failed && len == 0 && old(acks) == [] ==> fatal.None? && stop)
              && (!failed && (len > 0 || old(acks) != []) ==>
                    fatal == old(PassVerdict(len, ReadMsg(conn.io.inbox))) && !stop)
      ensures fatal.None? ==>
                && Valid() && |acks| <= conn.numRequests
                && conn.io.sent == base + WritesOf(issued, handle, src)
      ensures fatal.None? && (intr || old(status) != FxOk) ==>
                calls == old(calls) && offset == old(offset) && issued == old(issued)
      ensures fatal.None? && !intr && old(status) == FxOk ==>
                && calls == Settle(faults, old(calls)).1
                && offset == old(offset) + Min(conn.transferBuflen, |src| - old(offset))
      ensures fatal.None? ==>
                var ack := AckAt(old(conn.io.inbox), 0);
                || (conn.io.inbox == old(conn.io.inbox) && codes == old(codes))
                || (ack.Some? && conn.io.inbox == Rest(old(conn.io.inbox)) && codes == old(codes) + [ack.value])
      ensures fatal.None? && stop ==>
                && acks == [] && issued == old(issued) && codes == old(codes) && conn.io.inbox == old(conn.io.inbox)
                && (offset == |src| || intr || status != FxOk || conn.transferBuflen == 0)
      ensures fatal.None? && !stop ==>
                && |issued| + |codes| > old(|issued| + |codes|)
                && |src| - offset + |conn.io.inbox| < old(|src| - offset + |conn.io.inbox|)
    {
      intr := Interrupted(sig, polls);
      stop := false;
      var len;
      fatal, len := Take(faults, intr);
      if fatal.Some? {
        return;
      }
      if len == 0 && acks == [] {
        return None, true, intr;
      }
      if len > 0 {
        WritesOfExtend(issued, Req(Inc32(id), len, offset), handle, src);
      }
      fatal := Pass(len);
    }

    /** The read-write loop of do_upload: passes until one ends it or
        fails. Every pass but the last sends a WRITE or reads an ack, so
        the last test of the interrupt flag comes no later than poll
        |issued| + |codes|: unless the flag was set by then, the loop ends
        only at the end of the file, on a failed ack, or with a zero
        transfer length. */
    method Pump(faults: seq<Fault>, sig: Signal) returns (fatal: Option<FatalReason>)
      requires Valid() && acks == [] && issued == []
      modifies this, conn.io
      ensures fatal.None? ==>
                && Valid() && acks == []
                && conn.io.sent == old(conn.io.sent) + WritesOf(issued, handle, src)
                && Acked(old(conn.io.inbox), codes) && conn.io.inbox == old(conn.io.inbox)[|codes|..]
                && (offset == |src| || status != FxOk || conn.transferBuflen == 0
                    || Interrupted(sig, |issued| + |codes|))
    {
      ghost var base, frames := conn.io.sent, conn.io.inbox;
      var polls: nat := 0;
      fatal := None;
      assert frames[0..] == frames;
      while true
        invariant Valid() && |acks| <= conn.numRequests
        invariant conn.io.sent == base + WritesOf(issued, handle, src)
        invariant Acked(frames, codes) && conn.io.inbox == frames[|codes|..]
        invariant polls <= |issued| + |codes|
        invariant fatal.None?
        decreases |src| - offset + |conn.io.inbox|
      {
        ghost var codes0 := codes;
        var stop, intr;
        fatal, stop, intr := Step(faults, sig, polls, base);
        if fatal.Some? {
          break;
        }
        AckedStep(frames, codes0, codes, conn.io.inbox);
        if stop {
          break;
        }
        polls := polls + 1;
      }
    }
  }

  /** The requests do_upload sends after the loop, starting from id
      `next`: an FSETSTAT of the attributes when asked to preserve them,
      then the CLOSE. */
  function Trailer(pflag: bool, next: u32, handle: Bytes, a: Attrib): (ps: seq<Packet>)
    ensures |ps| == (if pflag then 2 else 1)
    ensures IdOf(ps[0]) == next && ps[|ps| - 1].kind == FxpClose
  {
    (if pflag then [Packet(FxpFsetstat, [Int(next), Blob(handle), Attr(a)])] else [])
    + [HandleRequest(FxpClose, if pflag then Inc32(next) else next, handle)]
  }

  /** The end of do_upload: the optional FSETSTAT, whose answer is only
      logged, and the CLOSE. The result is -1 when the loop ended on a
      failed ack (`failed`) or the CLOSE did not answer OK, 0 otherwise. */
  method Finish(conn: Conn, handle: Bytes, a: Attrib, pflag: bool, failed: bool)
    returns (r: Outcome<int>, ghost closeStatus: int)
    modifies conn, conn.io
    ensures r.Done? ==> conn.io.sent == old(conn.io.sent) + Trailer(pflag, old(conn.msgId), handle, a)
    ensures r.Done? ==>
              var closing := if pflag then Rest(old(conn.io.inbox)) else old(conn.io.inbox);
              && (pflag ==> StatusOf(ReadMsg(old(conn.io.inbox)), old(conn.msgId)).Done?)
              && AsInt(StatusOf(ReadMsg(closing), if pflag then Inc32(old(conn.msgId)) else old(conn.msgId)))
                 == Done(closeStatus)
              && conn.io.inbox == Rest(closing)
    ensures r.Done? ==> conn.msgId == if pflag then Inc32(Inc32(old(conn.msgId))) else Inc32(old(conn.msgId))
    ensures r.Done? ==> r.value == (if failed || closeStatus != FxOk then -1 else 0)
  {
    closeStatus := 0;
    if pflag {
      var f := DoFsetstat(conn, handle, a);
      if f.Fatal? {
        return Fatal(f.reason), closeStatus;
      }
    }
    var c := DoClose(conn, handle);
    if c.Fatal? {
      return Fatal(c.reason), closeStatus;
    }
    closeStatus := c.value;
    r := Done(if failed || c.value != FxOk then -1 else 0);
  }

  /** do_upload. `stat` is what fstat() of the local file gives, as
      stat_to_attrib converts it (None when fstat fails); `src` is the
      content of the local file; `faults` says how successive read()
      calls fail; `remoteAttribs` is the caller's attribute record, if
      any. The ghost results say whether the OPEN's reply gave a handle
      and which, which WRITEs went out, the ack codes in the order their
      frames came, how far the writes reached, and what do_close
      returned. The first WRITE and the request after the loop both carry
      the id that follows the OPEN's. */
  method DoUpload(conn: Conn, stat: Option<Attrib>, src: Bytes, remotePath: CString,
                  remoteAttribs: Option<Attrib>, pflag: bool, faults: seq<Fault>, sig: Signal)
    returns (r: Outcome<int>, ghost gotHandle: bool, ghost handle: Bytes, ghost writes: seq<Req>,
             ghost codes: seq<u32>, ghost extent: nat, ghost closeStatus: int)
    modifies conn, conn.io
    ensures stat.None? || !IsRegular(stat.value.perm) ==> r == Done(-1) && Untouched(conn)
    ensures stat.Some? && IsRegular(stat.value.perm) ==>
              var attrs := OpenAttrs(if remoteAttribs.Some? then remoteAttribs.value else stat.value, pflag);
              var open := OpenRequest(old(conn.msgId), remotePath, UploadOpenFlags, attrs);
              var h := HandleOf(ReadMsg(old(conn.io.inbox)), old(conn.msgId));
              && (r.Fatal? && !Fits(open) ==> r == Fatal(OutboundTooLong))
              && (r.Fatal? && Fits(open) && h.Fatal? ==> r == Fatal(h.reason))
              && (r.Done? ==> Fits(open) && h.Done? && (gotHandle <==> h.value.Some?))
              && (r.Done? && gotHandle ==> handle == h.value.value)
              && (r.Done? && !gotHandle ==>
                    && r.value == -1 && conn.io.sent == old(conn.io.sent) + [open]
                    && conn.msgId == Inc32(old(conn.msgId)) && conn.io.inbox == Rest(old(conn.io.inbox)))
    ensures r.Done? && gotHandle ==>
              && stat.Some?
              && Tiles(writes, extent) && extent <= |src| && Carried(writes, src) == src[..extent]
              && Consecutive(writes, Inc32(old(conn.msgId)))
              && Acked(Rest(old(conn.io.inbox)), codes) && |codes| == |writes|
              && (extent == |src| || LastStatus(codes) != FxOk || conn.transferBuflen == 0
                  || Interrupted(sig, |writes| + |codes|))
    ensures r.Done? && gotHandle ==>
              var after := Rest(old(conn.io.inbox))[|codes|..];
              var closing := if pflag then Rest(after) else after;
              var next := Inc32(old(conn.msgId));
              && (pflag ==> StatusOf(ReadMsg(after), next).Done?)
              && AsInt(StatusOf(ReadMsg(closing), if pflag then Inc32(next) else next)) == Done(closeStatus)
              && r.value == (if LastStatus(codes) != FxOk || closeStatus != FxOk then -1 else 0)
              && conn.io.inbox == Rest(closing)
              && conn.msgId == if pflag then Inc32(Inc32(next)) else Inc32(next)
    ensures r.Done? && gotHandle ==>
              var attrs := OpenAttrs(if remoteAttribs.Some? then remoteAttribs.value else stat.value, pflag);
              conn.io.sent == old(conn.io.sent) + [OpenRequest(old(conn.msgId), remotePath, UploadOpenFlags, attrs)]
                              + WritesOf(writes, handle, src)
                              + Trailer(pflag, Inc32(old(conn.msgId)), handle, attrs)
  {
    gotHandle, handle, writes, codes, extent, closeStatus := false, [], [], [], 0, 0;
    if stat.None? || !IsRegular(stat.value.perm) {
      return Done(-1), gotHandle, handle, writes, codes, extent, closeStatus;
    }
    var attrs := OpenAttrs(if remoteAttribs.Some? then remoteAttribs.value else stat.value, pflag);
    var id := conn.NextId();
    var ok := conn.io.SendMsg(OpenRequest(id, remotePath, UploadOpenFlags, attrs));
    if !ok {
      return Fatal(OutboundTooLong), gotHandle, handle, writes, codes, extent, closeStatus;
    }
    var h := conn.io.GetHandle(id);
    if h.Fatal? {
      return Fatal(h.reason), gotHandle, handle, writes, codes, extent, closeStatus;
    }
    if h.value.None? {
      return Done(-1), gotHandle, handle, writes, codes, extent, closeStatus;
    }
    var hd := h.value.value;
    handle, gotHandle := hd, true;
    ghost var afterOpen := conn.io.sent;

    var w := new Writer(conn, hd, src, id);
    var fatal := w.Pump(faults, sig);
    if fatal.Some? {
      return Fatal(fatal.value), gotHandle, handle, writes, codes, extent, closeStatus;
    }
    writes, codes, extent := w.issued, w.codes, w.offset;
    CarriedIsPrefix(writes, extent, src);
    assert conn.io.sent == afterOpen + WritesOf(writes, hd, src);
    r, closeStatus := Finish(conn, hd, attrs, pflag, w.status != FxOk);
  }
}
