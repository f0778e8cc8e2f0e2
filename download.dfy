/** The download engine (do_download): after a STAT and an OPEN it keeps a
    window of READ requests outstanding, matches each reply to its
    request by id (section 6.1 of draft-ietf-secsh-filexfer-02), writes
    DATA at the request's offset in the local file, re-requests the
    missing tail of a short read, and stops asking for more on EOF, an
    error or an interrupt, draining what is still outstanding. */
module Download {
  import opened Wire
  import opened Correlate
  import opened Client
  import opened Ops
  import opened Window

  /** The READ packet for an outstanding request (send_read_request). */
  function ReadOf(q: Req, handle: Bytes): Packet {
    ReadRequest(q.id, handle, q.offset, q.len)
  }

  /** The READ packets of a run of requests, in order. */
  function ReadsOf(qs: seq<Req>, handle: Bytes): (ps: seq<Packet>)
    ensures |ps| == |qs|
  {
    if qs == [] then [] else [ReadOf(qs[0], handle)] + ReadsOf(qs[1..], handle)
  }

  lemma {:induction false} ReadsOfAt(qs: seq<Req>, handle: Bytes, k: nat)
    requires k < |qs|
    ensures ReadsOf(qs, handle)[k] == ReadOf(qs[k], handle)
  {
    if k > 0 {
      ReadsOfAt(qs[1..], handle, k - 1);
    }
  }

  lemma {:induction false} ReadsOfAppend(a: seq<Req>, b: seq<Req>, handle: Bytes)
    ensures ReadsOf(a + b, handle) == ReadsOf(a, handle) + ReadsOf(b, handle)
  {
    if a == [] {
      assert a + b == b;
    } else {
      assert (a + b)[1..] == a[1..] + b;
      ReadsOfAppend(a[1..], b, handle);
    }
  }

  /** The READ requests of one download: each names the open handle, and
      they carry consecutive ids. */
  ghost predicate ReadRun(ps: seq<Packet>, handle: Bytes, first: u32) {
    && (forall k :: 0 <= k < |ps| ==> ps[k].kind == FxpRead && |ps[k].fields| == 4 && ps[k].fields[1] == Blob(handle))
    && Sequential(ps, first)
  }

  /** Requests with consecutive ids go on the wire as a run of READs on the
      handle with those ids. */
  lemma ConsecutiveReads(qs: seq<Req>, handle: Bytes, first: u32)
    requires Consecutive(qs, first)
    ensures ReadRun(ReadsOf(qs, handle), handle, first)
  {
    forall k | 0 <= k < |qs|
      ensures ReadsOf(qs, handle)[k] == ReadOf(qs[k], handle)
    {
      ReadsOfAt(qs, handle, k);
    }
  }

  /** The local file after a successful positioned write of `data` at
      `off`. */
  function WriteAt(file: map<nat, u8>, off: nat, data: Bytes): (r: map<nat, u8>)
    ensures forall k :: k in r <==> k in file || off <= k < off + |data|
    ensures forall i :: 0 <= i < |data| ==> r[off + i] == data[i]
    ensures forall k :: k in file && !(off <= k < off + |data|) ==> r[k] == file[k]
    decreases |data|
  {
    if data == [] then file else WriteAt(file[off := data[0]], off + 1, data[1..])
  }

  /** The mode the download would give the local file: the remote
      permission bits when the server sent them, else 0666; never the
      set-uid, set-gid or sticky bits, nor any file-type bit. */
  function LocalMode(a: Attrib): (mode: bv32)
    ensures mode & !PermMask == 0
    ensures a.flags & AttrPermissions != 0 ==> mode == a.perm & PermMask
    ensures a.flags & AttrPermissions == 0 ==> mode == DefaultMode
  {
    if a.flags & AttrPermissions != 0 then a.perm & PermMask else DefaultMode
  }

  /** The request for the part of `q` that a DATA reply of `len` bytes did
      not cover, under the fresh id `id`. */
  function Remainder(q: Req, len: nat, id: u32): (r: Req)
    requires len < q.len
    ensures r.id == id && r.len > 0
    ensures r.offset == q.offset + len && r.offset + r.len == q.offset + q.len
  {
    Req(id, q.len - len, q.offset + len)
  }

  /** The request size after a short read of `len` bytes: shrunk to the
      short length, but never below MinReadSize, so a transfer length
      under MinReadSize grows to it. */
  function ShrunkBuflen(buflen: u32, len: u32): (b: u32)
    requires len < buflen
    ensures b <= buflen || b == MinReadSize
    ensures b >= len && b >= MinReadSize
  {
    Max(MinReadSize, len)
  }

  lemma BuflenBound(buflen: u32, len: u32, transferBuflen: u32)
    requires len < buflen <= Max(transferBuflen, MinReadSize)
    ensures ShrunkBuflen(buflen, len) <= Max(transferBuflen, MinReadSize)
  {
  }

  /** The window after a DATA reply while the window is open (maxReq > 0):
      one request at a time once the offset passed the size the server
      reported, otherwise one more while maxReq <= numRequests. */
  function NextMaxReq(maxReq: u32, numRequests: u32, size: u64, offset: nat): (m: u32)
    requires maxReq > 0
    ensures size > 0 && offset > size ==> m == 1
    ensures !(size > 0 && offset > size) && maxReq > numRequests ==> m == maxReq
    ensures !(size > 0 && offset > size) && maxReq <= numRequests ==> m == Inc32(maxReq)
    ensures maxReq <= numRequests + 1 ==> m <= numRequests + 1
  {
    if size > 0 && offset > size then 1
    else if maxReq <= numRequests then Inc32(maxReq)
    else maxReq
  }

  /** The window only closes by wrapping when numRequests is the largest
      u_int: then ++max_req takes the window from 2^32 - 1 to 0. */
  lemma WindowWrap(numRequests: u32, size: u64, offset: nat)
    requires !(size > 0 && offset > size)
    ensures NextMaxReq(TWO_32 - 1, numRequests, size, offset) == 0 <==> numRequests == TWO_32 - 1
  {
  }

  /** Every READ on a handle has the same size on the wire, 21 bytes and
      the handle, so send_msg accepts all of them or none. */
  predicate ReadsFit(handle: Bytes) {
    21 + |handle| <= MaxMsgLength
  }

  lemma ReadFits(q: Req, handle: Bytes)
    ensures Fits(ReadOf(q, handle)) <==> ReadsFit(handle)
  {
    var fs := ReadOf(q, handle).fields;
    assert FieldsLen(fs[3..]) == 4 by {
      assert fs[3..][1..] == [];
    }
    assert FieldsLen(fs[2..]) == 8 + FieldsLen(fs[3..]) by {
      assert fs[2..][1..] == fs[3..];
    }
    assert FieldsLen(fs[1..]) == 4 + |handle| + FieldsLen(fs[2..]) by {
      assert fs[1..][1..] == fs[2..];
    }
  }

  /** One request of the inner loop: the next id, `buflen` bytes at
      `offset`, and its READ sent (send_read_request). */
  method SendRead(conn: Conn, handle: Bytes, offset: nat, buflen: u32) returns (ok: bool, q: Req)
    modifies conn, conn.io
    ensures q == Req(old(conn.msgId), buflen, offset)
    ensures conn.msgId == Inc32(old(conn.msgId)) && conn.io.inbox == old(conn.io.inbox)
    ensures ok == ReadsFit(handle)
    ensures conn.io.sent == old(conn.io.sent) + (if ok then [ReadOf(q, handle)] else [])
  {
    var id := conn.NextId();
    q := Req(id, buflen, offset);
    ReadFits(q, handle);
    ok := conn.io.SendMsg(ReadRequest(id, handle, offset, buflen));
  }

  /** The requests `added` that the inner loop issued so far, after the
      earlier `issued`: together they tile [0, end), each asks for `buflen`
      bytes between `start` and `end`, and their ids run on from `first`. */
  ghost predicate Issuing(issued: seq<Req>, added: seq<Req>, start: nat, end: nat, buflen: u32, first: u32) {
    && Tiles(issued + added, end) && start <= end
    && (forall k :: 0 <= k < |added| ==> added[k].len == buflen && start <= added[k].offset && added[k].offset + added[k].len <= end)
    && Consecutive(added, first)
  }

  /** One more READ of `buflen` bytes at `end` under the next id keeps the
      issued requests in shape and appends its packet to their log. */
  lemma IssueStep(issued: seq<Req>, added: seq<Req>, start: nat, end: nat, buflen: u32, first: u32,
                  q: Req, handle: Bytes)
    requires Issuing(issued, added, start, end, buflen, first)
    requires q == Req(Add32(first, |added|), buflen, end)
    ensures Issuing(issued, added + [q], start, end + buflen, buflen, first)
    ensures Inc32(q.id) == Add32(first, |added + [q]|)
    ensures ReadsOf(added + [q], handle) == ReadsOf(added, handle) + [ReadOf(q, handle)]
  {
    TilesExtend(issued + added, end, q);
    assert issued + added + [q] == issued + (added + [q]);
    ConsecutiveExtend(added, q, first);
    ReadsOfAppend(added, [q], handle);
  }

  /** The inner loop of do_download: issue READ requests for consecutive
      ranges of `buflen` bytes from `offset` on until `numReq` reaches
      `maxReq`. `ok` is false when send_msg refused a request (fatal),
      which happens exactly when there was one to send and READs on this
      handle do not fit. */
  method IssueRequests(conn: Conn, handle: Bytes, requests: seq<Req>, numReq: u32, maxReq: u32,
                       offset: nat, buflen: u32, ghost issued: seq<Req>)
    returns (ok: bool, requests': seq<Req>, numReq': u32, offset': nat, ghost added: seq<Req>)
    requires numReq == |requests|
    requires Tiles(issued, offset)
    modifies conn, conn.io
    ensures conn.io.inbox == old(conn.io.inbox)
    ensures ok <==> ReadsFit(handle) || numReq >= maxReq
    ensures ok ==>
              && requests' == requests + added
              && numReq' == |requests'|
              && |added| == (if numReq < maxReq then maxReq - numReq else 0)
              && Tiles(issued + added, offset') && offset <= offset'
              && (forall k :: 0 <= k < |added| ==> added[k].len == buflen && offset <= added[k].offset && added[k].offset + added[k].len <= offset')
              && conn.io.sent == old(conn.io.sent) + ReadsOf(added, handle)
              && Consecutive(added, old(conn.msgId))
              && conn.msgId == Add32(old(conn.msgId), |added|)
  {
    requests', numReq', offset', added := requests, numReq, offset, [];
    assert issued + added == issued;
    while numReq' < maxReq
      invariant |requests| <= numReq' <= Max(numReq, maxReq)
      invariant numReq' > numReq ==> ReadsFit(handle)
      invariant requests' == requests + added && numReq' == |requests'|
      invariant Issuing(issued, added, offset, offset', buflen, old(conn.msgId))
      invariant conn.io.inbox == old(conn.io.inbox)
      invariant conn.io.sent == old(conn.io.sent) + ReadsOf(added, handle)
      invariant conn.msgId == Add32(old(conn.msgId), |added|)
      decreases maxReq - numReq'
    {
      var q;
      ok, q := SendRead(conn, handle, offset', buflen);
      if !ok {
        return;
      }
      IssueStep(issued, added, offset, offset', buflen, old(conn.msgId), q, handle);
      requests' := requests' + [q];
      offset' := offset' + buflen;
      numReq' := numReq' + 1;
      added := added + [q];
    }
    ok := true;
  }

  /** Every byte of the local file that was not there before lies below
      `end`. */
  ghost predicate WrittenBelow(file: map<nat, u8>, local: map<nat, u8>, end: nat) {
    forall k :: k in file ==> k in local || k < end
  }

  /** Fresh requests of an admissible size keep every issued size
      admissible. */
  lemma LensAppend(a: seq<Req>, b: seq<Req>, len: u32, bound: int)
    requires forall q :: q in a ==> q.len <= bound
    requires len <= bound && forall k :: 0 <= k < |b| ==> b[k].len == len
    ensures forall q :: q in a + b ==> q.len <= bound
  {
    forall q | q in a + b
      ensures q.len <= bound
    {
      if q !in a {
        var k :| 0 <= k < |b| && b[k] == q;
      }
    }
  }

  lemma WrittenGrow(file: map<nat, u8>, local: map<nat, u8>, end: nat, end': nat)
    requires WrittenBelow(file, local, end) && end <= end'
    ensures WrittenBelow(file, local, end')
  {
  }


  /** Every request of `issued` went out as a READ in `log`. */
  ghost predicate Requested(issued: seq<Req>, log: seq<Packet>, handle: Bytes) {
    forall k :: 0 <= k < |issued| ==> ReadOf(issued[k], handle) in log
  }

  /** Requests whose READs were appended to the log join those already
      requested, and the log only grows. */
  lemma RequestedStep(issued: seq<Req>, added: seq<Req>, log: seq<Packet>, log': seq<Packet>, base: nat, handle: Bytes)
    requires base <= |log| && Requested(issued, log[base..], handle)
    requires log + ReadsOf(added, handle) <= log'
    ensures Requested(issued + added, log'[base..], handle)
  {
    forall k | 0 <= k < |issued + added|
      ensures ReadOf((issued + added)[k], handle) in log'[base..]
    {
      if k < |issued| {
        var j :| 0 <= j < |log[base..]| && log[base..][j] == ReadOf(issued[k], handle);
        assert log'[base..][j] == log[base + j];
      } else {
        ReadsOfAt(added, handle, k - |issued|);
        assert log'[base..][|log| - base + k - |issued|] == ReadsOf(added, handle)[k - |issued|];
      }
    }
  }

  /** The output log of a download from index `base` on: READs on the
      handle with consecutive ids from `first` on, `msgId` the next id, and
      every issued request among them. */
  ghost predicate Sending(log: seq<Packet>, base: nat, first: u32, msgId: u32, issued: seq<Req>, handle: Bytes) {
    && base <= |log|
    && ReadRun(log[base..], handle, first)
    && msgId == Add32(first, |log| - base)
    && Requested(issued, log[base..], handle)
  }

  /** READs that carry the next ids of the run, among them those of the
      newly issued requests, keep the log in shape. */
  lemma SendingStep(log: seq<Packet>, base: nat, first: u32, issued: seq<Req>, added: seq<Req>, ps: seq<Packet>, handle: Bytes)
    requires base <= |log| && Sending(log, base, first, Add32(first, |log| - base), issued, handle)
    requires ReadRun(ps, handle, Add32(first, |log| - base))
    requires ReadsOf(added, handle) <= ps
    ensures Sending(log + ps, base, first, Add32(Add32(first, |log| - base), |ps|), issued + added, handle)
  {
    var run := log[base..];
    assert (log + ps)[base..] == run + ps;
    SequentialAppend(run, ps, first);
    AddAdd(first, |run|, |ps|);
    RequestedStep(issued, added, log, log + ps, base, handle);
  }

  /** What get_msg returns once `n` frames of `frames` have been read. */
  ghost function FrameAt(frames: seq<Incoming>, n: nat): MsgRead {
    ReadMsg(if n <= |frames| then frames[n..] else [])
  }

  /** `replies` were read, whole and in order, from the first frames of
      `frames`. */
  ghost predicate Received(frames: seq<Incoming>, replies: seq<Reply>) {
    |replies| <= |frames| && forall k :: 0 <= k < |replies| ==> FrameAt(frames, k) == Got(replies[k])
  }

  lemma ReceivedStep(frames: seq<Incoming>, replies: seq<Reply>, reply: Reply)
    requires Received(frames, replies) && FrameAt(frames, |replies|) == Got(reply)
    ensures Received(frames, replies + [reply])
    ensures Rest(frames[|replies|..]) == frames[|replies| + 1..]
  {
    assert ReadMsg(frames[|replies|..]).Got?;
  }

  /** The source's read_error after the replies: some STATUS among them
      reports something other than EOF. */
  ghost predicate ReadFailed(rs: seq<Reply>) {
    exists k :: 0 <= k < |rs| && rs[k].Status? && rs[k].code != FxEof
  }

  /** The source's `status` after the replies: the code of the last STATUS
      among them as an int, or `s` when there is none. */
  function StatusAfter(rs: seq<Reply>, s: int): (r: int)
    ensures (forall k :: 0 <= k < |rs| ==> !rs[k].Status?) ==> r == s
    ensures forall k :: 0 <= k < |rs| && rs[k].Status? && (forall j :: k < j < |rs| ==> !rs[j].Status?) ==> r == ToInt32(rs[k].code)
  {
    if rs == [] then s
    else if rs[|rs| - 1].Status? then ToInt32(rs[|rs| - 1].code)
    else
      var init := rs[..|rs| - 1];
      assert forall k :: 0 <= k < |init| ==> init[k] == rs[k];
      StatusAfter(init, s)
  }

  /** How many of the replies are DATA: the positioned writes made. */
  function DataCount(rs: seq<Reply>): (n: nat)
    ensures n <= |rs|
  {
    if rs == [] then 0 else DataCount(rs[..|rs| - 1]) + (if rs[|rs| - 1].Data? then 1 else 0)
  }

  /** The source's write_error after `n` writes: one of them failed. */
  ghost predicate WriteFailed(writeFails: seq<bool>, n: nat) {
    exists k :: 0 <= k < n && k < |writeFails| && writeFails[k]
  }

  /** The transfer's summaries after one more reply. */
  lemma ReadFailedStep(rs: seq<Reply>, r: Reply)
    ensures ReadFailed(rs + [r]) == (ReadFailed(rs) || (r.Status? && r.code != FxEof))
  {
    var rs' := rs + [r];
    if ReadFailed(rs) {
      var k :| 0 <= k < |rs| && rs[k].Status? && rs[k].code != FxEof;
      assert rs'[k] == rs[k];
    }
    if r.Status? && r.code != FxEof {
      assert rs'[|rs|] == r;
    }
    if ReadFailed(rs') && !(r.Status? && r.code != FxEof) {
      var k :| 0 <= k < |rs'| && rs'[k].Status? && rs'[k].code != FxEof;
      assert k < |rs| && rs[k] == rs'[k];
    }
  }

  lemma CountsStep(rs: seq<Reply>, r: Reply, s: int)
    ensures StatusAfter(rs + [r], s) == (if r.Status? then ToInt32(r.code) else StatusAfter(rs, s))
    ensures DataCount(rs + [r]) == DataCount(rs) + (if r.Data? then 1 else 0)
  {
    assert (rs + [r])[..|rs|] == rs;
  }

  lemma WriteFailedStep(writeFails: seq<bool>, n: nat)
    ensures WriteFailed(writeFails, n + 1) == (WriteFailed(writeFails, n) || (n < |writeFails| && writeFails[n]))
  {
    if WriteFailed(writeFails, n + 1) && !(n < |writeFails| && writeFails[n]) {
      var k :| 0 <= k < n + 1 && k < |writeFails| && writeFails[k];
      assert k < n;
    }
  }
  /** What the main loop makes of the frame `m` while `queue` is
      outstanding: None when it handles the reply, otherwise why the
      session dies. */
  ghost function Verdict(m: MsgRead, queue: seq<Req>, handle: Bytes): (v: Option<FatalReason>)
    ensures v == Some(InboundTooLong) <==> m.TooLong?
    ensures v == Some(BufferUnderflow) <==> m.ShortRead?
    ensures m.Got? ==>
              var j := FirstMatch(queue, ReplyId(m.reply));
              && (v == Some(UnexpectedReply) <==> j.None?)
              && (v == Some(UnexpectedType) <==> j.Some? && !m.reply.Status? && !m.reply.Data?)
              && (v == Some(DataOverrun) <==> j.Some? && m.reply.Data? && |m.reply.data| > queue[j.value].len)
              && (v == Some(OutboundTooLong) <==>
                    j.Some? && m.reply.Data? && |m.reply.data| < queue[j.value].len && !ReadsFit(handle))
              && (v.None? <==>
                    && j.Some?
                    && (|| m.reply.Status?
                        || (&& m.reply.Data? && |m.reply.data| <= queue[j.value].len
                            && (|m.reply.data| == queue[j.value].len || ReadsFit(handle)))))
  {
    match m
    case TooLong(_) => Some(InboundTooLong)
    case ShortRead => Some(BufferUnderflow)
    case Got(reply) =>
      var j := FirstMatch(queue, ReplyId(reply));
      if j.None? then Some(UnexpectedReply)
      else if reply.Status? then None
      else if !reply.Data? then Some(UnexpectedType)
      else if |reply.data| > queue[j.value].len then Some(DataOverrun)
      else if |reply.data| < queue[j.value].len && !ReadsFit(handle) then Some(OutboundTooLong)
      else None
  }

  /** After handling `replies`, the replies of the first frames of
      `frames`: the frames still unread are `inbox`, every reply was a
      STATUS or a DATA, and the error latches and the last status are
      those the replies leave, starting from `r0`, `s0` and `w0`. */
  ghost predicate Summary(frames: seq<Incoming>, replies: seq<Reply>, inbox: seq<Incoming>,
                          readError: bool, status: int, writeError: bool,
                          writeFails: seq<bool>, r0: bool, s0: int, w0: bool)
  {
    && Received(frames, replies) && inbox == frames[|replies|..]
    && (forall k :: 0 <= k < |replies| ==> replies[k].Status? || replies[k].Data?)
    && readError == (r0 || ReadFailed(replies))
    && status == StatusAfter(replies, s0)
    && writeError == (w0 || WriteFailed(writeFails, DataCount(replies)))
  }

  /** Handling the reply of the next frame updates the summary as the
      loop updates its variables. */
  lemma SummaryStep(frames: seq<Incoming>, replies: seq<Reply>, inbox: seq<Incoming>,
                    readError: bool, status: int, writeError: bool,
                    writeFails: seq<bool>, r0: bool, s0: int, w0: bool,
                    reply: Reply, readError': bool, status': int, writeError': bool)
    requires Summary(frames, replies, inbox, readError, status, writeError, writeFails, r0, s0, w0)
    requires ReadMsg(inbox) == Got(reply) && (reply.Status? || reply.Data?)
    requires reply.Status? ==> status' == ToInt32(reply.code) && readError' == (readError || reply.code != FxEof) && writeError' == writeError
    requires reply.Data? ==>
               var n := DataCount(replies);
               status' == status && readError' == readError && writeError' == (writeError || (n < |writeFails| && writeFails[n]))
    ensures Summary(frames, replies + [reply], Rest(inbox), readError', status', writeError', writeFails, r0, s0, w0)
  {
    ReceivedStep(frames, replies, reply);
    ReadFailedStep(replies, reply);
    CountsStep(replies, reply, s0);
    WriteFailedStep(writeFails, DataCount(replies));
  }

  /** The variables of the main loop of do_download that a reply changes:
      the request queue, the window, the offset of the next fresh range,
      the request size, the last status, the two error latches and the
      local file. */
  datatype Loop = Loop(requests: seq<Req>, maxReq: u32, offset: nat, buflen: u32, status: int,
                       readError: bool, writeError: bool, file: map<nat, u8>)

  /** The loop variables after the reply `reply` to request `i` of the
      queue, when the positioned write of a DATA fails exactly if
      `fails`, a re-request takes id `id` and the window grows up to
      numRequests for a file of `size` bytes. A STATUS retires the
      request, records its code, latches a read error unless it is EOF
      and closes the window. A DATA is written at the request's offset,
      or latches the write error and closes the window; it retires a
      complete request or replaces a short one by its missing tail,
      shrinking the request size; then an open window grows. */
  function Handled(s: Loop, i: nat, reply: Reply, fails: bool, id: u32, numRequests: u32, size: u64): (t: Loop)
    requires i < |s.requests|
    requires reply.Status? || (reply.Data? && |reply.data| <= s.requests[i].len)
    ensures t.offset == s.offset
    ensures |t.requests| == |s.requests| - (if reply.Status? || |reply.data| == s.requests[i].len then 1 else 0)
    ensures reply.Status? || s.maxReq == 0 ==> t.maxReq == 0
    ensures reply.Status? ==> t.file == s.file && t.writeError == s.writeError && t.buflen == s.buflen
    ensures reply.Data? ==> t.status == s.status && t.readError == s.readError
    ensures reply.Data? && !fails ==> t.file == WriteAt(s.file, s.requests[i].offset, reply.data)
  {
    var q := s.requests[i];
    var retired := s.requests[..i] + s.requests[i + 1..];
    if reply.Status? then
      s.(requests := retired, maxReq := 0, status := ToInt32(reply.code),
         readError := s.readError || reply.code != FxEof)
    else
      var n := |reply.data|;
      var window := if fails && !s.writeError then 0 else s.maxReq;
      s.(requests := if n == q.len then retired else s.requests[i := Remainder(q, n, id)],
         maxReq := if window > 0 then NextMaxReq(window, numRequests, size, s.offset) else 0,
         buflen := if n < q.len && n < s.buflen then ShrunkBuflen(s.buflen, n) else s.buflen,
         writeError := s.writeError || fails,
         file := if fails then s.file else WriteAt(s.file, q.offset, reply.data))
  }

  /** `counts[k]` is how many fresh ranges the main loop had issued before
      its pass at poll k, the last entry how many it issued in all: each
      pass issues at most `window` of them, and a pass whose poll sees the
      interrupt flag issues none. */
  ghost predicate IssueSchedule(counts: seq<int>, sig: Signal, window: nat) {
    && |counts| > 0
    && forall k :: 0 <= k < |counts| - 1 ==> Grew(counts, k, sig, window)
  }

  /** The pass at poll k issued at most `window` fresh ranges, and none if
      its poll saw the flag. */
  ghost predicate Grew(counts: seq<int>, k: nat, sig: Signal, window: nat)
    requires k + 1 < |counts|
  {
    && counts[k] <= counts[k + 1] <= counts[k] + window
    && (Interrupted(sig, k) ==> counts[k + 1] == counts[k])
  }

  /** The schedule of a loop that has made `polls` passes and issued
      `n` fresh ranges in all. */
  ghost predicate Counted(counts: seq<int>, polls: nat, n: int, sig: Signal, window: nat) {
    |counts| == polls + 1 && counts[polls] == n && IssueSchedule(counts, sig, window)
  }

  lemma IssueScheduleStep(counts: seq<int>, polls: nat, n: nat, sig: Signal, window: nat, c: int)
    requires Counted(counts, polls, n, sig, window)
    requires n <= c <= n + window && (Interrupted(sig, polls) ==> c == n)
    ensures Counted(counts + [c], polls + 1, c, sig, window)
  {
    var next := counts + [c];
    forall k | 0 <= k < |next| - 1
      ensures Grew(next, k, sig, window)
    {
      if k < polls {
        assert Grew(counts, k, sig, window);
      }
    }
  }

  /** From the first poll that sees the interrupt flag on, no fresh range
      is issued: the flag stays set, so every later pass closes the window
      before it fills it. */
  lemma {:induction false} NoFreshAfterInterrupt(counts: seq<int>, sig: Signal, window: nat, k: nat)
    requires IssueSchedule(counts, sig, window) && k < |counts| && Interrupted(sig, k)
    ensures forall j :: k <= j < |counts| ==> counts[j] == counts[k]
    decreases |counts|
  {
    var n := |counts| - 1;
    if k < n {
      var init := counts[..n];
      forall j | 0 <= j < |init| - 1
        ensures Grew(init, j, sig, window)
      {
        assert Grew(counts, j, sig, window);
      }
      NoFreshAfterInterrupt(init, sig, window, k);
      assert Grew(counts, n - 1, sig, window);
      forall j | k <= j < |counts|
        ensures counts[j] == counts[k]
      {
        if j < n {
          assert init[j] == counts[j] && init[k] == counts[k];
        }
      }
    }
  }

  /** One reply handled, with only the READs `more` of the run sent on
      the way, keeps the output log and the reply record in shape. */
  lemma TrackStep(log: seq<Packet>, more: seq<Packet>, base: nat, first: u32, id: u32, issued: seq<Req>, handle: Bytes,
                  frames: seq<Incoming>, replies: seq<Reply>, inbox: seq<Incoming>,
                  readError: bool, status: int, writeError: bool, writeFails: seq<bool>, r0: bool, s0: int, w0: bool,
                  reply: Reply, readError': bool, status': int, writeError': bool)
    requires Sending(log, base, first, id, issued, handle) && ReadRun(more, handle, id)
    requires Summary(frames, replies, inbox, readError, status, writeError, writeFails, r0, s0, w0)
    requires ReadMsg(inbox) == Got(reply) && (reply.Status? || reply.Data?)
    requires reply.Status? ==> status' == ToInt32(reply.code) && readError' == (readError || reply.code != FxEof) && writeError' == writeError
    requires reply.Data? ==>
               var n := DataCount(replies);
               status' == status && readError' == readError && writeError' == (writeError || (n < |writeFails| && writeFails[n]))
    ensures Sending(log + more, base, first, Add32(id, |more|), issued, handle)
    ensures Summary(frames, replies + [reply], Rest(inbox), readError', status', writeError', writeFails, r0, s0, w0)
  {
    assert issued + [] == issued && ReadsOf([], handle) == [];
    SendingStep(log, base, first, issued, [], more, handle);
    SummaryStep(frames, replies, inbox, readError, status, writeError, writeFails, r0, s0, w0,
                reply, readError', status', writeError');
  }

  /** The loop state of do_download, its local variables: the request
      queue and its length, the window, the next offset, the request
      size, the last status and the two error latches, and the local file
      being written. */
  class Transfer {
    const conn: Conn
    const handle: Bytes
    const size: u64
    ghost const local: map<nat, u8>
    var requests: seq<Req>
    var numReq: u32
    var maxReq: u32
    var offset: nat
    var buflen: u32
    var status: int
    var readError: bool
    var writeError: bool
    var file: map<nat, u8>
    /** The requests issued for fresh ranges, in order. */
    ghost var issued: seq<Req>
    /** The window was closed: by a STATUS, a write error or an interrupt. */
    ghost var stopped: bool

    /** The loop variables a reply changes, as one value. */
    ghost function Now(): Loop
      reads this
    {
      Loop(requests, maxReq, offset, buflen, status, readError, writeError, file)
    }

    ghost predicate Valid()
      reads this
    {
      && numReq == |requests|
      && Tiles(issued, offset) && Below(requests, offset)
      && (forall q :: q in issued ==> q.len <= Max(conn.transferBuflen, MinReadSize))
      && buflen <= Max(conn.transferBuflen, MinReadSize)
      && maxReq <= conn.numRequests + 1
      && (readError || writeError ==> stopped)
      && (stopped ==> maxReq == 0)
      && WrittenBelow(file, local, offset)
    }

    constructor (conn: Conn, handle: Bytes, size: u64, local: map<nat, u8>)
      ensures this.conn == conn && this.handle == handle && this.size == size && this.local == local
      ensures requests == [] && numReq == 0 && maxReq == 1 && offset == 0
      ensures buflen == conn.transferBuflen && status == 0
      ensures !readError && !writeError && file == local && issued == []
      ensures Valid()
    {
      this.conn := conn;
      this.handle := handle;
      this.size := size;
      this.local := local;
      requests, numReq, maxReq, offset := [], 0, 1, 0;
      buflen, status := conn.transferBuflen, 0;
      readError, writeError, file := false, false, local;
      issued, stopped := [], false;
    }

    /** The interrupt test at the head of the loop: with requests
        outstanding the window closes and they drain. */
    method Interrupt()
      requires Valid()
      modifies this
      ensures Valid()
      ensures maxReq == 0 && stopped
      ensures requests == old(requests) && numReq == old(numReq) && offset == old(offset)
      ensures buflen == old(buflen) && status == old(status) && file == old(file)
      ensures readError == old(readError) && writeError == old(writeError) && issued == old(issued)
    {
      maxReq := 0;
      stopped := true;
    }

    /** Issue requests until the queue holds maxReq of them: fresh ranges
        of the request size from the offset on, under the next ids. */
    method Issue() returns (ok: bool, ghost added: seq<Req>)
      requires Valid()
      modifies this, conn, conn.io
      ensures conn.io.inbox == old(conn.io.inbox)
      ensures ok <==> ReadsFit(handle) || old(numReq) >= old(maxReq)
      ensures ok ==> Valid()
      ensures ok ==>
                && conn.io.sent == old(conn.io.sent) + ReadsOf(added, handle)
                && Consecutive(added, old(conn.msgId))
                && conn.msgId == Add32(old(conn.msgId), |added|)
      ensures ok ==>
                && requests == old(requests) + added && issued == old(issued) + added
                && |added| == (if old(numReq) < maxReq then maxReq - old(numReq) else 0)
                && (forall k :: 0 <= k < |added| ==> added[k].len == buflen && old(offset) <= added[k].offset)
      ensures ok ==>
                && maxReq == old(maxReq) && buflen == old(buflen) && status == old(status) && file == old(file)
                && readError == old(readError) && writeError == old(writeError) && stopped == old(stopped)
    {
      var requests', numReq', offset';
      ok, requests', numReq', offset', added := IssueRequests(conn, handle, requests, numReq, maxReq, offset, buflen, issued);
      if !ok {
        return;
      }
      BelowAppend(requests, added, offset, offset');
      WrittenGrow(file, local, offset, offset');
      LensAppend(issued, added, buflen, Max(conn.transferBuflen, MinReadSize));
      requests, numReq, offset, issued := requests', numReq', offset', issued + added;
    }

    /** A STATUS reply for request `i`: an error unless it is EOF; either
        way the window closes and the request leaves the queue. */
    method OnStatus(i: nat, code: u32)
      requires Valid() && i < |requests|
      modifies this
      ensures Valid()
      ensures requests == old(requests[..i] + requests[i + 1..]) && numReq == old(numReq) - 1
      ensures status == ToInt32(code) && readError == (old(readError) || code != FxEof)
      ensures maxReq == 0 && stopped
      ensures offset == old(offset) && buflen == old(buflen) && file == old(file)
      ensures writeError == old(writeError) && issued == old(issued)
    {
      status := ToInt32(code);
      if code != FxEof {
        readError := true;
      }
      maxReq := 0;
      stopped := true;
      requests := requests[..i] + requests[i + 1..];
      numReq := numReq - 1;
    }

    /** The positioned write of a DATA reply for request `q`: the data
        lands at the request's offset, or, when the write fails, the first
        failure latches the write error and closes the window. */
    method Store(q: Req, data: Bytes, fails: bool)
      requires Valid() && q in requests && |data| <= q.len
      modifies this
      ensures Valid()
      ensures file == (if fails then old(file) else WriteAt(old(file), q.offset, data))
      ensures writeError == (old(writeError) || fails)
      ensures maxReq == (if fails && !old(writeError) then 0 else old(maxReq))
      ensures requests == old(requests) && numReq == old(numReq) && offset == old(offset)
      ensures buflen == old(buflen) && status == old(status) && readError == old(readError) && issued == old(issued)
    {
      if fails {
        if !writeError {
          writeError := true;
          maxReq := 0;
          stopped := true;
        }
      } else {
        file := WriteAt(file, q.offset, data);
      }
    }

    /** A complete reply: request `i` leaves the queue. */
    method Retire(i: nat)
      requires Valid() && i < |requests|
      modifies this
      ensures Valid()
      ensures requests == old(requests[..i] + requests[i + 1..]) && numReq == old(numReq) - 1
      ensures maxReq == old(maxReq) && offset == old(offset) && buflen == old(buflen) && status == old(status)
      ensures file == old(file) && readError == old(readError) && writeError == old(writeError) && issued == old(issued)
    {
      BelowRemove(requests, i, offset);
      requests := requests[..i] + requests[i + 1..];
      numReq := numReq - 1;
    }

    /** A short reply of `len` bytes: the missing tail of request `i` is
        asked for again under a fresh id and replaces it in the queue; a
        reply shorter than the request size shrinks it. */
    method Rerequest(i: nat, len: nat) returns (ok: bool)
      requires Valid() && i < |requests| && len < requests[i].len
      modifies this, conn, conn.io
      ensures conn.io.inbox == old(conn.io.inbox)
      ensures ok == ReadsFit(handle)
      ensures ok ==> Valid()
      ensures ok ==>
                var rest := Remainder(old(requests[i]), len, old(conn.msgId));
                && requests == old(requests)[i := rest] && numReq == old(numReq)
                && conn.io.sent == old(conn.io.sent) + [ReadOf(rest, handle)]
                && conn.msgId == Inc32(old(conn.msgId))
                && buflen == (if len < old(buflen) then ShrunkBuflen(old(buflen), len) else old(buflen))
      ensures ok ==>
                && maxReq == old(maxReq) && offset == old(offset) && status == old(status) && file == old(file)
                && readError == old(readError) && writeError == old(writeError) && issued == old(issued)
    {
      var id := conn.NextId();
      var rest := Remainder(requests[i], len, id);
      ReadFits(rest, handle);
      ok := conn.io.SendMsg(ReadOf(rest, handle));
      if !ok {
        return;
      }
      BelowReplace(requests, i, rest, offset);
      requests := requests[i := rest];
      if len < buflen {
        BuflenBound(buflen, len, conn.transferBuflen);
        buflen := ShrunkBuflen(buflen, len);
      }
    }

    /** The window after a DATA reply, while it is open. */
    method Widen()
      requires Valid()
      modifies this
      ensures Valid()
      ensures maxReq == (if old(maxReq) > 0 then NextMaxReq(old(maxReq), conn.numRequests, size, offset) else 0)
      ensures requests == old(requests) && numReq == old(numReq) && offset == old(offset) && buflen == old(buflen)
      ensures status == old(status) && file == old(file) && readError == old(readError)
      ensures writeError == old(writeError) && issued == old(issued)
    {
      if maxReq > 0 {
        maxReq := NextMaxReq(maxReq, conn.numRequests, size, offset);
      }
    }

    /** A DATA reply for request `i`: store it, retire the request or ask
        for its missing tail, then let the window grow. `ok` is false when
        send_msg refused the new request (fatal). */
    method OnData(i: nat, data: Bytes, fails: bool) returns (ok: bool)
      requires Valid() && i < |requests| && |data| <= requests[i].len
      modifies this, conn, conn.io
      ensures conn.io.inbox == old(conn.io.inbox)
      ensures ok <==> |data| == old(requests[i]).len || ReadsFit(handle)
      ensures ok ==> Valid()
      ensures ok ==>
                var q := old(requests[i]);
                && file == (if fails then old(file) else WriteAt(old(file), q.offset, data))
                && writeError == (old(writeError) || fails)
                && (|data| == q.len ==>
                      && requests == old(requests[..i] + requests[i + 1..]) && numReq == old(numReq) - 1
                      && conn.io.sent == old(conn.io.sent) && conn.msgId == old(conn.msgId)
                      && buflen == old(buflen))
                && (|data| < q.len ==>
                      var rest := Remainder(q, |data|, old(conn.msgId));
                      && requests == old(requests)[i := rest] && numReq == old(numReq)
                      && conn.io.sent == old(conn.io.sent) + [ReadOf(rest, handle)]
                      && conn.msgId == Inc32(old(conn.msgId))
                      && buflen == (if |data| < old(buflen) then ShrunkBuflen(old(buflen), |data|) else old(buflen)))
      ensures ok ==>
                var window := if fails && !old(writeError) then 0 else old(maxReq);
                maxReq == (if window > 0 then NextMaxReq(window, conn.numRequests, size, offset) else 0)
      ensures ok ==> offset == old(offset) && status == old(status) && readError == old(readError) && issued == old(issued)
    {
      Store(requests[i], data, fails);
      if |data| == requests[i].len {
        Retire(i);
      } else {
        ok := Rerequest(i, |data|);
        if !ok {
          return;
        }
      }
      Widen();
      ok := true;
    }

    /** A reply for request `i`, the first request its id matches: a
        STATUS closes the window, a DATA no longer than the request is
        stored and its request retired or asked for again, anything else
        is fatal. `more` is the re-request sent, if any. */
    method Answer(i: nat, reply: Reply, fails: bool) returns (fatal: Option<FatalReason>, ghost more: seq<Packet>)
      requires Valid() && FirstMatch(requests, ReplyId(reply)) == Some(i)
      modifies this, conn, conn.io
      ensures conn.io.inbox == old(conn.io.inbox)
      ensures fatal == Verdict(Got(reply), old(requests), handle)
      ensures fatal.Some? && fatal != Some(OutboundTooLong) ==> requests == old(requests)
      ensures fatal.None? ==>
                && Valid() && issued == old(issued)
                && conn.io.sent == old(conn.io.sent) + more
                && ReadRun(more, handle, old(conn.msgId)) && conn.msgId == Add32(old(conn.msgId), |more|)
      ensures fatal.None? && reply.Status? ==>
                && status == ToInt32(reply.code) && readError == (old(readError) || reply.code != FxEof)
                && writeError == old(writeError) && maxReq == 0
      ensures fatal.None? && reply.Data? ==>
                && status == old(status) && readError == old(readError) && writeError == (old(writeError) || fails)
      ensures fatal.None? ==> Now() == Handled(old(Now()), i, reply, fails, old(conn.msgId), conn.numRequests, size)
    {
      more := [];
      assert Add32(conn.msgId, 0) == conn.msgId;
      if reply.Status? {
        OnStatus(i, reply.code);
      } else if reply.Data? {
        if |reply.data| > requests[i].len {
          return Some(DataOverrun), more;
        }
        ghost var id, q := conn.msgId, requests[i];
        var ok := OnData(i, reply.data, fails);
        if !ok {
          return Some(OutboundTooLong), more;
        }
        if |reply.data| < q.len {
          more := [ReadOf(Remainder(q, |reply.data|, id), handle)];
          Inc32IsAdd(id);
        }
      } else {
        return Some(UnexpectedType), more;
      }
      fatal := None;
    }

    /** Read one reply and hand it to the request it answers; `fatal` is
        the Verdict on the frame read. */
    method Dispatch(fails: bool) returns (fatal: Option<FatalReason>, reply: Reply, ghost more: seq<Packet>, ghost i: nat)
      requires Valid()
      modifies this, conn, conn.io
      ensures conn.io.inbox == Rest(old(conn.io.inbox))
      ensures fatal == Verdict(ReadMsg(old(conn.io.inbox)), old(requests), handle)
      ensures fatal.Some? && fatal != Some(OutboundTooLong) ==> requests == old(requests)
      ensures fatal.None? ==>
                && ReadMsg(old(conn.io.inbox)) == Got(reply)
                && Valid() && issued == old(issued)
                && conn.io.sent == old(conn.io.sent) + more
                && ReadRun(more, handle, old(conn.msgId)) && conn.msgId == Add32(old(conn.msgId), |more|)
      ensures fatal.None? && reply.Status? ==>
                && status == ToInt32(reply.code) && readError == (old(readError) || reply.code != FxEof)
                && writeError == old(writeError) && maxReq == 0
      ensures fatal.None? && reply.Data? ==>
                && status == old(status) && readError == old(readError) && writeError == (old(writeError) || fails)
      ensures fatal.None? ==>
                && FirstMatch(old(requests), ReplyId(reply)) == Some(i)
                && Now() == Handled(old(Now()), i, reply, fails, old(conn.msgId), conn.numRequests, size)
    {
      reply, more, i := Status(0, 0), [], 0;
      var m := conn.io.GetMsg();
      if m.TooLong? {
        return Some(InboundTooLong), reply, more, i;
      }
      if m.ShortRead? {
        return Some(BufferUnderflow), reply, more, i;
      }
      reply := m.reply;
      var k := FindRequest(requests, ReplyId(reply));
      if k.None? {
        return Some(UnexpectedReply), reply, more, i;
      }
      var at := k.value;
      i := at;
      fatal, more := Answer(at, reply, fails);
    }

    /** What the main loop keeps track of after handling `replies`, the
        replies of the first frames of `frames`: the READs sent from index
        `base` of the output log on, the frames still unread, and the last
        status and the error latches, starting from `s0`, `r0` and `w0`. */
    ghost predicate Tracking(frames: seq<Incoming>, replies: seq<Reply>, writeFails: seq<bool>,
                             base: nat, first: u32, r0: bool, s0: int, w0: bool)
      reads this, conn, conn.io
    {
      && Valid()
      && Sending(conn.io.sent, base, first, conn.msgId, issued, handle)
      && Summary(frames, replies, conn.io.inbox, readError, status, writeError, writeFails, r0, s0, w0)
    }

    /** One pass of the main loop up to the read: the interrupt test
        (`intr`, with requests outstanding) closes the window, then the
        window is filled, keeping the READ log from `base` on in shape.
        `ok` is false when send_msg refused a READ (fatal). */
    method Fill(intr: bool, ghost base: nat, ghost first: u32) returns (ok: bool)
      requires Valid() && Sending(conn.io.sent, base, first, conn.msgId, issued, handle)
      modifies this, conn, conn.io
      ensures conn.io.inbox == old(conn.io.inbox)
      ensures ok <==> ReadsFit(handle) || old(numReq) >= (if intr then 0 else old(maxReq))
      ensures ok ==> Valid() && Sending(conn.io.sent, base, first, conn.msgId, issued, handle)
      ensures ok ==> old(conn.io.sent) <= conn.io.sent
      ensures ok ==> readError == old(readError) && status == old(status) && writeError == old(writeError)
      ensures ok ==> old(issued) <= issued && |issued| <= |old(issued)| + conn.numRequests + 1
      ensures intr ==>
                && ok && maxReq == 0 && stopped
                && issued == old(issued) && requests == old(requests)
                && conn.io.sent == old(conn.io.sent) && conn.msgId == old(conn.msgId)
    {
      if intr {
        Interrupt();
      }
      ghost var log, issued0, id := conn.io.sent, issued, conn.msgId;
      ghost var added;
      ok, added := Issue();
      if ok {
        ConsecutiveReads(added, handle, id);
        SendingStep(log, base, first, issued0, added, ReadsOf(added, handle), handle);
      }
    }

    /** The rest of one pass: read one reply and handle it. */
    method Receive(writeFails: seq<bool>, writes: nat, ghost frames: seq<Incoming>, ghost replies: seq<Reply>,
                   ghost base: nat, ghost first: u32, ghost r0: bool, ghost s0: int, ghost w0: bool)
      returns (fatal: Option<FatalReason>, reply: Reply, ghost i: nat)
      requires Tracking(frames, replies, writeFails, base, first, r0, s0, w0) && writes == DataCount(replies)
      modifies this, conn, conn.io
      ensures fatal == Verdict(ReadMsg(old(conn.io.inbox)), old(requests), handle)
      ensures fatal.Some? && fatal != Some(OutboundTooLong) ==> requests == old(requests)
      ensures fatal.None? ==> Tracking(frames, replies + [reply], writeFails, base, first, r0, s0, w0)
      ensures fatal.None? ==> old(conn.io.sent) <= conn.io.sent && issued == old(issued)
      ensures fatal.None? && old(maxReq) == 0 ==> maxReq == 0
      ensures fatal.None? ==>
                && FirstMatch(old(requests), ReplyId(reply)) == Some(i)
                && Now() == Handled(old(Now()), i, reply, writes < |writeFails| && writeFails[writes],
                                    old(conn.msgId), conn.numRequests, size)
    {
      var fails := writes < |writeFails| && writeFails[writes];
      ghost var log, inbox, re, st, we, id := conn.io.sent, conn.io.inbox, readError, status, writeError, conn.msgId;
      ghost var more;
      fatal, reply, more, i := Dispatch(fails);
      if fatal.Some? {
        return;
      }
      TrackStep(log, more, base, first, id, issued, handle, frames, replies, inbox, re, st, we, writeFails, r0, s0, w0,
                reply, readError, status, writeError);
    }

    /** One pass of the main loop after the interrupt test: fill the
        window, read one reply and handle it. `fatal` is why the session
        died, if it did: a READ send_msg refused, or the Verdict on the
        frame read. */
    method Pass(intr: bool, writeFails: seq<bool>, writes: nat, ghost frames: seq<Incoming>, ghost replies: seq<Reply>,
                ghost base: nat, ghost first: u32, ghost r0: bool, ghost s0: int, ghost w0: bool,
                ghost sig: Signal, ghost counts: seq<int>)
      returns (fatal: Option<FatalReason>, reply: Reply, ghost schedule: seq<int>)
      requires Tracking(frames, replies, writeFails, base, first, r0, s0, w0) && writes == DataCount(replies)
      requires Counted(counts, |replies|, |issued|, sig, conn.numRequests + 1) && intr == Interrupted(sig, |replies|)
      modifies this, conn, conn.io
      ensures fatal == Some(OutboundTooLong) ==> !ReadsFit(handle)
      ensures fatal.Some? && fatal != Some(OutboundTooLong) ==> fatal == Verdict(FrameAt(frames, |replies|), requests, handle)
      ensures fatal.None? ==> Tracking(frames, replies + [reply], writeFails, base, first, r0, s0, w0)
      ensures fatal.None? ==> old(conn.io.sent) <= conn.io.sent
      ensures fatal.None? ==> |old(issued)| <= |issued| <= |old(issued)| + conn.numRequests + 1
      ensures fatal.None? && intr ==> |issued| == |old(issued)| && maxReq == 0
      ensures fatal.None? ==> schedule == counts + [|issued|] && Counted(schedule, |replies| + 1, |issued|, sig, conn.numRequests + 1)
    {
      ghost var n := |issued|;
      var ok := Fill(intr, base, first);
      if !ok {
        return Some(OutboundTooLong), Status(0, 0), counts;
      }
      IssueScheduleStep(counts, |replies|, n, sig, conn.numRequests + 1, |issued|);
      schedule := counts + [|issued|];
      ghost var i;
      fatal, reply, i := Receive(writeFails, writes, frames, replies, base, first, r0, s0, w0);
    }

    /** The main loop of do_download: until no request is outstanding and
        the window is closed, test for an interrupt, fill the window, read
        one reply and hand it to the request it answers. `writeFails`
        says, per DATA reply, whether its positioned write fails; `replies`
        are the replies the loop handled, `fatal` the reason the session
        died on the frame after them, if it did, and `issuedAt` how many
        fresh ranges were issued before each pass. */
    method Drain(sig: Signal, writeFails: seq<bool>)
      returns (fatal: Option<FatalReason>, ghost replies: seq<Reply>, ghost issuedAt: seq<int>)
      requires Valid() && issued == []
      modifies this, conn, conn.io
      ensures Received(old(conn.io.inbox), replies)
      ensures fatal.None? ==>
                && Tracking(old(conn.io.inbox), replies, writeFails, |old(conn.io.sent)|, old(conn.msgId),
                            old(readError), old(status), old(writeError))
                && old(conn.io.sent) <= conn.io.sent && requests == []
                && (maxReq == 0 || Interrupted(sig, |replies|))
                && (replies == [] ==> old(maxReq) == 0 || Interrupted(sig, 0))
      ensures fatal.None? ==> Counted(issuedAt, |replies|, |issued|, sig, conn.numRequests + 1)
      ensures fatal == Some(OutboundTooLong) ==> !ReadsFit(handle)
      ensures fatal.Some? && fatal != Some(OutboundTooLong) ==>
                fatal == Verdict(FrameAt(old(conn.io.inbox), |replies|), requests, handle)
    {
      ghost var frames, base, first := conn.io.inbox, |conn.io.sent|, conn.msgId;
      ghost var r0, s0, w0 := readError, status, writeError;
      var polls, writes: nat := 0, 0;
      replies, issuedAt := [], [0];
      assert frames[0..] == frames;
      assert conn.io.sent[base..] == [];
      while numReq > 0 || maxReq > 0
        invariant Tracking(frames, replies, writeFails, base, first, r0, s0, w0)
        invariant old(conn.io.sent) <= conn.io.sent
        invariant polls == |replies| && writes == DataCount(replies)
        invariant replies == [] ==> maxReq == old(maxReq)
        invariant Counted(issuedAt, polls, |issued|, sig, conn.numRequests + 1)
        decreases |conn.io.inbox|
      {
        var intr := Interrupted(sig, polls);
        if intr && numReq == 0 {
          break;
        }
        var reply;
        ghost var schedule;
        fatal, reply, schedule := Pass(intr, writeFails, writes, frames, replies, base, first, r0, s0, w0, sig, issuedAt);
        if fatal.Some? {
          return;
        }
        issuedAt := schedule;
        CountsStep(replies, reply, s0);
        replies := replies + [reply];
        if reply.Data? {
          writes := writes + 1;
        }
        polls := polls + 1;
      }
      fatal := None;
    }
  }

  /** A file do_download goes on to open: one whose attributes carry no
      permission bits, or a regular one. */
  predicate Downloadable(a: Attrib) {
    !(a.flags & AttrPermissions != 0 && !IsRegular(a.perm))
  }

  /** The end of do_download: CLOSE the handle and pick the result, the
      last status when a read failed, -1 when a local write failed, else
      the CLOSE status, with the mode to set when `pflag` asks for it. A
      session that dies on the CLOSE dies whatever the latches say. */
  method Conclude(conn: Conn, handle: Bytes, readError: bool, writeError: bool, status: int, pflag: bool, mode: bv32)
    returns (r: Outcome<int>, chmod: Option<bv32>, ghost closeStatus: int)
    modifies conn, conn.io
    ensures var p := HandleRequest(FxpClose, old(conn.msgId), handle);
            var c := Exchange(p, AsInt(StatusOf(ReadMsg(old(conn.io.inbox)), old(conn.msgId))));
            && Called(conn, p)
            && (c.Fatal? ==> r == c && chmod.None?)
            && (c.Done? ==>
                  && closeStatus == c.value
                  && r == Done(if readError then status else if writeError then -1 else closeStatus)
                  && chmod == (if pflag && !readError && !writeError then Some(mode) else None))
  {
    chmod, closeStatus := None, 0;
    var c := DoClose(conn, handle);
    if c.Fatal? {
      return c, chmod, closeStatus;
    }
    closeStatus := c.value;
    if readError {
      r := Done(status);
    } else if writeError {
      r := Done(-1);
    } else {
      r := Done(c.value);
      if pflag {
        chmod := Some(mode);
      }
    }
  }

  /** The part of do_download after the OPEN: run the transfer on the
      handle, CLOSE it, and pick the result: the last STATUS when a read
      failed, -1 when a local write failed, else the CLOSE status, with
      the mode to set when `pflag` asks for it. */
  method Fetch(conn: Conn, handle: Bytes, size: u64, local: map<nat, u8>, mode: bv32, pflag: bool,
               writeFails: seq<bool>, sig: Signal)
    returns (r: Outcome<int>, file: map<nat, u8>, chmod: Option<bv32>,
             ghost readLog: seq<Packet>, ghost issued: seq<Req>, ghost extent: nat,
             ghost replies: seq<Reply>, ghost issuedAt: seq<int>, ghost closeStatus: int)
    modifies conn, conn.io
    ensures r.Done? ==>
              var frames := old(conn.io.inbox);
              var closeId := Add32(old(conn.msgId), |readLog|);
              && conn.io.sent == old(conn.io.sent) + readLog + [HandleRequest(FxpClose, closeId, handle)]
              && ReadRun(readLog, handle, old(conn.msgId)) && Requested(issued, readLog, handle)
              && Tiles(issued, extent) && WrittenBelow(file, local, extent)
              && (forall q :: q in issued ==> q.len <= Max(conn.transferBuflen, MinReadSize))
              && Received(frames, replies)
              && (forall k :: 0 <= k < |replies| ==> replies[k].Status? || replies[k].Data?)
              && (replies == [] ==> Interrupted(sig, 0))
              && Counted(issuedAt, |replies|, |issued|, sig, conn.numRequests + 1)
              && AsInt(StatusOf(FrameAt(frames, |replies|), closeId)) == Done(closeStatus)
              && conn.msgId == Inc32(closeId) && conn.io.inbox == Rest(frames[|replies|..])
              && var readError := ReadFailed(replies);
                 var writeError := WriteFailed(writeFails, DataCount(replies));
                 && r.value == (if readError then StatusAfter(replies, 0) else if writeError then -1 else closeStatus)
                 && chmod == (if pflag && !readError && !writeError then Some(mode) else None)
  {
    chmod, readLog, closeStatus := None, [], 0;
    var t := new Transfer(conn, handle, size, local);
    ghost var base := |conn.io.sent|;
    var fatal;
    fatal, replies, issuedAt := t.Drain(sig, writeFails);
    file, issued, extent := t.file, t.issued, t.offset;
    if fatal.Some? {
      return Fatal(fatal.value), file, chmod, readLog, issued, extent, replies, issuedAt, closeStatus;
    }
    // The source's sanity check that the queue is empty cannot fail.
    assert t.requests == [];
    readLog := conn.io.sent[base..];
    assert conn.io.sent == old(conn.io.sent) + readLog;
    assert conn.io.inbox == old(conn.io.inbox)[|replies|..];
    assert conn.msgId == Add32(old(conn.msgId), |readLog|);
    assert ReadRun(readLog, handle, old(conn.msgId)) && Requested(issued, readLog, handle);
    assert Summary(old(conn.io.inbox), replies, conn.io.inbox, t.readError, t.status, t.writeError, writeFails, false, 0, false);
    assert Tiles(issued, extent) && WrittenBelow(file, local, extent);

    var c;
    c, chmod, closeStatus := Conclude(conn, handle, t.readError, t.writeError, t.status, pflag, mode);
    if c.Fatal? {
      return Fatal(c.reason), file, chmod, readLog, issued, extent, replies, issuedAt, closeStatus;
    }
    r := c;
  }

  /** do_download. `local` is the local file before the transfer and
      `file` the local file after it; `writeFails` says, per DATA reply,
      whether the positioned write fails (a failed write changes nothing);
      `chmod` is the mode the source then sets with fchmod. The ghost
      results name what the transfer went through: whether the remote
      file was opened and its handle, the READs sent, the ranges issued
      and how far they reached, the replies handled and the CLOSE status. */
  method DoDownload(conn: Conn, remotePath: CString, local: map<nat, u8>, pflag: bool,
                    writeFails: seq<bool>, sig: Signal)
    returns (r: Outcome<int>, file: map<nat, u8>, chmod: Option<bv32>,
             ghost gotHandle: bool, ghost handle: Bytes, ghost readLog: seq<Packet>, ghost issued: seq<Req>,
             ghost extent: nat, ghost replies: seq<Reply>, ghost issuedAt: seq<int>, ghost closeStatus: int)
    modifies conn, conn.io
    ensures var stat := PathRequest(StatKind(conn.version), old(conn.msgId), remotePath);
            var a := AttrsOf(ReadMsg(old(conn.io.inbox)), old(conn.msgId));
            && (!Fits(stat) ==> r == Fatal(OutboundTooLong))
            && (Fits(stat) && a.Fatal? ==> r == Fatal(a.reason))
            && (Fits(stat) && a.Done? && (a.value.None? || !Downloadable(a.value.value)) ==>
                  && r == Done(-1) && file == local && chmod.None? && !gotHandle
                  && conn.io.sent == old(conn.io.sent) + [stat]
                  && conn.msgId == Inc32(old(conn.msgId)) && conn.io.inbox == Rest(old(conn.io.inbox)))
    ensures var stat := PathRequest(StatKind(conn.version), old(conn.msgId), remotePath);
            var a := AttrsOf(ReadMsg(old(conn.io.inbox)), old(conn.msgId));
            var open := OpenRequest(Inc32(old(conn.msgId)), remotePath, FxfRead, ClearedAttrib);
            var h := HandleOf(ReadMsg(Rest(old(conn.io.inbox))), Inc32(old(conn.msgId)));
            Fits(stat) && a.Done? && a.value.Some? && Downloadable(a.value.value) ==>
              && (!Fits(open) ==> r == Fatal(OutboundTooLong))
              && (Fits(open) && h.Fatal? ==> r == Fatal(h.reason))
              && (Fits(open) && h == Done(None) ==>
                    && r == Done(-1) && file == local && chmod.None? && !gotHandle
                    && conn.io.sent == old(conn.io.sent) + [stat, open]
                    && conn.msgId == Inc32(Inc32(old(conn.msgId))) && conn.io.inbox == Rest(Rest(old(conn.io.inbox))))
              && (gotHandle <==> Fits(open) && h.Done? && h.value.Some?)
              && (gotHandle ==> h == Done(Some(handle)))
    ensures r.Done? && gotHandle ==>
              var stat := PathRequest(StatKind(conn.version), old(conn.msgId), remotePath);
              var a := AttrsOf(ReadMsg(old(conn.io.inbox)), old(conn.msgId));
              var open := OpenRequest(Inc32(old(conn.msgId)), remotePath, FxfRead, ClearedAttrib);
              var frames := Rest(Rest(old(conn.io.inbox)));
              var first := Inc32(Inc32(old(conn.msgId)));
              var closeId := Add32(first, |readLog|);
              && a.Done? && a.value.Some?
              && conn.io.sent == old(conn.io.sent) + [stat, open] + readLog + [HandleRequest(FxpClose, closeId, handle)]
              && ReadRun(readLog, handle, first) && Requested(issued, readLog, handle)
              && Tiles(issued, extent) && WrittenBelow(file, local, extent)
              && (forall q :: q in issued ==> q.len <= Max(conn.transferBuflen, MinReadSize))
              && Received(frames, replies)
              && (forall k :: 0 <= k < |replies| ==> replies[k].Status? || replies[k].Data?)
              && (replies == [] ==> Interrupted(sig, 0))
              && Counted(issuedAt, |replies|, |issued|, sig, conn.numRequests + 1)
              && AsInt(StatusOf(FrameAt(frames, |replies|), closeId)) == Done(closeStatus)
              && conn.msgId == Inc32(closeId) && conn.io.inbox == Rest(frames[|replies|..])
              && var readError := ReadFailed(replies);
                 var writeError := WriteFailed(writeFails, DataCount(replies));
                 && r.value == (if readError then StatusAfter(replies, 0) else if writeError then -1 else closeStatus)
                 && chmod == (if pflag && !readError && !writeError then Some(LocalMode(a.value.value)) else None)
  {
    file, chmod := local, None;
    gotHandle, handle, readLog, issued, extent, replies, issuedAt, closeStatus := false, [], [], [], 0, [], [], 0;
    var a := DoStat(conn, remotePath);
    if a.Fatal? {
      r := Fatal(a.reason);
      return;
    }
    if a.value.None? {
      r := Done(-1);
      return;
    }
    var attrs := a.value.value;
    var mode := LocalMode(attrs);
    if attrs.flags & AttrPermissions != 0 && !IsRegular(attrs.perm) {
      r := Done(-1);
      return;
    }
    var size: u64 := if attrs.flags & AttrSize != 0 then attrs.size else 0;

    var id := conn.NextId();
    var ok := conn.io.SendMsg(OpenRequest(id, remotePath, FxfRead, ClearedAttrib));
    if !ok {
      r := Fatal(OutboundTooLong);
      return;
    }
    var h := conn.io.GetHandle(id);
    if h.Fatal? {
      r := Fatal(h.reason);
      return;
    }
    if h.value.None? {
      r := Done(-1);
      return;
    }
    var hd := h.value.value;
    gotHandle, handle := true, hd;
    ghost var log := conn.io.sent;
    r, file, chmod, readLog, issued, extent, replies, issuedAt, closeStatus := Fetch(conn, hd, size, local, mode, pflag, writeFails, sig);
    assert log + readLog == old(conn.io.sent) + [PathRequest(StatKind(conn.version), old(conn.msgId), remotePath),
                                                OpenRequest(id, remotePath, FxfRead, ClearedAttrib)] + readLog;
  }
}
