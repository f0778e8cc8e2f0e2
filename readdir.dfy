/** The directory lister (do_lsreaddir, reached through do_readdir): an
    OPENDIR, READDIR requests until the server reports EOF or sends an
    empty NAME batch, then a CLOSE of the directory handle (section 6.7 of
    draft-ietf-secsh-filexfer-02). Names holding a '/' are dropped. */
module Readdir {
  import opened Wire
  import opened Correlate
  import opened Client
  import opened Ops

  /** The entry passes the filter: strchr finds no '/' in its file name. */
  predicate Safe(e: NameEntry) {
    '/' !in CPrefix(e.filename)
  }

  /** The entries of one NAME batch that the lister stores, in order. */
  function Kept(names: seq<NameEntry>): (r: seq<NameEntry>)
    ensures |r| <= |names|
  {
    if names == [] then []
    else
      var last := names[|names| - 1];
      Kept(names[..|names| - 1]) + (if Safe(last) then [last] else [])
  }

  /** The NAME batches received, one after the other. */
  function Flatten(batches: seq<seq<NameEntry>>): (r: seq<NameEntry>)
    ensures batches == [] ==> r == []
  {
    if batches == [] then [] else Flatten(batches[..|batches| - 1]) + batches[|batches| - 1]
  }

  /** An entry is stored exactly when the server sent it and it passes the
      filter: the other entries of a batch survive a dropped one. */
  lemma {:induction false} KeptMembers(names: seq<NameEntry>, e: NameEntry)
    ensures e in Kept(names) <==> e in names && Safe(e)
  {
    if names != [] {
      var init, last := names[..|names| - 1], names[|names| - 1];
      KeptMembers(init, e);
      assert names == init + [last];
    }
  }

  /** The filter works entry by entry, so it splits over a concatenation. */
  lemma {:induction false} KeptAppend(a: seq<NameEntry>, b: seq<NameEntry>)
    ensures Kept(a + b) == Kept(a) + Kept(b)
    decreases |b|
  {
    if b != [] {
      var init, last := b[..|b| - 1], b[|b| - 1];
      assert (a + b)[..|a + b| - 1] == a + init;
      assert (a + b)[|a + b| - 1] == last;
      KeptAppend(a, init);
      var tail := if Safe(last) then [last] else [];
      calc {
        Kept(a + b);
        Kept(a + init) + tail;
        (Kept(a) + Kept(init)) + tail;
        Kept(a) + (Kept(init) + tail);
        Kept(a) + Kept(b);
      }
    } else {
      assert a + b == a;
    }
  }

  lemma KeptPrefix(names: seq<NameEntry>, i: nat)
    requires i < |names|
    ensures Kept(names[..i + 1]) == Kept(names[..i]) + (if Safe(names[i]) then [names[i]] else [])
  {
    assert names[..i + 1][..i] == names[..i];
  }

  /** Every stored entry passes the filter, in whatever batches it came. */
  lemma StoredAreSafe(batches: seq<seq<NameEntry>>)
    ensures forall e :: e in Kept(Flatten(batches)) ==> Safe(e)
  {
    forall e | e in Kept(Flatten(batches))
      ensures Safe(e)
    {
      KeptMembers(Flatten(batches), e);
    }
  }

  /** The inner loop of the lister over one NAME batch: entries whose
      name holds a '/' are skipped, the others appended. */
  method StoreBatch(entries: seq<NameEntry>, names: seq<NameEntry>) returns (stored: seq<NameEntry>)
    ensures stored == entries + Kept(names)
  {
    stored := entries;
    var i := 0;
    while i < |names|
      invariant 0 <= i <= |names|
      invariant stored == entries + Kept(names[..i])
    {
      KeptPrefix(names, i);
      if '/' !in CPrefix(names[i].filename) {
        stored := stored + [names[i]];
      }
      i := i + 1;
    }
    assert names[..i] == names;
  }

  /** The READDIR requests the lister sent: each names the directory's
      handle, and they carry consecutive ids. */
  ghost predicate ReaddirRun(readdirs: seq<Packet>, handle: Bytes, first: u32) {
    && (forall k :: 0 <= k < |readdirs| ==> readdirs[k] == HandleRequest(FxpReaddir, IdOf(readdirs[k]), handle))
    && Sequential(readdirs, first)
  }

  /** A READDIR under the next id extends the run of READDIR requests. */
  lemma ReaddirRunExtend(readdirs: seq<Packet>, handle: Bytes, first: u32, rq: Packet)
    requires ReaddirRun(readdirs, handle, first)
    requires rq == HandleRequest(FxpReaddir, Add32(first, |readdirs|), handle)
    ensures ReaddirRun(readdirs + [rq], handle, first)
    ensures Inc32(IdOf(rq)) == Add32(first, |readdirs + [rq]|)
  {
    NextRequestKeepsIds(readdirs, 0, first, rq);
    assert readdirs[0..] == readdirs && (readdirs + [rq])[0..] == readdirs + [rq];
  }

  /** Storing the filtered entries of one more batch keeps the stored
      entries those of all batches so far. */
  lemma StoredExtend(batches: seq<seq<NameEntry>>, names: seq<NameEntry>)
    ensures Kept(Flatten(batches + [names])) == Kept(Flatten(batches)) + Kept(names)
  {
    assert Flatten(batches + [names]) == Flatten(batches) + names by {
      assert (batches + [names])[..|batches|] == batches;
    }
    KeptAppend(Flatten(batches), names);
  }

  /** What the lister makes of one READDIR reply. */
  datatype Batch = Names(names: seq<NameEntry>) | Ended | Failed(code: u32)

  /** The reply half of one READDIR round trip: EOF and an empty NAME end
      the listing, another STATUS fails it, a NAME carries a batch; an id
      mismatch, any other type and a short read are fatal. */
  function BatchOf(m: MsgRead, expected: u32): (r: Outcome<Batch>)
    ensures r.Done? <==> Answers(m, expected) && (m.reply.Status? || m.reply.Name?)
    ensures r.Done? && r.value.Names? <==> Answers(m, expected) && m.reply.Name? && m.reply.names != []
    ensures r.Done? && r.value.Names? ==> r.value.names == m.reply.names
    ensures r.Done? && r.value.Failed? <==> Answers(m, expected) && m.reply.Status? && m.reply.code != FxEof
    ensures r.Done? && r.value.Failed? ==> r.value.code == m.reply.code
    ensures m.Got? && ReplyId(m.reply) != expected ==> r == Fatal(IdMismatch)
  {
    match m
    case TooLong(_) => Fatal(InboundTooLong)
    case ShortRead => Fatal(BufferUnderflow)
    case Got(reply) =>
      if ReplyId(reply) != expected then Fatal(IdMismatch)
      else if reply.Status? then (if reply.code == FxEof then Done(Ended) else Done(Failed(reply.code)))
      else if !reply.Name? then Fatal(UnexpectedType)
      else if |reply.names| == 0 then Done(Ended)
      else Done(Names(reply.names))
  }

  /** One READDIR round trip of the lister on `handle`. */
  method ReaddirOnce(conn: Conn, handle: Bytes) returns (r: Outcome<Batch>)
    modifies conn, conn.io
    ensures var p := HandleRequest(FxpReaddir, old(conn.msgId), handle);
            Called(conn, p)
            && r == Exchange(p, BatchOf(ReadMsg(old(conn.io.inbox)), old(conn.msgId)))
  {
    var id := conn.NextId();
    var p := HandleRequest(FxpReaddir, id, handle);
    var ok := conn.io.SendMsg(p);
    if !ok {
      return Fatal(OutboundTooLong);
    }
    var m := conn.io.GetMsg();
    if m.TooLong? {
      return Fatal(InboundTooLong);
    }
    if m.ShortRead? {
      return Fatal(BufferUnderflow);
    }
    var reply := m.reply;
    if ReplyId(reply) != id {
      return Fatal(IdMismatch);
    }
    if reply.Status? {
      if reply.code == FxEof {
        return Done(Ended);
      }
      return Done(Failed(reply.code));
    }
    if !reply.Name? {
      return Fatal(UnexpectedType);
    }
    if |reply.names| == 0 {
      return Done(Ended);
    }
    r := Done(Names(reply.names));
  }

  /** The reading of the frame that answers the READDIR sent after `n`
      batches, that READDIR carrying id `first + n`. */
  ghost function After(frames: seq<Incoming>, first: u32, n: nat): Outcome<Batch> {
    BatchOf(ReadMsg(if n <= |frames| then frames[n..] else []), Add32(first, n))
  }

  /** The first |batches| frames of `frames` answer READDIRs under ids
      `first`, `first + 1`, ..., each with a NAME batch that does not end
      the listing, the k-th carrying batches[k]. */
  ghost predicate Listed(frames: seq<Incoming>, first: u32, batches: seq<seq<NameEntry>>) {
    && |batches| <= |frames|
    && forall k :: 0 <= k < |batches| ==> After(frames, first, k) == Done(Names(batches[k]))
  }

  /** One more NAME batch read from the next frame extends the listing. */
  lemma ListedExtend(frames: seq<Incoming>, first: u32, batches: seq<seq<NameEntry>>, names: seq<NameEntry>)
    requires Listed(frames, first, batches)
    requires After(frames, first, |batches|) == Done(Names(names))
    ensures Listed(frames, first, batches + [names])
    ensures Rest(frames[|batches|..]) == frames[|batches| + 1..]
  {
    assert ReadMsg(frames[|batches|..]).Got?;
  }

  /** The READDIR loop of the lister on the open handle `handle`. Done(None)
      is a normal end (EOF, an empty NAME batch or an interrupt seen at
      the head of the loop); Done(Some(code)) is a STATUS other than EOF,
      on which the lister closes the handle and gives up. `polls` counts
      the tests of `interrupted`: the n-th test (from 0) comes after n
      batches. */
  method ReadBatches(conn: Conn, handle: Bytes, sig: Signal)
    returns (r: Outcome<Option<u32>>, entries: seq<NameEntry>, polls: nat,
             ghost readdirs: seq<Packet>, ghost batches: seq<seq<NameEntry>>)
    modifies conn, conn.io
    ensures Listed(old(conn.io.inbox), old(conn.msgId), batches)
    ensures entries == Kept(Flatten(batches))
    ensures |batches| > 0 ==> !Interrupted(sig, |batches| - 1)
    ensures r.Done? ==>
              && ReaddirRun(readdirs, handle, old(conn.msgId))
              && conn.io.sent == old(conn.io.sent) + readdirs
              && conn.msgId == Add32(old(conn.msgId), |readdirs|)
              && |readdirs| <= |old(conn.io.inbox)| && conn.io.inbox == old(conn.io.inbox)[|readdirs|..]
              && polls == |batches| + 1
    ensures r.Done? ==>
              var n, last := |batches|, After(old(conn.io.inbox), old(conn.msgId), |batches|);
              && (|readdirs| == n ==> Interrupted(sig, n) && r.value.None?)
              && (|readdirs| != n ==>
                    && |readdirs| == n + 1 && !Interrupted(sig, n) && last.Done?
                    && (last.value.Ended? ==> r.value.None?)
                    && (last.value.Failed? ==> r.value == Some(last.value.code))
                    && !last.value.Names?)
    ensures r.Fatal? ==>
              var n := |batches|;
              && !Interrupted(sig, n)
              && var e := Exchange(HandleRequest(FxpReaddir, Add32(old(conn.msgId), n), handle),
                                   After(old(conn.io.inbox), old(conn.msgId), n));
                 e.Fatal? && r.reason == e.reason
  {
    ghost var first, frames := conn.msgId, conn.io.inbox;
    r, entries, polls, readdirs, batches := Done(None), [], 0, [], [];
    while true
      invariant conn.io.sent == old(conn.io.sent) + readdirs
      invariant ReaddirRun(readdirs, handle, first)
      invariant conn.msgId == Add32(first, |readdirs|)
      invariant |readdirs| == |batches| && polls == |batches|
      invariant Listed(frames, first, batches) && conn.io.inbox == frames[|batches|..]
      invariant |batches| > 0 ==> !Interrupted(sig, |batches| - 1)
      invariant entries == Kept(Flatten(batches))
      invariant r == Done(None)
      decreases |conn.io.inbox|
    {
      var stop := Interrupted(sig, polls);
      polls := polls + 1;
      if stop {
        break;
      }
      ghost var rq := HandleRequest(FxpReaddir, conn.msgId, handle);
      var b := ReaddirOnce(conn, handle);
      if b.Fatal? {
        r := Fatal(b.reason);
        break;
      }
      ReaddirRunExtend(readdirs, handle, first, rq);
      readdirs := readdirs + [rq];
      if b.value.Ended? {
        break;
      }
      if b.value.Failed? {
        r := Done(Some(b.value.code));
        break;
      }
      var names := b.value.names;
      ListedExtend(frames, first, batches, names);
      entries := StoreBatch(entries, names);
      StoredExtend(batches, names);
      batches := batches + [names];
    }
  }

  /** do_readdir. None for `dir` stands for the -1 of a failed OPENDIR,
      where the source leaves `*dir` untouched. The ghost results say
      which handle the OPENDIR gave, which READDIR requests were sent and
      which NAME batches arrived; the frames after the OPENDIR's reply
      answer the READDIRs in order. */
  method DoReaddir(conn: Conn, path: CString, sig: Signal)
    returns (r: Outcome<int>, dir: Option<seq<NameEntry>>,
             ghost handle: Bytes, ghost readdirs: seq<Packet>, ghost batches: seq<seq<NameEntry>>)
    modifies conn, conn.io
    ensures dir.Some? ==> r.Done?
    ensures var open := PathRequest(FxpOpendir, old(conn.msgId), path);
            var h := HandleOf(ReadMsg(old(conn.io.inbox)), old(conn.msgId));
            && (r.Done? && dir.None? <==> Fits(open) && h == Done(None))
            && (dir.Some? ==> Fits(open) && h == Done(Some(handle)))
            && (r.Fatal? && !Fits(open) ==> r == Fatal(OutboundTooLong))
            && (r.Fatal? && Fits(open) && h.Fatal? ==> r == Fatal(h.reason))
    ensures r.Done? && dir.None? ==>
              && r.value == -1
              && conn.io.sent == old(conn.io.sent) + [PathRequest(FxpOpendir, old(conn.msgId), path)]
              && conn.msgId == Inc32(old(conn.msgId))
              && conn.io.inbox == Rest(old(conn.io.inbox))
    ensures dir.Some? ==>
              var first := Inc32(old(conn.msgId));
              && ReaddirRun(readdirs, handle, first)
              && conn.io.sent == old(conn.io.sent) + [PathRequest(FxpOpendir, old(conn.msgId), path)]
                                 + readdirs + [HandleRequest(FxpClose, Add32(first, |readdirs|), handle)]
              && conn.msgId == Inc32(Add32(first, |readdirs|))
              && |readdirs| <= |Rest(old(conn.io.inbox))|
              && var closing := Rest(old(conn.io.inbox))[|readdirs|..];
                 && StatusOf(ReadMsg(closing), Add32(first, |readdirs|)).Done?
                 && conn.io.inbox == Rest(closing)
    ensures dir.Some? ==>
              var frames, first, n := Rest(old(conn.io.inbox)), Inc32(old(conn.msgId)), |batches|;
              var last := After(frames, first, n);
              var failed := |readdirs| == n + 1 && last.Done? && last.value.Failed?;
              && Listed(frames, first, batches)
              && (n > 0 ==> !Interrupted(sig, n - 1))
              && (|readdirs| == n ==> Interrupted(sig, n))
              && (|readdirs| != n ==> |readdirs| == n + 1 && !Interrupted(sig, n) && last.Done? && !last.value.Names?)
              && (failed ==> r.value == ToInt32(last.value.code) && dir.value == Kept(Flatten(batches)))
              && (!failed ==> r.value == 0
                              && dir.value == (if Interrupted(sig, n + 1) then [] else Kept(Flatten(batches))))
    ensures dir.Some? ==> forall e :: e in dir.value ==> Safe(e)
  {
    handle, readdirs, batches := [], [], [];
    var id := conn.NextId();
    var open := PathRequest(FxpOpendir, id, path);
    var ok := conn.io.SendMsg(open);
    if !ok {
      return Fatal(OutboundTooLong), None, handle, readdirs, batches;
    }
    var h := conn.io.GetHandle(id);
    if h.Fatal? {
      return Fatal(h.reason), None, handle, readdirs, batches;
    }
    if h.value.None? {
      return Done(-1), None, handle, readdirs, batches;
    }
    var hd := h.value.value;
    handle := hd;
    ghost var sent0 := conn.io.sent;
    var ended, entries, polls;
    ended, entries, polls, readdirs, batches := ReadBatches(conn, hd, sig);
    if ended.Fatal? {
      return Fatal(ended.reason), None, handle, readdirs, batches;
    }
    ghost var closeId := conn.msgId;
    var c := DoClose(conn, hd);
    if c.Fatal? {
      return Fatal(c.reason), None, handle, readdirs, batches;
    }
    assert conn.io.sent == sent0 + readdirs + [HandleRequest(FxpClose, closeId, hd)];
    StoredAreSafe(batches);
    if ended.value.Some? {
      return Done(ToInt32(ended.value.value)), Some(entries), handle, readdirs, batches;
    }
    if Interrupted(sig, polls) {
      entries := [];
    }
    return Done(0), Some(entries), handle, readdirs, batches;
  }
}
