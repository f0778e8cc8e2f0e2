/** Reply correlation: what get_msg yields for the next incoming frame, and
    how each reply reader (get_status, get_handle, get_decode_stat,
    get_decode_statvfs, and the reply half of do_realpath) turns that frame
    into a result for the request with id `expected`. The readers differ in
    how they fail, and these functions keep those differences. */
module Correlate {
  import opened Wire

  /** get_msg on the input stream. */
  function ReadMsg(inbox: seq<Incoming>): (m: MsgRead)
    ensures m.ShortRead? <==> inbox == [] || (inbox[0].Truncated? && inbox[0].declared <= MaxMsgLength)
    ensures m.TooLong? <==> inbox != [] && inbox[0].declared > MaxMsgLength
    ensures m.TooLong? ==> m.declared == inbox[0].declared
    ensures m.Got? <==> inbox != [] && inbox[0].Whole? && inbox[0].declared <= MaxMsgLength
    ensures m.Got? ==> m.reply == inbox[0].reply
  {
    if inbox == [] then ShortRead
    else if inbox[0].declared > MaxMsgLength then TooLong(inbox[0].declared)
    else if inbox[0].Truncated? then ShortRead
    else Got(inbox[0].reply)
  }

  /** The input stream after one get_msg. */
  function Rest(inbox: seq<Incoming>): (r: seq<Incoming>)
    ensures inbox != [] ==> |r| == |inbox| - 1
  {
    if inbox == [] then [] else inbox[1..]
  }

  /** The reply is the one meant for request `expected`. */
  predicate Answers(m: MsgRead, expected: u32) {
    m.Got? && ReplyId(m.reply) == expected
  }

  /** get_status: never fatal on a wrong reply. A short read, an id
      mismatch and a reply that is not a STATUS all give 255. */
  function StatusOf(m: MsgRead, expected: u32): (r: Outcome<u32>)
    ensures r.Fatal? <==> m.TooLong?
    ensures r.Fatal? ==> r.reason == InboundTooLong
    ensures Answers(m, expected) && m.reply.Status? ==> r == Done(m.reply.code)
    ensures r.Done? && !(Answers(m, expected) && m.reply.Status?) ==> r.value == StatusUnreadable
  {
    match m
    case TooLong(_) => Fatal(InboundTooLong)
    case ShortRead => Done(StatusUnreadable)
    case Got(reply) =>
      if ReplyId(reply) != expected then Done(StatusUnreadable)
      else if !reply.Status? then Done(StatusUnreadable)
      else Done(reply.code)
  }

  /** get_handle: a STATUS means no handle; an id mismatch or any other
      type is fatal, and so is the short read whose -1 it ignores. */
  function HandleOf(m: MsgRead, expected: u32): (r: Outcome<Option<Bytes>>)
    ensures r.Done? <==> Answers(m, expected) && (m.reply.Status? || m.reply.Handle?)
    ensures r.Done? ==> (r.value.Some? <==> m.reply.Handle?)
    ensures r.Done? && r.value.Some? ==> r.value.value == m.reply.handle
    ensures m.Got? && ReplyId(m.reply) != expected ==> r == Fatal(IdMismatch)
  {
    match m
    case TooLong(_) => Fatal(InboundTooLong)
    case ShortRead => Fatal(BufferUnderflow)
    case Got(reply) =>
      if ReplyId(reply) != expected then Fatal(IdMismatch)
      else if reply.Status? then Done(None)
      else if !reply.Handle? then Fatal(UnexpectedType)
      else Done(Some(reply.handle))
  }

  /** get_decode_stat: like get_handle, for an ATTRS reply. */
  function AttrsOf(m: MsgRead, expected: u32): (r: Outcome<Option<Attrib>>)
    ensures r.Done? <==> Answers(m, expected) && (m.reply.Status? || m.reply.Attrs?)
    ensures r.Done? ==> (r.value.Some? <==> m.reply.Attrs?)
    ensures r.Done? && r.value.Some? ==> r.value.value == m.reply.attrs
    ensures m.Got? && ReplyId(m.reply) != expected ==> r == Fatal(IdMismatch)
  {
    match m
    case TooLong(_) => Fatal(InboundTooLong)
    case ShortRead => Fatal(BufferUnderflow)
    case Got(reply) =>
      if ReplyId(reply) != expected then Fatal(IdMismatch)
      else if reply.Status? then Done(None)
      else if !reply.Attrs? then Fatal(UnexpectedType)
      else Done(Some(reply.attrs))
  }

  /** get_decode_statvfs: like get_handle, for an EXTENDED_REPLY; None
      stands for its -1. */
  function StatVfsOf(m: MsgRead, expected: u32): (r: Outcome<Option<StatVfs>>)
    ensures r.Done? <==> Answers(m, expected) && (m.reply.Status? || m.reply.ExtendedReply?)
    ensures r.Done? ==> (r.value.Some? <==> m.reply.ExtendedReply?)
    ensures r.Done? && r.value.Some? ==> r.value.value == m.reply.vfs
    ensures m.Got? && ReplyId(m.reply) != expected ==> r == Fatal(IdMismatch)
  {
    match m
    case TooLong(_) => Fatal(InboundTooLong)
    case ShortRead => Fatal(BufferUnderflow)
    case Got(reply) =>
      if ReplyId(reply) != expected then Fatal(IdMismatch)
      else if reply.Status? then Done(None)
      else if !reply.ExtendedReply? then Fatal(UnexpectedType)
      else Done(Some(reply.vfs))
  }

  /** The reply half of do_realpath: every failure, the id mismatch and a
      NAME that does not hold exactly one name included, gives NULL; only a
      declared length over the maximum is fatal. */
  function RealpathOf(m: MsgRead, expected: u32): (r: Outcome<Option<string>>)
    ensures r.Fatal? <==> m.TooLong?
    ensures r.Done? && r.value.Some? <==> Answers(m, expected) && m.reply.Name? && |m.reply.names| == 1
    ensures r.Done? && r.value.Some? ==> r.value.value == m.reply.names[0].filename
  {
    match m
    case TooLong(_) => Fatal(InboundTooLong)
    case ShortRead => Done(None)
    case Got(reply) =>
      if ReplyId(reply) != expected then Done(None)
      else if reply.Status? then Done(None)
      else if !reply.Name? then Done(None)
      else if |reply.names| != 1 then Done(None)
      else Done(Some(reply.names[0].filename))
  }

  /** The same wrong id is harmless to get_status and fatal to get_handle,
      get_decode_stat and get_decode_statvfs. */
  lemma MismatchContrast(m: MsgRead, expected: u32)
    requires m.Got? && ReplyId(m.reply) != expected
    ensures StatusOf(m, expected) == Done(StatusUnreadable)
    ensures HandleOf(m, expected).Fatal? && AttrsOf(m, expected).Fatal? && StatVfsOf(m, expected).Fatal?
    ensures RealpathOf(m, expected) == Done(None)
  {
  }
}
