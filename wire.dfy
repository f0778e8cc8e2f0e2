/** Wire vocabulary of the SFTP client: C integer widths, the protocol
    constants of draft-ietf-secsh-filexfer-02 as OpenSSH's sftp.h numbers
    them, attribute records, outgoing request packets and decoded replies. */
module Wire {

  const TWO_32: int := 0x1_0000_0000
  const TWO_64: int := 0x1_0000_0000_0000_0000

  type u8 = x: int | 0 <= x < 0x100
  type u32 = x: int | 0 <= x < 0x1_0000_0000
  type u64 = x: int | 0 <= x < 0x1_0000_0000_0000_0000
  type Bytes = seq<u8>

  /** A C string handed in by a caller: text without a NUL in it. */
  type CString = s: string | '\0' !in s

  datatype Option<+T> = None | Some(value: T)

  /** `x++` on a C `u_int`. */
  function Inc32(x: u32): u32 {
    if x == TWO_32 - 1 then 0 else x + 1
  }

  /** `x + k` on a C `u_int`. */
  function Add32(x: u32, k: nat): u32 {
    (x + k) % TWO_32
  }

  /** `x - y` on C `u_int`s. */
  function Sub32(x: u32, y: u32): u32 {
    (x - y) % TWO_32
  }

  /** What a `u_int` status code becomes when the source stores it in an `int`. */
  function ToInt32(x: u32): int {
    if x < 0x8000_0000 then x else x - TWO_32
  }

  /** Euclidean division is determined by quotient and remainder. */
  lemma DivModOf(x: int, q: int, r: int, d: int)
    requires d > 0 && 0 <= r < d && x == q * d + r
    ensures x / d == q && x % d == r
  {
    var k := q - x / d;
    assert k * d == x % d - r;
    assert -d < k * d < d;
  }

  function Min(a: int, b: int): int { if a <= b then a else b }
  function Max(a: int, b: int): int { if a >= b then a else b }

  /** The text a C string function sees: everything before the first NUL. */
  function CPrefix(s: string): (p: string)
    ensures '\0' !in p
    ensures |p| <= |s| && p == s[..|p|]
    ensures |p| < |s| ==> s[|p|] == '\0'
  {
    if s == [] || s[0] == '\0' then [] else [s[0]] + CPrefix(s[1..])
  }

  // Limits (sftp.h and sftp-client.c)
  const MaxMsgLength: int := 256 * 1024
  const MinReadSize: int := 512
  const ClientVersion: u32 := 3
  const Version0Buflen: int := 20480

  // Packet types
  const FxpInit: u8 := 1
  const FxpVersion: u8 := 2
  const FxpOpen: u8 := 3
  const FxpClose: u8 := 4
  const FxpRead: u8 := 5
  const FxpWrite: u8 := 6
  const FxpLstat: u8 := 7
  const FxpStatVersion0: u8 := 7
  const FxpFstat: u8 := 8
  const FxpSetstat: u8 := 9
  const FxpFsetstat: u8 := 10
  const FxpOpendir: u8 := 11
  const FxpReaddir: u8 := 12
  const FxpRemove: u8 := 13
  const FxpMkdir: u8 := 14
  const FxpRmdir: u8 := 15
  const FxpRealpath: u8 := 16
  const FxpStat: u8 := 17
  const FxpRename: u8 := 18
  const FxpReadlink: u8 := 19
  const FxpSymlink: u8 := 20
  const FxpStatus: u8 := 101
  const FxpHandle: u8 := 102
  const FxpData: u8 := 103
  const FxpName: u8 := 104
  const FxpAttrs: u8 := 105
  const FxpExtended: u8 := 200
  const FxpExtendedReply: u8 := 201

  // Status codes
  const FxOk: u32 := 0
  const FxEof: u32 := 1
  const FxNoSuchFile: u32 := 2
  const FxPermissionDenied: u32 := 3
  const FxFailure: u32 := 4
  const FxBadMessage: u32 := 5
  const FxNoConnection: u32 := 6
  const FxConnectionLost: u32 := 7
  const FxOpUnsupported: u32 := 8

  /** What get_status reports when it could not read a matching STATUS. */
  const StatusUnreadable: u32 := 255

  // Attribute flags
  const AttrSize: bv32 := 0x1
  const AttrUidGid: bv32 := 0x2
  const AttrPermissions: bv32 := 0x4
  const AttrAcModTime: bv32 := 0x8

  // Open flags
  const FxfRead: u32 := 0x01
  const FxfWrite: u32 := 0x02
  const FxfCreat: u32 := 0x08
  const FxfTrunc: u32 := 0x10

  // Extension bits of the connection record
  const ExtPosixRename: bv32 := 0x1
  const ExtStatvfs: bv32 := 0x2
  const ExtFstatvfs: bv32 := 0x4

  // File-type bits of a mode word
  const ModeTypeMask: bv32 := 0xF000   // S_IFMT, 0170000
  const ModeRegular: bv32 := 0x8000    // S_IFREG, 0100000
  const PermMask: bv32 := 0x1FF        // 0777
  const DefaultMode: bv32 := 0x1B6     // 0666

  /** S_ISREG */
  predicate IsRegular(mode: bv32) {
    mode & ModeTypeMask == ModeRegular
  }

  /** A file attribute record: each field means something only when its
      flag is set in `flags`. */
  datatype Attrib = Attrib(flags: bv32, size: u64, uid: u32, gid: u32,
                           perm: bv32, atime: u32, mtime: u32)

  /** attrib_clear */
  const ClearedAttrib := Attrib(0, 0, 0, 0, 0, 0, 0)

  /** The raw statvfs@openssh.com reply, eleven 64-bit fields in wire order. */
  datatype StatVfs = StatVfs(bsize: u64, frsize: u64, blocks: u64, bfree: u64,
                             bavail: u64, files: u64, ffree: u64, favail: u64,
                             fsid: u64, flag: u64, namemax: u64)

  datatype NameEntry = NameEntry(filename: string, longname: string, attrs: Attrib)

  datatype ExtPair = ExtPair(name: string, value: string)

  /** One item put in a request after its type byte. */
  datatype Field =
    | Int(v: u32)           // buffer_put_int
    | Int64(v64: u64)       // buffer_put_int64
    | Text(s: string)       // buffer_put_cstring
    | Blob(b: Bytes)        // buffer_put_string
    | Attr(a: Attrib)       // encode_attrib

  /** An outgoing message: its type byte and the fields that follow. */
  datatype Packet = Packet(kind: u8, fields: seq<Field>)

  /** Type bytes that none of the reply decoders below recognises. */
  type OtherKind = k: u8 | k != FxpVersion && k != FxpStatus && k != FxpHandle && k != FxpData
                          && k != FxpName && k != FxpAttrs && k != FxpExtendedReply

  /** An incoming message, already decoded according to its type byte. */
  datatype Reply =
    | Version(version: u32, extensions: seq<ExtPair>)
    | Status(id: u32, code: u32)
    | Handle(id: u32, handle: Bytes)
    | Data(id: u32, data: Bytes)
    | Name(id: u32, names: seq<NameEntry>)
    | Attrs(id: u32, attrs: Attrib)
    | ExtendedReply(id: u32, vfs: StatVfs)
    | Other(kind: OtherKind, id: u32)

  /** The 32-bit word that follows the type byte: the request id, or the
      protocol version in a VERSION message. */
  function ReplyId(r: Reply): u32 {
    match r
    case Version(v, _) => v
    case Status(id, _) => id
    case Handle(id, _) => id
    case Data(id, _) => id
    case Name(id, _) => id
    case Attrs(id, _) => id
    case ExtendedReply(id, _) => id
    case Other(_, id) => id
  }

  /** What one read of the input stream finds: a whole frame whose header
      declared `declared` body bytes, or a frame whose body is cut short.
      An exhausted stream is a short read of the header. */
  datatype Incoming = Whole(declared: u32, reply: Reply) | Truncated(declared: u32)

  /** The outcome of get_msg. */
  datatype MsgRead = Got(reply: Reply) | ShortRead | TooLong(declared: u32)

  /** Why the source calls fatal(). */
  datatype FatalReason =
    | OutboundTooLong      // send_msg: body over the maximum
    | InboundTooLong       // get_msg: declared length over the maximum
    | BufferUnderflow      // parsing a buffer that get_msg could not fill
    | IdMismatch
    | UnexpectedType
    | UnexpectedReply      // do_download: no outstanding request has this id
    | DataOverrun          // do_download: more data than requested
    | UnknownAck           // do_upload: no outstanding write has this id
    | LocalReadFailed      // do_upload: read() on the local source failed
    | OffsetOverflow       // do_upload: the off_t offset went negative

  /** The process-wide `interrupted` flag as the loops of the client see
      it: clear until a signal arrives before poll `n` (counting from 0),
      set at that poll and every later one, since nothing in the client
      clears it. */
  datatype Signal = Never | Before(n: nat)

  predicate Interrupted(sig: Signal, poll: nat) {
    sig.Before? && poll >= sig.n
  }

  /** A result, or the process exit that fatal() performs. */
  datatype Outcome<+T> = Done(value: T) | Fatal(reason: FatalReason)

  function AsInt(o: Outcome<u32>): (r: Outcome<int>)
    ensures o.Fatal? ==> r == Fatal(o.reason)
    ensures o.Done? ==> r == Done(ToInt32(o.value))
  {
    match o
    case Done(v) => Done(ToInt32(v))
    case Fatal(why) => Fatal(why)
  }

  /** Encoded size of an attribute record: the flags word, then only the
      fields whose flag is set (section 5 of draft-ietf-secsh-filexfer-02). */
  function AttribLen(a: Attrib): nat {
    4 + (if a.flags & AttrSize != 0 then 8 else 0)
      + (if a.flags & AttrUidGid != 0 then 8 else 0)
      + (if a.flags & AttrPermissions != 0 then 4 else 0)
      + (if a.flags & AttrAcModTime != 0 then 8 else 0)
  }

  function FieldLen(f: Field): nat {
    match f
    case Int(_) => 4
    case Int64(_) => 8
    case Text(s) => 4 + |s|
    case Blob(b) => 4 + |b|
    case Attr(a) => AttribLen(a)
  }

  function FieldsLen(fs: seq<Field>): nat {
    if fs == [] then 0 else FieldLen(fs[0]) + FieldsLen(fs[1..])
  }

  /** Length of a packet's body on the wire: the type byte and its fields. */
  function BodyLen(p: Packet): nat {
    1 + FieldsLen(p.fields)
  }

  /** send_msg accepts the packet. */
  predicate Fits(p: Packet) {
    BodyLen(p) <= MaxMsgLength
  }

  /** The id a request carries: its first field. */
  function IdOf(p: Packet): u32 {
    if p.fields != [] && p.fields[0].Int? then p.fields[0].v else 0
  }

  // Request builders (send_string_request, send_string_attrs_request and
  // the packets the operations assemble by hand).

  function PathRequest(kind: u8, id: u32, path: string): Packet {
    Packet(kind, [Int(id), Text(path)])
  }

  function HandleRequest(kind: u8, id: u32, handle: Bytes): Packet {
    Packet(kind, [Int(id), Blob(handle)])
  }

  function PathAttrsRequest(kind: u8, id: u32, path: string, a: Attrib): Packet {
    Packet(kind, [Int(id), Text(path), Attr(a)])
  }

  function OpenRequest(id: u32, path: string, pflags: u32, a: Attrib): Packet {
    Packet(FxpOpen, [Int(id), Text(path), Int(pflags), Attr(a)])
  }

  function ReadRequest(id: u32, handle: Bytes, offset: nat, len: u32): Packet {
    Packet(FxpRead, [Int(id), Blob(handle), Int64(offset % TWO_64), Int(len)])
  }

  function WriteRequest(id: u32, handle: Bytes, offset: nat, data: Bytes): Packet {
    Packet(FxpWrite, [Int(id), Blob(handle), Int64(offset % TWO_64), Blob(data)])
  }
}
