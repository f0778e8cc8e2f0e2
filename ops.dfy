/** The metadata operations of the client. Each one that talks to the
    server takes the next id from the connection record, writes one
    request carrying that id and reads one reply, which the matching reader
    of module Correlate judges against that id. */
module Ops {
  import opened Wire
  import opened Correlate
  import opened Client

  /** One request `p` took the connection's next id and made one round
      trip. */
  twostate predicate Called(conn: Conn, p: Packet)
    reads conn, conn.io
  {
    && IdOf(p) == old(conn.msgId)
    && conn.msgId == Inc32(old(conn.msgId))
    && Exchanged(conn.io, p)
  }

  /** Nothing was sent or read and no id was taken. */
  twostate predicate Untouched(conn: Conn)
    reads conn, conn.io
  {
    conn.msgId == old(conn.msgId) && conn.io.sent == old(conn.io.sent) && conn.io.inbox == old(conn.io.inbox)
  }

  /** The opcode that do_rename uses, and the packet it builds: the
      posix-rename@openssh.com extension when the server advertised it,
      the plain RENAME otherwise, both carrying the two paths last. */
  function RenameRequest(posix: bool, id: u32, oldPath: CString, newPath: CString): (p: Packet)
    ensures IdOf(p) == id
    ensures p.kind == FxpExtended <==> posix
    ensures !posix ==> p.kind == FxpRename && |p.fields| == 3
    ensures posix ==> |p.fields| == 4 && p.fields[1] == Text("posix-rename@openssh.com")
    ensures p.fields[|p.fields| - 2..] == [Text(oldPath), Text(newPath)]
  {
    if posix then Packet(FxpExtended, [Int(id), Text("posix-rename@openssh.com"), Text(oldPath), Text(newPath)])
    else Packet(FxpRename, [Int(id), Text(oldPath), Text(newPath)])
  }

  /** The opcode do_stat sends: version 0 servers number STAT as 7. */
  function StatKind(version: u32): (k: u8)
    ensures version == 0 ==> k == FxpStatVersion0
    ensures version != 0 ==> k == FxpStat
  {
    if version == 0 then FxpStatVersion0 else FxpStat
  }

  /** A round trip that sent its request keeps the ids of the session's
      requests consecutive. */
  twostate lemma CalledKeepsIds(conn: Conn, p: Packet, base: nat, first: u32)
    requires old(IdsInStep(conn, base, first))
    requires Called(conn, p) && Fits(p)
    ensures IdsInStep(conn, base, first)
  {
    NextRequestKeepsIds(old(conn.io.sent), base, first, p);
  }

  /** do_close */
  method DoClose(conn: Conn, handle: Bytes) returns (r: Outcome<int>)
    modifies conn, conn.io
    ensures var p := HandleRequest(FxpClose, old(conn.msgId), handle);
            Called(conn, p)
            && r == Exchange(p, AsInt(StatusOf(ReadMsg(old(conn.io.inbox)), old(conn.msgId))))
  {
    var id := conn.NextId();
    var p := HandleRequest(FxpClose, id, handle);
    var ok := conn.io.SendMsg(p);
    if !ok {
      return Fatal(OutboundTooLong);
    }
    var s := conn.io.GetStatus(id);
    r := AsInt(s);
  }

  /** do_rm */
  method DoRm(conn: Conn, path: CString) returns (r: Outcome<int>)
    modifies conn, conn.io
    ensures var p := PathRequest(FxpRemove, old(conn.msgId), path);
            Called(conn, p)
            && r == Exchange(p, AsInt(StatusOf(ReadMsg(old(conn.io.inbox)), old(conn.msgId))))
  {
    var id := conn.NextId();
    var p := PathRequest(FxpRemove, id, path);
    var ok := conn.io.SendMsg(p);
    if !ok {
      return Fatal(OutboundTooLong);
    }
    var s := conn.io.GetStatus(id);
    r := AsInt(s);
  }

  /** do_mkdir */
  method DoMkdir(conn: Conn, path: CString, a: Attrib) returns (r: Outcome<int>)
    modifies conn, conn.io
    ensures var p := PathAttrsRequest(FxpMkdir, old(conn.msgId), path, a);
            Called(conn, p)
            && r == Exchange(p, AsInt(StatusOf(ReadMsg(old(conn.io.inbox)), old(conn.msgId))))
  {
    var id := conn.NextId();
    var p := PathAttrsRequest(FxpMkdir, id, path, a);
    var ok := conn.io.SendMsg(p);
    if !ok {
      return Fatal(OutboundTooLong);
    }
    var s := conn.io.GetStatus(id);
    r := AsInt(s);
  }

  /** do_rmdir */
  method DoRmdir(conn: Conn, path: CString) returns (r: Outcome<int>)
    modifies conn, conn.io
    ensures var p := PathRequest(FxpRmdir, old(conn.msgId), path);
            Called(conn, p)
            && r == Exchange(p, AsInt(StatusOf(ReadMsg(old(conn.io.inbox)), old(conn.msgId))))
  {
    var id := conn.NextId();
    var p := PathRequest(FxpRmdir, id, path);
    var ok := conn.io.SendMsg(p);
    if !ok {
      return Fatal(OutboundTooLong);
    }
    var s := conn.io.GetStatus(id);
    r := AsInt(s);
  }

  /** do_stat: None stands for the source's NULL. */
  method DoStat(conn: Conn, path: CString) returns (r: Outcome<Option<Attrib>>)
    modifies conn, conn.io
    ensures var p := PathRequest(StatKind(conn.version), old(conn.msgId), path);
            Called(conn, p)
            && r == Exchange(p, AttrsOf(ReadMsg(old(conn.io.inbox)), old(conn.msgId)))
  {
    var id := conn.NextId();
    var p := PathRequest(if conn.version == 0 then FxpStatVersion0 else FxpStat, id, path);
    var ok := conn.io.SendMsg(p);
    if !ok {
      return Fatal(OutboundTooLong);
    }
    r := conn.io.GetDecodeStat(id);
  }

  /** do_lstat: a version 0 server has no LSTAT, and the call becomes a
      do_stat. */
  method DoLstat(conn: Conn, path: CString) returns (r: Outcome<Option<Attrib>>)
    modifies conn, conn.io
    ensures var p := PathRequest(if conn.version == 0 then StatKind(0) else FxpLstat, old(conn.msgId), path);
            Called(conn, p)
            && r == Exchange(p, AttrsOf(ReadMsg(old(conn.io.inbox)), old(conn.msgId)))
  {
    if conn.version == 0 {
      r := DoStat(conn, path);
      return;
    }
    var id := conn.NextId();
    var p := PathRequest(FxpLstat, id, path);
    var ok := conn.io.SendMsg(p);
    if !ok {
      return Fatal(OutboundTooLong);
    }
    r := conn.io.GetDecodeStat(id);
  }

  /** do_setstat */
  method DoSetstat(conn: Conn, path: CString, a: Attrib) returns (r: Outcome<int>)
    modifies conn, conn.io
    ensures var p := PathAttrsRequest(FxpSetstat, old(conn.msgId), path, a);
            Called(conn, p)
            && r == Exchange(p, AsInt(StatusOf(ReadMsg(old(conn.io.inbox)), old(conn.msgId))))
  {
    var id := conn.NextId();
    var p := PathAttrsRequest(FxpSetstat, id, path, a);
    var ok := conn.io.SendMsg(p);
    if !ok {
      return Fatal(OutboundTooLong);
    }
    var s := conn.io.GetStatus(id);
    r := AsInt(s);
  }

  /** do_fsetstat: like do_setstat, naming the file by an open handle. */
  method DoFsetstat(conn: Conn, handle: Bytes, a: Attrib) returns (r: Outcome<int>)
    modifies conn, conn.io
    ensures var p := Packet(FxpFsetstat, [Int(old(conn.msgId)), Blob(handle), Attr(a)]);
            Called(conn, p)
            && r == Exchange(p, AsInt(StatusOf(ReadMsg(old(conn.io.inbox)), old(conn.msgId))))
  {
    var id := conn.NextId();
    var p := Packet(FxpFsetstat, [Int(id), Blob(handle), Attr(a)]);
    var ok := conn.io.SendMsg(p);
    if !ok {
      return Fatal(OutboundTooLong);
    }
    var s := conn.io.GetStatus(id);
    r := AsInt(s);
  }

  /** do_realpath: None stands for the source's NULL. */
  method DoRealpath(conn: Conn, path: CString) returns (r: Outcome<Option<string>>)
    modifies conn, conn.io
    ensures var p := PathRequest(FxpRealpath, old(conn.msgId), path);
            Called(conn, p)
            && r == Exchange(p, RealpathOf(ReadMsg(old(conn.io.inbox)), old(conn.msgId)))
  {
    var id := conn.NextId();
    var p := PathRequest(FxpRealpath, id, path);
    var ok := conn.io.SendMsg(p);
    if !ok {
      return Fatal(OutboundTooLong);
    }
    var m := conn.io.GetMsg();
    r := RealpathOf(m, id);
  }

  /** do_rename */
  method DoRename(conn: Conn, oldPath: CString, newPath: CString) returns (r: Outcome<int>)
    modifies conn, conn.io
    ensures var p := RenameRequest(HasPosixRename(conn), old(conn.msgId), oldPath, newPath);
            Called(conn, p)
            && r == Exchange(p, AsInt(StatusOf(ReadMsg(old(conn.io.inbox)), old(conn.msgId))))
  {
    var id := conn.NextId();
    var p;
    if conn.exts & ExtPosixRename != 0 {
      p := Packet(FxpExtended, [Int(id), Text("posix-rename@openssh.com"), Text(oldPath), Text(newPath)]);
    } else {
      p := Packet(FxpRename, [Int(id), Text(oldPath), Text(newPath)]);
    }
    var ok := conn.io.SendMsg(p);
    if !ok {
      return Fatal(OutboundTooLong);
    }
    var s := conn.io.GetStatus(id);
    r := AsInt(s);
  }

  /** do_symlink: servers before version 3 have no SYMLINK, and the call
      answers OP_UNSUPPORTED without a request. */
  method DoSymlink(conn: Conn, oldPath: CString, newPath: CString) returns (r: Outcome<int>)
    modifies conn, conn.io
    ensures conn.version < 3 ==> Untouched(conn) && r == Done(FxOpUnsupported)
    ensures conn.version >= 3 ==>
              var p := Packet(FxpSymlink, [Int(old(conn.msgId)), Text(oldPath), Text(newPath)]);
              Called(conn, p)
              && r == Exchange(p, AsInt(StatusOf(ReadMsg(old(conn.io.inbox)), old(conn.msgId))))
  {
    if conn.version < 3 {
      return Done(FxOpUnsupported);
    }
    var id := conn.NextId();
    var p := Packet(FxpSymlink, [Int(id), Text(oldPath), Text(newPath)]);
    var ok := conn.io.SendMsg(p);
    if !ok {
      return Fatal(OutboundTooLong);
    }
    var s := conn.io.GetStatus(id);
    r := AsInt(s);
  }

  /** do_statvfs: None stands for the source's -1, which it also returns
      without a request when the server did not advertise
      statvfs@openssh.com. */
  method DoStatvfs(conn: Conn, path: CString) returns (r: Outcome<Option<StatVfs>>)
    modifies conn, conn.io
    ensures conn.exts & ExtStatvfs == 0 ==> Untouched(conn) && r == Done(None)
    ensures conn.exts & ExtStatvfs != 0 ==>
              var p := Packet(FxpExtended, [Int(old(conn.msgId)), Text("statvfs@openssh.com"), Text(path)]);
              Called(conn, p)
              && r == Exchange(p, StatVfsOf(ReadMsg(old(conn.io.inbox)), old(conn.msgId)))
  {
    if conn.exts & ExtStatvfs == 0 {
      return Done(None);
    }
    var id := conn.NextId();
    var p := Packet(FxpExtended, [Int(id), Text("statvfs@openssh.com"), Text(path)]);
    var ok := conn.io.SendMsg(p);
    if !ok {
      return Fatal(OutboundTooLong);
    }
    r := conn.io.GetDecodeStatvfs(id);
  }
}
