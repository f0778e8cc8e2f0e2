# SFTP client core, modelled in Dafny

This project models the client side of the SSH File Transfer Protocol as
`sftp/sftp-client.c` implements it. That means protocol versions 0 to 3 of
draft-ietf-secsh-filexfer-02, plus the OpenSSH extensions
`posix-rename@openssh.com`, `statvfs@openssh.com` and
`fstatvfs@openssh.com`. The model proves properties of it.

The connection record `struct sftp_conn` becomes the class `Client.Conn`:

- Its only mutable field is `msgId`. The fields fixed by `do_init` are constants.
- The two file descriptors become one `Client.Streams` object. It holds the log of requests written so far (`sent`) and the scripted frames the server still has to deliver (`inbox`).
- `fatal()` becomes the `Fatal` case of `Wire.Outcome`, carrying the reason.
- The process-wide `interrupted` flag becomes a `Wire.Signal` argument. The client never clears the flag, so a `Signal` is either never set or set from a given poll onwards.

The modules follow the file's structure:

| module | what it holds |
|---|---|
| `Wire` | C integer widths and their wrap-around, the protocol constants, attribute records, request packets and decoded replies |
| `Frame` | the 4-byte big-endian length prefix of `send_msg` and `get_msg`, on raw bytes |
| `Correlate` | `get_msg` on the scripted input, and the reply half of `get_status`, `get_handle`, `get_decode_stat`, `get_decode_statvfs` and `do_realpath`, each with its own failure behaviour |
| `Extensions` | the extension table of `do_init` as a fold into the `exts` bit set |
| `Client` | the streams, the connection record, id allocation, `do_init` and `sftp_has_posix_rename` |
| `Ops` | the metadata operations, each one round trip under the next id |
| `Readdir` | `do_lsreaddir` as `do_readdir` calls it |
| `Window` | the queue of outstanding requests that both transfers keep, and the tiling of the ranges they issue |
| `Download` | `do_download`, with its loop state as the class `Transfer` |
| `Upload` | `do_upload`, with its loop state as the class `Writer` |

Every method that talks to the server states:

- the packets it appends to `sent`;
- which frames of `inbox` it read;
- its result, as a function of those frames.

The one-round-trip operations (`Ops`, `Client.DoInit`) also state the new `msgId`, the input left, and every outcome, fatal or not. The loops are stated as follows:

- The directory loop, the upload loop and the download loop return, as ghost results, the replies they consumed in order. `Readdir.Listed`, `Upload.Acked` and `Download.Received` tie those replies to the frames of `inbox`.
- Why a loop kills the session is stated per frame. See `Readdir.ReadBatches`, `Upload.Writer.AwaitAck`, and `Download.Verdict` as `Download.Transfer.Drain` applies it.
- `Readdir.DoReaddir`, `Upload.DoUpload` and `Download.DoDownload` state every fatal outcome of their STAT or OPEN step. A listing or transfer they report as done read each frame it consumed, the CLOSE's reply included, without dying, and they state the input left. For a session that dies later, they state only that it died; the loop methods above say on which frame.

The pure functions they rely on carry the properties. These include:

- the frame round trip;
- the exactness of the extension bits;
- the tiling of issued ranges;
- that transferred ranges carry exactly their prefix of the local file;
- that ids are consecutive modulo 2^32;
- the directory filter.

## Behaviour of the code that the model keeps

- **Id matching.** The code reads exactly one frame per request and never skips a reply. What a wrong id does depends on the reader:
  - `get_status` returns 255 on a mismatch, a wrong type or a short read (`Correlate.StatusOf`).
  - `do_realpath` returns NULL in those cases (`Correlate.RealpathOf`).
  - Only `get_handle`, `get_decode_stat`, `get_decode_statvfs`, the directory loop and the transfers call `fatal`.
- **Upload status.** Each ack overwrites `status`, so a failed write can be forgotten (see Findings).
- **Upload drain schedule.** The loop waits for one ack in three cases:
  - after the first WRITE (`id == startid`);
  - on every pass that read nothing;
  - whenever `id - ackid >= num_requests` in `u_int` arithmetic.
- **Ids.** Ids wrap as a `u_int`. The upload also numbers its WRITEs with a local counter that it never writes back. So the FSETSTAT or CLOSE that follows reuses the first WRITE's id (`Upload.DoUpload`).
- **Download request size.** After a short DATA reply the request size becomes `MAX(512, len)`. So a transfer length below 512 grows to 512 (`Download.ShrunkBuflen`).
- **Download window.** `max_req` grows while `max_req <= num_requests`, so it can reach `num_requests + 1` (`Download.NextMaxReq`). If `num_requests` is the largest `u_int`, it wraps to 0 (`Download.WindowWrap`).
- **Directory listing.** A STATUS other than EOF closes the handle and returns that status. The entries gathered so far stay in `*dir` (`Readdir.DoReaddir`).
- **Interrupted upload.** It returns the usual result of its acks and CLOSE, which is 0 when all of them succeeded (`Upload.DoUpload`).

## Model

| member | source | states |
|---|---|---|
| Frame.SendFrame | sftp/sftp-client.c:67-87 | a body is refused exactly when it is longer than the maximum; otherwise the frame is a 4-byte length equal to the body's length, then the body |
| Frame.ReceiveFrame | sftp/sftp-client.c:89-116 | fewer than 4 bytes is a short header; a declared length over the maximum is fatal; a body cut short is a short read; otherwise one whole message and the rest of the stream |
| Frame.GetPut | sftp/sftp-client.c:77 | reading back a big-endian word gives the length that was written |
| Frame.PutGet | sftp/sftp-client.c:103 | any 4 header bytes are the encoding of the length read from them |
| Frame.RoundTrip | sftp/sftp-client.c:67-116 | a frame that send_msg emits is read back whole by get_msg, whatever follows it |
| Frame.CutFrame | sftp/sftp-client.c:94-114 | a stream that stops inside an emitted frame is a short read of the header or of the body, as the cut point says |
| Frame.OversizedHeader | sftp/sftp-client.c:103-105 | a header declaring more than the maximum is fatal before any body byte is read |
| Correlate.ReadMsg | sftp/sftp-client.c:89-116 | get_msg gives a short read, a fatal oversize or the next reply, each exactly in its case |
| Correlate.StatusOf | sftp/sftp-client.c:149-179 | the STATUS code when the reply answers the id and is a STATUS; 255 for a short read, a wrong id or a wrong type; fatal only for an oversized frame |
| Correlate.HandleOf | sftp/sftp-client.c:181-209 | a handle exactly for a matching HANDLE; NULL exactly for a matching STATUS; fatal on a wrong id, a wrong type or a short read |
| Correlate.AttrsOf | sftp/sftp-client.c:211-244 | the attributes exactly for a matching ATTRS; NULL exactly for a matching STATUS; fatal otherwise |
| Correlate.StatVfsOf | sftp/sftp-client.c:246-295 | the statvfs record exactly for a matching EXTENDED_REPLY; -1 exactly for a matching STATUS; fatal otherwise |
| Correlate.RealpathOf | sftp/sftp-client.c:686-729 | the name exactly when a matching NAME holds one entry; NULL for every other reply; fatal only for an oversized frame |
| Correlate.MismatchContrast | sftp/sftp-client.c:161-194 | one wrong id gives 255 from get_status and NULL from do_realpath, but is fatal to the handle, stat and statvfs readers |
| Extensions.PairBitsExact | sftp/sftp-client.c:332-344 | despite the missing `else` before the fstatvfs test, a pair contributes exactly the bit of the one table entry it matches and no other bit |
| Extensions.ExtsOfExact | sftp/sftp-client.c:326-353 | a bit of `exts` is set if and only if some advertised pair contributes it; bits outside the table are never set |
| Extensions.ExtsOfMatches | sftp/sftp-client.c:326-353 | each bit is set if and only if some pair matches its name and revision under strcmp |
| Extensions.UnknownPairIgnored | sftp/sftp-client.c:330-350 | an unrecognised pair leaves `exts` unchanged |
| Client.Streams.SendMsg | sftp/sftp-client.c:67-87 | succeeds exactly when the body fits, and then appends the packet to the output log; the input is untouched |
| Client.Streams.GetMsg | sftp/sftp-client.c:89-116 | returns the reading of the first frame and consumes it |
| Client.Streams.GetStatus | sftp/sftp-client.c:149-179 | consumes one frame and returns its get_status result |
| Client.Streams.GetHandle | sftp/sftp-client.c:181-209 | consumes one frame and returns its get_handle result |
| Client.Streams.GetDecodeStat | sftp/sftp-client.c:211-244 | consumes one frame and returns its get_decode_stat result |
| Client.Streams.GetDecodeStatvfs | sftp/sftp-client.c:246-295 | consumes one frame and returns its get_decode_statvfs result |
| Client.SequentialAppend | sftp/sftp-client.c:60 | two runs of consecutive ids, the second starting where the first stopped, form one run modulo 2^32 |
| Client.NextRequestKeepsIds | sftp/sftp-client.c:387 | a request under the current msg_id extends the consecutive run of the session's requests, and msg_id moves to the next id |
| Client.Conn.NextId | sftp/sftp-client.c:387 | `msg_id++` returns the old id and advances it by one modulo 2^32 |
| Client.HasPosixRename | sftp/sftp-client.c:1327-1331 | true exactly when the posix-rename bit is set |
| Client.AddPair | sftp/sftp-client.c:330-344 | one pass of the extension loop ors in exactly the pair's bits |
| Client.FoldExtensions | sftp/sftp-client.c:326-353 | the loop over the advertised pairs computes the `exts` fold |
| Client.DoInit | sftp/sftp-client.c:297-371 | sends INIT with version 3; NULL on a short read or a reply that is not VERSION; otherwise a new record with the server's version, the folded `exts`, msg_id 1, and the transfer length clamped to 20480 on version 0 |
| Client.ProtoVersionNegotiated | sftp/sftp-client.c:373-377 | the version sftp_proto_version reports is the one the server announced in its VERSION reply |
| Ops.RenameRequest | sftp/sftp-client.c:739-750 | EXTENDED posix-rename when the bit is set, plain RENAME otherwise; the two paths come last either way |
| Ops.StatKind | sftp/sftp-client.c:600-602 | STAT_VERSION_0 on a version 0 server, STAT otherwise |
| Ops.CalledKeepsIds | sftp/sftp-client.c:379-401 | an operation that made its round trip keeps the session's ids consecutive |
| Ops.DoClose | sftp/sftp-client.c:379-401 | takes one id, sends CLOSE with the handle, and returns get_status of the next frame for that id |
| Ops.DoRm | sftp/sftp-client.c:545-559 | takes one id, sends REMOVE, and returns the status for that id |
| Ops.DoMkdir | sftp/sftp-client.c:561-575 | takes one id, sends MKDIR with the attributes, and returns the status for that id |
| Ops.DoRmdir | sftp/sftp-client.c:577-591 | takes one id, sends RMDIR, and returns the status for that id |
| Ops.DoStat | sftp/sftp-client.c:593-605 | takes one id, sends the version's STAT opcode, and returns the attributes or NULL for that id |
| Ops.DoLstat | sftp/sftp-client.c:607-625 | on version 0 behaves as do_stat; otherwise sends LSTAT under one id |
| Ops.DoSetstat | sftp/sftp-client.c:641-656 | takes one id, sends SETSTAT with the attributes, and returns the status |
| Ops.DoFsetstat | sftp/sftp-client.c:658-673 | takes one id, sends FSETSTAT on the handle, and returns the status |
| Ops.DoRealpath | sftp/sftp-client.c:675-729 | takes one id, sends REALPATH, and returns the single name or NULL |
| Ops.DoRename | sftp/sftp-client.c:731-763 | takes one id, sends the rename packet the extension bit selects, and returns the status |
| Ops.DoSymlink | sftp/sftp-client.c:765-795 | below version 3 returns OP_UNSUPPORTED with no request and no id taken; otherwise one SYMLINK round trip |
| Ops.DoStatvfs | sftp/sftp-client.c:846-870 | without the statvfs bit returns -1 with no request and no id taken; otherwise one EXTENDED statvfs round trip |
| Readdir.KeptMembers | sftp/sftp-client.c:477-510 | an entry is stored if and only if the server sent it and its name has no '/'; the rest of a batch survives a dropped entry |
| Readdir.KeptAppend | sftp/sftp-client.c:477-510 | the filter works entry by entry, so it splits over a concatenation |
| Readdir.StoredAreSafe | sftp/sftp-client.c:493-497 | no stored entry has a '/' in its name |
| Readdir.StoreBatch | sftp/sftp-client.c:477-510 | the inner loop appends exactly the batch's entries that pass the filter, in order |
| Readdir.ReaddirRunExtend | sftp/sftp-client.c:433-441 | a READDIR under the next id extends the run of READDIRs on the handle |
| Readdir.StoredExtend | sftp/sftp-client.c:473-510 | storing one more batch keeps the stored entries those of all batches so far |
| Readdir.ListedExtend | sftp/sftp-client.c:445-475 | a NAME batch read from the next frame extends the record of batches, and the input moves on by one frame |
| Readdir.BatchOf | sftp/sftp-client.c:445-475 | EOF or an empty NAME ends the listing; another STATUS is a failure with its code; a NAME carries its entries; a wrong id, a wrong type or a short read is fatal |
| Readdir.ReaddirOnce | sftp/sftp-client.c:433-475 | one READDIR on the handle under the next id, read by BatchOf |
| Readdir.ReadBatches | sftp/sftp-client.c:432-511 | the k-th batch stored is what the k-th frame answered to a READDIR under id `first + k`; the READDIRs sent are consecutive, on the handle, one per frame read; the loop stops on an interrupt only at the poll after the last batch, and otherwise on EOF or an empty NAME, on a failed STATUS with its code, or fatally with the reason of the frame read; stored entries are the filtered batches |
| Readdir.DoReaddir | sftp/sftp-client.c:404-531 | OPENDIR; -1 exactly when it gives no handle, fatal as get_handle says; otherwise the READDIRs answered by the frames after the OPENDIR's reply, then one CLOSE on the handle under the next id whose reply, the frame after the READDIRs' replies, get_status reads without dying, leaving the input after it; on the -1 path one frame is consumed; a failed STATUS returns its code with the entries kept so far; otherwise 0, with the list emptied exactly when the interrupt flag is seen after the loop; stored entries are safe |
| Window.TilesDisjoint | sftp/sftp-client.c:1017-1026 | issued ranges never overlap |
| Window.TilesBound | sftp/sftp-client.c:1017-1026 | every issued range lies below the offset |
| Window.TilesCover | sftp/sftp-client.c:1017-1026 | every byte below the offset lies in some issued range |
| Window.TilesExtend | sftp/sftp-client.c:1018-1021 | a range issued at the offset keeps the ranges tiling, up to the advanced offset |
| Window.ConsecutiveExtend | sftp/sftp-client.c:1018 | a request under the next id extends the consecutive run |
| Window.FirstMatch | sftp/sftp-client.c:1034-1040 | the position of the first queued request carrying the id: no earlier request carries it, and there is none exactly when no request does |
| Window.FindRequest | sftp/sftp-client.c:1034-1040 | the search loop finds exactly FirstMatch: the first queued request with the id, or none exactly when no request carries it |
| Window.BelowRemove | sftp/sftp-client.c:1048-1050 | removing a request keeps the queue below the offset |
| Window.BelowReplace | sftp/sftp-client.c:1080-1082 | a re-request that ends where the old one ended keeps the queue below the offset |
| Window.BelowAppend | sftp/sftp-client.c:1017-1023 | fresh requests below a larger offset keep the queue below it |
| Download.ReadsOfAt | sftp/sftp-client.c:900-915 | the k-th READ packet of a run is the READ for the k-th request |
| Download.ReadsOfAppend | sftp/sftp-client.c:1012-1026 | the READs of two runs are the READs of each, in order |
| Download.ConsecutiveReads | sftp/sftp-client.c:1018-1025 | requests with consecutive ids go out as a run of READs on the handle with those ids |
| Download.WriteAt | sftp/sftp-client.c:1060-1061 | after a positioned write, the written bytes are at their offsets and every other byte is as before |
| Download.LocalMode | sftp/sftp-client.c:943-947 | the remote permission bits masked to 0777 when present, else 0666; never a set-id, sticky or type bit |
| Download.Remainder | sftp/sftp-client.c:1080-1082 | a re-request starts where the data stopped, ends where the request ended, and is never empty |
| Download.ShrunkBuflen | sftp/sftp-client.c:1086-1087 | the request size after a short read is at least the short length and at least 512; it exceeds the old size only when it is 512 |
| Download.BuflenBound | sftp/sftp-client.c:1086-1087 | the request size never exceeds the larger of the transfer length and 512 |
| Download.NextMaxReq | sftp/sftp-client.c:1089-1100 | one request at a time once past the reported size; otherwise one more while `max_req <= num_requests`; never above `num_requests + 1` |
| Download.WindowWrap | sftp/sftp-client.c:1097-1098 | `++max_req` closes the window by wrapping exactly when `num_requests` is the largest `u_int` |
| Download.SendRead | sftp/sftp-client.c:1017-1025 | a request takes the next id and `buflen` bytes at the offset; its READ is sent exactly when READs on the handle fit, and nothing is logged otherwise |
| Download.IssueStep | sftp/sftp-client.c:1017-1025 | one more READ keeps the issued ranges tiling, sized `buflen`, with consecutive ids, and appends its packet |
| Download.IssueRequests | sftp/sftp-client.c:1012-1026 | fails exactly when a request was due and READs on the handle do not fit; otherwise issues exactly `max_req - num_req` requests at consecutive offsets under consecutive ids, the queue gains them in order and the log gains their READs |
| Download.LensAppend | sftp/sftp-client.c:1019 | fresh requests of an admissible size keep every issued size admissible |
| Download.WrittenGrow | sftp/sftp-client.c:1021 | a larger offset keeps the written bytes below it |
| Download.Transfer.Interrupt | sftp/sftp-client.c:1005-1009 | an interrupt with requests outstanding closes the window and changes nothing else |
| Download.Transfer.Issue | sftp/sftp-client.c:1011-1026 | fails exactly when a request was due and READs do not fit; otherwise fills the queue up to `max_req` with fresh ranges of `buflen` bytes under consecutive ids, logs their READs, and keeps the transfer invariant |
| Download.Transfer.OnStatus | sftp/sftp-client.c:1043-1051 | a STATUS sets the status, latches a read error unless it is EOF, closes the window and retires the request |
| Download.Transfer.Store | sftp/sftp-client.c:1060-1066 | the data lands at the request's offset, or the first failed write latches the write error and closes the window |
| Download.Transfer.Retire | sftp/sftp-client.c:1069-1072 | a complete reply removes its request from the queue |
| Download.Transfer.Rerequest | sftp/sftp-client.c:1080-1087 | fails exactly when READs do not fit; otherwise the request is replaced by its remainder under the next id, that READ is logged, and the request size shrinks when the reply was shorter than it |
| Download.Transfer.Widen | sftp/sftp-client.c:1089-1100 | an open window moves as NextMaxReq says; a closed one stays closed |
| Download.Transfer.OnData | sftp/sftp-client.c:1052-1101 | fails exactly when the reply was short and READs do not fit; otherwise the data is stored or the write error latched, the request retired or re-requested, and the window moved |
| Download.ReadFits | sftp/sftp-client.c:900-915 | send_msg accepts a READ on a handle exactly when READs on that handle fit, whatever its id, offset and length |
| Download.RequestedStep | sftp/sftp-client.c:1017-1025 | requests whose READs were appended join those already requested, and the log only grows |
| Download.SendingStep | sftp/sftp-client.c:1018-1025 | READs under the next ids, among them those of new requests, keep the output log a consecutive run of READs on the handle with every issued request in it |
| Download.ReceivedStep | sftp/sftp-client.c:1028-1031 | one more whole reply from the next frame extends the replies read, and the input moves on by one frame |
| Download.ReadFailedStep | sftp/sftp-client.c:1043-1046 | `read_error` after one more reply is the old one, or that reply is a STATUS other than EOF |
| Download.StatusAfter | sftp/sftp-client.c:1043-1044 | `status` is the code of the last STATUS among the replies as an `int`, or its starting value when there is none |
| Download.CountsStep | sftp/sftp-client.c:1043-1061 | only a STATUS changes `status`, and only a DATA makes a positioned write |
| Download.WriteFailedStep | sftp/sftp-client.c:1060-1066 | `write_error` after one more write is the old one, or that write failed |
| Download.Verdict | sftp/sftp-client.c:1028-1105 | each fatal reason in exactly its case: an oversized frame, a short read, an id no outstanding request has, a type other than STATUS or DATA, more data than asked for, or a re-request send_msg refuses; none exactly for a STATUS or an admissible DATA of an outstanding request |
| Download.SummaryStep | sftp/sftp-client.c:1042-1101 | handling the next frame's reply moves `status` and both error latches as the loop does, and the input on by one frame |
| Download.Handled | sftp/sftp-client.c:1042-1101 | the loop variables after one reply for request i: the offset never moves; a STATUS or a complete DATA retires the request, a short DATA keeps the queue length; a STATUS, or a window already closed, leaves it closed; a STATUS leaves the file, the write latch and the request size alone, a DATA the status and the read latch; a DATA whose write succeeds lands at the request's offset |
| Download.IssueScheduleStep | sftp/sftp-client.c:1005-1026 | a pass that issues at most `num_requests + 1` fresh ranges, and none when its poll sees the flag, extends the issue schedule |
| Download.NoFreshAfterInterrupt | sftp/sftp-client.c:1005-1026 | in an issue schedule, from the first poll that sees the flag on, the count of fresh ranges never changes |
| Download.TrackStep | sftp/sftp-client.c:1028-1105 | one handled reply, with only READs of the run sent on the way, keeps the READ log a consecutive run holding every issued request and extends the reply record by that reply |
| Download.Transfer.Answer | sftp/sftp-client.c:1042-1105 | the Verdict on the reply for its first matching request; on success the loop variables are exactly Handled of the old ones (queue, window, request size, status, latches, file); a STATUS sets the status, latches a read error unless EOF and closes the window; a DATA is stored, with the write error latched on a failed write; a re-request is logged as the next READ |
| Download.Transfer.Dispatch | sftp/sftp-client.c:1028-1105 | consumes one frame; the result is the Verdict on it; on success that frame was a whole reply for the first outstanding request `i` with its id, and the loop variables are exactly Handled of the old ones for `i` |
| Download.Transfer.Fill | sftp/sftp-client.c:1005-1026 | an interrupt closes the window and then issues nothing, sends nothing and leaves the queue alone; fails exactly when a request was due and READs do not fit; otherwise at most `num_requests + 1` fresh ranges are issued, the READ log stays a consecutive run with every issued request in it, and the status and latches are unchanged |
| Download.Transfer.Receive | sftp/sftp-client.c:1028-1105 | the result is the Verdict on the next frame; on success the reply answers the first outstanding request `i` with its id, the loop variables (queue, window, request size, status, latches, file) are exactly Handled of the old ones, no range is issued, a closed window stays closed, the reply is added to those handled and the READ log stays in shape |
| Download.Transfer.Pass | sftp/sftp-client.c:1005-1105 | fatal only when READs do not fit or by the Verdict on the next frame; on success the tracked state extends by that reply, at most `num_requests + 1` fresh ranges were issued, none and with the window closed when the poll saw the flag, and the issue schedule gains this pass |
| Download.Transfer.Drain | sftp/sftp-client.c:997-1110 | the replies handled are those of the first frames; without a fatal end the READ log is a consecutive run with every issued request in it, the status and latches are those the replies leave, no request is outstanding, the window closed or the flag was set, and `issuedAt` is the issue schedule, so no fresh range is issued from the first poll that sees the flag; a fatal end is a refused READ or the Verdict on the frame after the replies |
| Download.Fetch | sftp/sftp-client.c:993-1143 | after the transfer, exactly one CLOSE on the handle under the next id, leaving the id after it and the input after the CLOSE's frame; the result is the last STATUS on a read error, -1 on a write error, else the CLOSE status read from the frame after the replies; the mode is set only then and only when asked |
| Download.Conclude | sftp/sftp-client.c:1112-1127 | one CLOSE under the next id; a session that dies on it dies whatever the latches say; otherwise the last status on a read error, -1 on a write error, else the CLOSE status, with the mode set only then and only when asked |
| Download.DoDownload | sftp/sftp-client.c:917-1144 | STAT first; -1 with the local file untouched when it gives no attributes or a non-regular file, fatal as get_decode_stat says; then OPEN, with -1 exactly when it gives no handle, fatal as get_handle says; on each -1 the ids used and the frames consumed are stated; otherwise STAT, OPEN, the READs on the handle under consecutive ids, then CLOSE, with the final id and the input left; the issued ranges tile what was read and new bytes lie below it; the result is the last STATUS on a read error, -1 on a write error, else the CLOSE status, with the remote mode masked to 0777 set only then and only when asked |
| Upload.OpenAttrs | sftp/sftp-client.c:1194-1198 | SIZE and UIDGID are cleared, perm is masked to 0777, ACMODTIME is kept only when asked, every other flag bit is kept, and nothing else changes |
| Upload.WritesOfExtend | sftp/sftp-client.c:1245-1258 | one more WRITE appends its packet to the log of the run |
| Upload.CarriedIsPrefix | sftp/sftp-client.c:1245-1298 | WRITEs whose ranges tile [0, end) carry exactly the first `end` bytes of the local file, in order |
| Upload.LastStatus | sftp/sftp-client.c:1280 | the loop's status is OK before any ack, and otherwise one of the ack codes |
| Upload.LastStatusOverwrites | sftp/sftp-client.c:1280 | each ack replaces the status, whatever the earlier acks said |
| Upload.LastStatusForgetsFailure | sftp/sftp-client.c:1280 | as written, the acks OK, FAILURE, OK leave the loop holding OK, while the first error is FAILURE |
| Upload.FirstError | sftp/sftp-client.c:1304-1308 | the intended status is OK if and only if every ack was OK, and otherwise one of the ack codes |
| Upload.FirstErrorSticks | sftp/sftp-client.c:1304-1308 | the first error survives any later acks |
| Upload.Settle | sftp/sftp-client.c:1237-1243 | read() is retried on EINTR and EAGAIN; the read fails only on a hard failure; at least one call is made |
| Upload.WindowCount | sftp/sftp-client.c:1267-1268 | with n writes outstanding, the `u_int` difference `id - ackid` is n - 1 |
| Upload.AckedStep | sftp/sftp-client.c:1267-1295 | reading nothing, or reading the next frame as a STATUS and recording its code, keeps the recorded codes those of the frames read, in order |
| Upload.AckVerdict | sftp/sftp-client.c:1269-1291 | each fatal reason of an ack in exactly its case: an oversized frame, a short read, a type other than STATUS, an id no outstanding write has; none exactly for a STATUS some outstanding write matches |
| Upload.Writer.ReadLocal | sftp/sftp-client.c:1235-1243 | a local read is fatal exactly when it settles on a failure; otherwise it yields the smaller of the transfer length and what is left of the file |
| Upload.Writer.SendWrite | sftp/sftp-client.c:1245-1258 | the block goes out as a WRITE under `++id` at the offset and joins the queue; the offset advances by its length |
| Upload.Writer.AwaitAck | sftp/sftp-client.c:1269-1295 | consumes one frame; its fatal reason is exactly AckVerdict of that frame and the queue; not fatal exactly when a STATUS matches one; then the first matching write leaves the queue, its code is recorded and `ackid` advances |
| Upload.Writer.Pass | sftp/sftp-client.c:1245-1298 | sends the block if any, appending exactly its WRITE under `++id`; reads one ack exactly after the first WRITE, after a pass that read nothing, or when `id - ackid >= num_requests`, and no frame otherwise; dies exactly as PassVerdict says (a WRITE send_msg refuses, the ack's AckVerdict, an offset past 2^63); afterwards at most `num_requests` writes are outstanding |
| Upload.Writer.PassVerdict | sftp/sftp-client.c:1245-1298 | why a pass dies, in the source's order: a refused WRITE, then a failed ack when one is awaited, then the offset check; never a local read failure |
| Upload.Writer.Take | sftp/sftp-client.c:1226-1243 | reads only while not interrupted and the status is OK; then dies exactly when Settle fails, and otherwise yields the smaller of the transfer length and what is left; nothing else changes |
| Upload.Writer.Step | sftp/sftp-client.c:1226-1299 | reads a block only while not interrupted and the status is OK, and then exactly the block Settle and the transfer length allow; dies with LocalReadFailed exactly when that read fails, otherwise stops exactly when there is no block and no write outstanding, and otherwise dies exactly as PassVerdict says; consumes at most one frame, as an ack; ends the loop only with the queue empty and with the file done, the loop interrupted, an ack failed or a zero transfer length |
| Upload.Writer.Pump | sftp/sftp-client.c:1226-1299 | the loop ends, when it is not fatal, with no write outstanding, the WRITEs logged in order, and the recorded codes those of the frames consumed; the file was sent whole unless interrupted, failed or with a zero transfer length |
| Upload.Trailer | sftp/sftp-client.c:1316-1321 | after the loop, FSETSTAT when asked, then CLOSE; the first of them takes the id after the OPEN's |
| Upload.Finish | sftp/sftp-client.c:1304-1324 | sends the trailer and reads one frame per request, leaving the id after the trailer; the result is -1 when the loop failed or the CLOSE status read from its frame is not OK, else 0 |
| Upload.DoUpload | sftp/sftp-client.c:1146-1325 | -1 with nothing sent when fstat fails or the file is not regular; -1 when the OPEN gives no handle, with one id used and one frame consumed, fatal as get_handle says; otherwise OPEN, then WRITEs under consecutive ids carrying the file's prefix in order, each acknowledged by the frames consumed, then the trailer reusing the first WRITE's id, with the final id and the input left stated; the result is -1 exactly when the last ack or the CLOSE status failed |

## Left out

- Real descriptor I/O is not modelled (`atomicio`, `writev`, `read`, `lseek`, `fchmod`, `fstat`). The streams are a request log and a scripted list of frames. The local sink is a map from offsets to bytes, and each write can be told to fail. The local source is a byte sequence plus a list of read faults.
- Download.DoDownload: a failed local write leaves the sink unchanged. A real partial write could leave some bytes behind.
- Download.DoDownload: which bytes of the local file came from which DATA reply is stated per reply (Transfer.Store, Transfer.OnData), not for the whole transfer. Whether the transfer reached the end of the remote file is not stated either; the server decides it.
- Download.DoDownload: for a session that dies inside the transfer loop it states only that it died. Transfer.Drain states on which frame and why.
- Download.DoDownload: it does not state how many frames the loop handled before the CLOSE's reply. Transfer.Drain states that the loop stops only with no request outstanding and with the window closed or the flag set. Stating that as a function of the frames alone would take the whole loop as a specification function.
- Download.Transfer.Drain: when send_msg refuses a READ it states only that READs on the handle do not fit, not on which pass.
- Readdir.DoReaddir: for a session that dies inside the READDIR loop it states only that it died. Readdir.ReadBatches states on which frame and why.
- Upload.DoUpload: for a session that dies inside the write loop it states only that it died. Upload.Writer.AwaitAck states each fatal case of an ack.
- Upload.Writer.ReadLocal: every successful read returns a full block, `min(transfer_buflen, bytes left)`, as a read of a regular file does. Short reads of other file kinds are not modelled.
- Upload.Writer.Pump: a fatal end is not described; Upload.Writer.AwaitAck states each fatal case of an ack.
- Request and reply bodies beyond what the client reads are opaque. `encode_attrib`, `decode_attrib`, the `buffer_*` codec and `stat_to_attrib` are not part of this model. Attributes are a record with a flags word, and a body's length is computed from its fields.
- Where get_msg returns -1 and the caller goes on parsing the buffer anyway (`get_handle`, `get_decode_stat`, the directory loop, both transfers), what the caller reads depends on buffer contents that get_msg never filled. `buffer_append_space` has already grown the buffer, and a short header read leaves its 4 bytes there. The model does not follow those bytes: it returns `Fatal(BufferUnderflow)` in these cases.
- 64-bit wrap of the download offset is not modelled (`u_int64_t offset`). Offsets are unbounded, and only the wire field is reduced modulo 2^64. The upload's `off_t` overflow check is modelled as `Fatal(OffsetOverflow)`.
- `fchmod` failure is only logged by the source. The model returns the mode it would set (`chmod`) and nothing else.
- `printflag`, logging (`debug`, `logit`, `error`, `fx2txt`) and memory management (`xmalloc`, `xfree`, `free_sftp_dirents`) are left out.
- The caller's attribute record, which do_upload changes in place, is not modelled. The model computes the masked record as a new value.
- The conversion of the statvfs reply into the host's `struct statvfs` is left out (`ST_RDONLY`, `ST_NOSUID`). The reply's eleven fields are returned as read.
- Code compiled out under `#ifdef notyet` or `#if 0` is left out: `do_fstat`, `do_readlink`, `do_fstatvfs`, the local open and close, and `utimes`.
- The `ack == NULL` fatal in do_upload (line 1264) is not modelled. It cannot fire: the loop breaks before it whenever the queue is empty, and every later pass follows a send or a found ack.
- The download's sanity check that the queue is empty after the loop (line 1109) cannot fire: Transfer.Drain ends without a fatal only with no request outstanding.
- No server is modelled, so the upload-then-download round trip is not stated as one lemma. Upload.CarriedIsPrefix states the upload half, and Download.WriteAt with Window.TilesCover states the download half.

## Findings

| source | as written | input that shows it | evidently intended | confidence | as-written member | corrected member |
|---|---|---|---|---|---|---|
| sftp/sftp-client.c:1280 | every STATUS ack overwrites `status`, so a later OK erases an earlier failure and do_upload returns 0 | a 3-block upload with `num_requests >= 2` whose acks arrive OK, FAILURE, OK: the second block was refused, yet the loop ends holding OK | the first failed ack is kept as the result, so the upload reports -1 | high, not executed | Upload.LastStatusForgetsFailure | Upload.FirstErrorSticks |

The upload model keeps the source's behaviour, and `Upload.DoUpload` states its result through `LastStatus`. `Upload.FirstError` is the intended status rule. `Upload.FirstErrorSticks` proves that the first error survives any later acks, which `LastStatus` does not.
