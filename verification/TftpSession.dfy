/** The request handler and its loops, on a connection whose peer and network may do anything.
    Every write and every wait goes into a log, and each loop is proved to produce exactly the
    events of the step machine. */
module TftpSession {
  import opened Sequences
  import opened Text
  import opened TftpServer
  import opened TftpOptions
  import opened TftpPath
  import opened Decimal

  const OP_RRQ := 1
  const READ_LIMIT := 64

  /** A regular file opened for reading. */
  class File {
    const content: seq<byte>
    var pos: nat

    constructor (content: seq<byte>)
      ensures this.content == content && pos == 0
    {
      this.content := content;
      pos := 0;
    }

    /** Fills the buffer from the current position; short only at the end of the file, and then
        0 bytes with `eof`. */
    method Read(buf: array<byte>) returns (n: nat, eof: bool)
      requires pos <= |content|
      modifies this`pos, buf
      ensures n == Min(buf.Length, |content| - old(pos))
      ensures pos == old(pos) + n
      ensures buf[..n] == content[old(pos)..pos]
      ensures eof <==> n == 0 && buf.Length > 0
    {
      n := Min(buf.Length, |content| - pos);
      forall i | 0 <= i < n {
        buf[i] := content[pos + i];
      }
      pos := pos + n;
      eof := n == 0 && buf.Length > 0;
    }
  }

  /** A connected UDP socket. Whether the i-th write succeeds and what the j-th read returns
      (None: the deadline passed or the read failed) is fixed by two arbitrary functions. */
  class Conn {
    const writeOk: nat -> bool
    const replies: nat -> Option<seq<byte>>
    var sends: nat
    var waits: nat
    ghost var log: seq<Event>

    constructor (writeOk: nat -> bool, replies: nat -> Option<seq<byte>>)
      ensures log == [] && this.writeOk == writeOk && this.replies == replies
    {
      this.writeOk := writeOk;
      this.replies := replies;
      sends, waits := 0, 0;
      log := [];
    }

    method Write(pkt: seq<byte>) returns (ok: bool)
      modifies this
      ensures log == old(log) + [if ok then Sent(pkt) else SendFailed]
    {
      ok := writeOk(sends);
      sends := sends + 1;
      log := log + [if ok then Sent(pkt) else SendFailed];
    }

    /** One datagram, cut to the reader's buffer. The log keeps it whole. */
    method Read(limit: nat) returns (d: Option<seq<byte>>)
      modifies this
      ensures d.None? ==> log == old(log) + [TimedOut]
      ensures d.Some? ==> exists whole :: log == old(log) + [Received(whole)]
                                       && d.value == whole[..Min(limit, |whole|)]
    {
      var whole := replies(waits);
      waits := waits + 1;
      if whole.None? {
        log := log + [TimedOut];
        return None;
      }
      log := log + [Received(whole.value)];
      return Some(whole.value[..Min(limit, |whole.value|)]);
    }
  }

  // ----- The loops -----

  /** An acknowledgement on the wire: opcode 4 and the block number, and perhaps more. */
  lemma AckBytes(d: seq<byte>, n: nat)
    requires n < WRAP
    ensures Acks(d, n) <==> [0, 4, n / 256, n % 256] <= d
  {
    if |d| >= 4 {
      assert d[..4] == [d[0], d[1], d[2], d[3]];
    }
  }

  method WaitAck(conn: Conn, block: nat) returns (ok: bool, ghost e: Event)
    requires block < WRAP
    modifies conn
    ensures conn.log == old(conn.log) + [e] && (e.TimedOut? || e.Received?)
    ensures ok <==> e.Received? && Acks(e.dgram, block)
    ensures ok <==> e.Received? && [0, 4, block / 256, block % 256] <= e.dgram
  {
    ghost var before := conn.log;
    var d := conn.Read(READ_LIMIT);
    ok := d.Some? && Acks(d.value, block);
    e := conn.log[|before|];
    if e.Received? {
      AckBytes(e.dgram, block);
    }
  }

  lemma SendStep(job: Job, log: seq<Event>, k: nat, r: nat)
    requires job.Valid()
    ensures Reaches(job, log, Server(Sending, k, r)) ==>
              && 1 <= k <= |job.Blocks()|
              && Reaches(job, log + [Sent(BlockPacket(job, k))], Server(Waiting, k, r))
              && Reaches(job, log + [SendFailed], Server(Aborted, k, r))
  {
    if Reaches(job, log, Server(Sending, k, r)) {
      RunAppend(job, log, Sent(BlockPacket(job, k)));
      RunAppend(job, log, SendFailed);
    }
  }

  lemma WaitStep(job: Job, log: seq<Event>, k: nat, r: nat, e: Event)
    requires job.Valid()
    ensures Reaches(job, log, Server(Waiting, k, r)) && (e.TimedOut? || e.Received?) ==>
              && 1 <= k <= |job.Blocks()|
              && Reaches(job, log + [e],
                   if e.Received? && Acks(e.dgram, k % WRAP) then AfterAck(job, k)
                   else if r + 1 < MAX_SENDS then Server(Sending, k, r + 1)
                   else Server(Aborted, k, r))
  {
    RunAppend(job, log, e);
  }

  ghost predicate InState(job: Job, conn: Conn, s: Server)
    reads conn
  {
    job.Valid() && Reaches(job, conn.log, s)
  }

  /** The session is over, with all blocks acknowledged or by giving up. */
  ghost predicate Ended(job: Job, conn: Conn, done: bool)
    reads conn
  {
    && job.Valid()
    && Run(job, conn.log).Some?
    && var s := Run(job, conn.log).value;
       if done then s.phase.Complete? else s.phase.Aborted?
  }

  lemma EndsIn(job: Job, conn: Conn, s: Server)
    requires InState(job, conn, s) && Final(s)
    ensures Ended(job, conn, s.phase.Complete?)
  {
  }

  method SendWaitAck(conn: Conn, pkt: seq<byte>, block: nat, ghost job: Job, ghost k: nat) returns (ok: bool)
    requires job.Valid() && 1 <= k <= |job.Blocks()| && block == k % WRAP && pkt == BlockPacket(job, k)
    requires InState(job, conn, Server(Sending, k, 0))
    modifies conn
    ensures ok ==> InState(job, conn, AfterAck(job, k))
    ensures !ok ==> Ended(job, conn, false)
  {
    var r := 0;
    while r < 5
      invariant 0 <= r <= 5
      invariant r < 5 ==> InState(job, conn, Server(Sending, k, r))
      invariant r == 5 ==> InState(job, conn, Server(Aborted, k, 4))
    {
      ghost var before := conn.log;
      SendStep(job, before, k, r);
      var sent := conn.Write(pkt);
      if !sent {
        return false;
      }
      ghost var middle, e := conn.log, TimedOut;
      ok, e := WaitAck(conn, block);
      WaitStep(job, middle, k, r, e);
      if ok {
        return true;
      }
      r := r + 1;
    }
    return false;
  }

  /** The file position before block k is read. */
  ghost predicate AtBlock(job: Job, at: nat, k: nat) {
    1 <= k <= |job.Blocks()| && at == (k - 1) * job.blksize && at <= |job.file|
  }

  lemma {:induction false} BlockAt(s: seq<byte>, b: pos, k: pos, at: nat)
    requires k <= |Chop(s, b)| && at == (k - 1) * b
    ensures at <= |s| && Chop(s, b)[k - 1] == s[at..at + Min(b, |s| - at)]
    decreases k
  {
    if k > 1 {
      assert (k - 1) * b == (k - 2) * b + b;
      BlockAt(s[b..], b, k - 1, at - b);
      var n := Min(b, |s| - at);
      assert s[b..][at - b..at - b + n] == s[at..at + n];
    } else {
      assert at == 0;
    }
  }

  lemma NextNumber(k: nat)
    ensures (k % WRAP + 1) % WRAP == (k + 1) % WRAP
  {
  }

  /** What was read at block k makes the packet of that block, and its length says what follows. */
  lemma ReadBlock(job: Job, at: nat, k: nat, n: nat, payload: seq<byte>)
    requires job.Valid() && AtBlock(job, at, k) && n == Min(job.blksize, |job.file| - at)
    requires payload == job.file[at..at + n]
    ensures DataPacket(k % WRAP, payload) == BlockPacket(job, k)
    ensures n < job.blksize ==> AfterAck(job, k) == Server(Complete, k, 0)
    ensures n >= job.blksize ==> AfterAck(job, k) == Server(Sending, k + 1, 0) && AtBlock(job, at + n, k + 1)
  {
    BlockAt(job.file, job.blksize, k, at);
    BlockLength(job, k);
    if n == job.blksize {
      assert k * job.blksize == at + n;
      BlockAt(job.file, job.blksize, k + 1, at + n);
    }
  }

  // ----- What a session puts on the wire -----

  /** The DATA packet of block k of a file sent in blocks of b bytes: opcode 3, the number of the
      block on 16 bits, and the bytes of the file from (k - 1) * b on. */
  predicate IsDataOf(pkt: seq<byte>, file: seq<byte>, b: pos, k: pos) {
    var at := (k - 1) * b;
    at <= |file| && pkt == [0, 3, k / 256 % 256, k % 256] + file[at..Min(at + b, |file|)]
  }

  lemma DataOnTheWire(job: Job, k: pos)
    requires job.Valid() && k <= |job.Blocks()|
    ensures IsDataOf(BlockPacket(job, k), job.file, job.blksize, k)
  {
    var at := (k - 1) * job.blksize;
    BlockAt(job.file, job.blksize, k, at);
    assert Min(at + job.blksize, |job.file|) == at + Min(job.blksize, |job.file| - at);
    NumberBytes(k);
  }

  lemma NumberBytes(k: nat)
    ensures PutBe16(k % WRAP) == [k / 256 % 256, k % 256]
  {
    var q, r := k / WRAP, k % WRAP;
    DivUnique(k, 256, 256 * q + r / 256, r % 256);
    DivUnique(k / 256, 256, q, r / 256);
  }

  /** From the datagram `first` on, everything written is a DATA packet of the file. */
  ghost predicate SendsBlocks(log: seq<Event>, first: nat, file: seq<byte>, b: pos) {
    forall i :: first <= i < |log| && log[i].Sent? ==> exists k: pos :: IsDataOf(log[i].pkt, file, b, k)
  }

  lemma WrittenIsData(job: Job, log: seq<Event>, s: Server, e: Event)
    requires job.Valid() && Reaches(job, log, s) && e.Sent? && Step(job, s, e).Some?
    requires s.phase.Offer? ==> log == []
    ensures if log == [] && job.oack.Some? then e.pkt == job.oack.value
            else exists k: pos :: IsDataOf(e.pkt, job.file, job.blksize, k)
  {
    if s.phase.Sending? {
      DataOnTheWire(job, s.index);
    }
  }

  lemma WrittenAt(job: Job, log: seq<Event>, i: nat)
    requires job.Valid() && Run(job, log).Some? && i < |log| && log[i].Sent?
    ensures if i == 0 && job.oack.Some? then log[i].pkt == job.oack.value
            else exists k: pos :: IsDataOf(log[i].pkt, job.file, job.blksize, k)
  {
    RunPrefix(job, log, i);
    RunPrefix(job, log, i + 1);
    assert log[..i + 1] == log[..i] + [log[i]];
    RunAppend(job, log[..i], log[i]);
    OfferIsFirst(job, log[..i]);
    WrittenIsData(job, log[..i], Run(job, log[..i]).value, log[i]);
  }

  /** Whatever a session writes is the option acknowledgement, at the beginning, or a DATA packet. */
  lemma SessionOnTheWire(job: Job, log: seq<Event>)
    requires job.Valid() && Run(job, log).Some?
    ensures SendsBlocks(log, OfferCount(job), job.file, job.blksize)
    ensures job.oack.Some? && |log| > 0 && log[0].Sent? ==> log[0].pkt == job.oack.value
  {
    forall i | 0 <= i < |log| && log[i].Sent?
      ensures if i == 0 && job.oack.Some? then log[i].pkt == job.oack.value
              else exists k: pos :: IsDataOf(log[i].pkt, job.file, job.blksize, k)
    {
      WrittenAt(job, log, i);
    }
  }

  /** The transfer loop: one buffer reused for every block, and a 16-bit block counter. */
  method SendFile(conn: Conn, f: File, blksize: pos, ghost job: Job) returns (done: bool)
    requires job.Valid() && job.blksize == blksize && job.file == f.content && f.pos == 0
    requires InState(job, conn, Server(Sending, 1, 0))
    modifies conn, f
    ensures Ended(job, conn, done)
  {
    var block := 1;
    var data := new byte[blksize](_ => 0);
    ghost var k := 1;
    ghost var last: nat := |job.Blocks()|;
    while true
      invariant fresh(data) && data.Length == blksize
      invariant AtBlock(job, f.pos, k) && block == k % WRAP && k <= last
      invariant InState(job, conn, Server(Sending, k, 0))
      decreases last - k
    {
      ghost var at := f.pos;
      NextNumber(k);
      var n, eof := f.Read(data);
      ReadBlock(job, at, k, n, data[..n]);
      var ok := SendWaitAck(conn, DataPacket(block, data[..n]), block, job, k);
      if !ok {
        return false;
      }
      if n < blksize {
        EndsIn(job, conn, Server(Complete, k, 0));
        break;
      }
      if eof {
        break;
      }
      block := (block + 1) % WRAP;
      k := k + 1;
    }
    return true;
  }

  // ----- The whole handler -----

  datatype Outcome = Ignored | Rejected(code: nat) | Transferred(job: Job, done: bool)

  function ErrorPacket(code: nat, msg: seq<byte>): seq<byte>
    requires code < WRAP
  {
    [0, OP_ERROR] + PutBe16(code) + msg + [0]
  }

  /** What a client reads in an error packet: opcode 5, the code, and the message. */
  lemma ErrorReads(code: nat, msg: seq<byte>)
    requires code < WRAP && 0 !in msg
    ensures var p := ErrorPacket(code, msg);
            p[..2] == [0, 5] && Be16(p[2], p[3]) == code && Fields(p[4..]) == [msg]
  {
    var p := ErrorPacket(code, msg);
    assert p[4..] == Terminated([msg]) + [] by {
      assert [msg][1..] == [];
      assert Terminated([msg]) == msg + [0] + Terminated([msg][1..]);
    }
    FieldsAreExact(p[4..], [msg], []);
  }

  /** The log of a session that only attempted to write one datagram. */
  predicate Tried(log: seq<Event>, pkt: seq<byte>) {
    log == [Sent(pkt)] || log == [SendFailed]
  }

  function Requested(req: seq<byte>): seq<Field>
    requires |req| >= 2
  {
    Fields(req[2..])
  }

  predicate IsReadRequest(req: seq<byte>) {
    |req| >= 2 && Be16(req[0], req[1]) == OP_RRQ && |Requested(req)| >= 2
  }

  /** A read request, byte by byte: opcode 1 and two NULs, which end a name and a mode. */
  lemma ReadRequestsExactly(req: seq<byte>)
    ensures IsReadRequest(req) <==>
              && [0, 1] <= req
              && exists i, j :: 2 <= i < j < |req| && req[i] == 0 && req[j] == 0
  {
    if |req| >= 2 {
      assert req[..2] == [req[0], req[1]];
      TwoSeparators(req[2..], 0);
      forall i | 2 <= i < |req| ensures req[2..][i - 2] == req[i] {}
      if i, j :| 2 <= i < j < |req| && req[i] == 0 && req[j] == 0 {
        assert req[2..][i - 2] == 0 && req[2..][j - 2] == 0;
      }
    }
  }

  /** What can be opened: the bytes that can be read up to the first short read, and the size that
      the system states. For a healthy regular file the size is that of the content; a directory,
      or a file that cannot be read to its end, states a size of its own. */
  datatype Opened = Opened(content: seq<byte>, size: nat)

  /** `files` is what opening succeeds for; `dialed` whether the peer's address could be dialed. */
  method Handle(req: seq<byte>, root: Path, cwd: Path, files: map<Path, Opened>, dialed: bool, conn: Conn)
    returns (out: Outcome)
    requires conn.log == []
    modifies conn
    ensures !dialed || !IsReadRequest(req) ==> out == Ignored && conn.log == []
    ensures dialed && IsReadRequest(req) ==>
      var fields := Requested(req);
      var path := SafePath(root, cwd, fields[0]);
      if path.None? then out == Rejected(2) && Tried(conn.log, ErrorPacket(2, Ascii("access denied")))
      else if path.value !in files then out == Rejected(1) && Tried(conn.log, ErrorPacket(1, Ascii("not found")))
      else
        && out.Transferred?
        && var opts := OptionsOf(fields);
           var job := out.job;
           && job.Valid()
           && job.file == files[path.value].content
           && job.blksize == Blksize(opts)
           && (job.oack.Some? <==> opts != map[])
           && (job.oack.Some? ==>
                 job.oack.value[..2] == [0, 6] && Acknowledged(job.oack.value) == Answer(opts, files[path.value].size))
           && Run(job, conn.log).Some?
           && Final(Run(job, conn.log).value)
           && (out.done <==> Run(job, conn.log).value.phase.Complete?)
           && AgreedSize(opts, job.blksize)
           && SendsBlocks(conn.log, if opts == map[] then 0 else 1, job.file, job.blksize)
           && (opts == map[] ==> SendsBlocks(conn.log, 0, job.file, 512))
  {
    if |req| < 2 || Be16(req[0], req[1]) != OP_RRQ {
      return Ignored;
    }
    if !dialed {
      return Ignored;
    }
    var fields := SplitNull(req[2..]);
    if |fields| < 2 {
      return Ignored;
    }
    var opts := ReadOptions(fields);
    var path := SafePath(root, cwd, fields[0]);
    if path.None? {
      var sent := conn.Write(ErrorPacket(2, Ascii("access denied")));
      return Rejected(2);
    }
    if path.value !in files {
      var sent := conn.Write(ErrorPacket(1, Ascii("not found")));
      return Rejected(1);
    }
    var f := new File(files[path.value].content);
    var blksize := Blksize(opts);
    BlksizeExactly(opts);
    if |opts| > 0 {
      var oack := BuildOack(opts, files[path.value].size);
      OackIsValid(oack);
      var job := Job(f.content, blksize, Some(oack));
      var agreed := OfferOptions(conn, oack, job);
      if !agreed {
        SessionOnTheWire(job, conn.log);
        return Transferred(job, false);
      }
      var done := SendFile(conn, f, blksize, job);
      SessionOnTheWire(job, conn.log);
      return Transferred(job, done);
    }
    var job := Job(f.content, blksize, None);
    var done := SendFile(conn, f, blksize, job);
    SessionOnTheWire(job, conn.log);
    return Transferred(job, done);
  }

  lemma OackIsValid(oack: seq<byte>)
    requires |oack| >= 2 && oack[..2] == [0, OP_OACK]
    ensures oack[0] == 0 && oack[1] == OP_OACK
  {
    assert oack[0] == oack[..2][0] && oack[1] == oack[..2][1];
  }

  lemma OfferStep(job: Job, oack: seq<byte>, written: Event)
    requires job.Valid() && job.oack == Some(oack) && (written == Sent(oack) || written == SendFailed)
    ensures Reaches(job, [] + [written], Server(AwaitOffer, 0, 0))
  {
    RunAppend(job, [], written);
  }

  lemma OfferAnswered(job: Job, log: seq<Event>, e: Event)
    requires job.Valid() && Reaches(job, log, Server(AwaitOffer, 0, 0)) && (e.TimedOut? || e.Received?)
    ensures Reaches(job, log + [e],
              if e.Received? && Acks(e.dgram, 0) then Server(Sending, 1, 0) else Server(Aborted, 0, 0))
  {
    RunAppend(job, log, e);
  }

  /** The single, unrepeated offer; a failed write is not noticed. */
  method OfferOptions(conn: Conn, oack: seq<byte>, ghost job: Job) returns (agreed: bool)
    requires job.Valid() && job.oack == Some(oack) && conn.log == []
    modifies conn
    ensures agreed ==> InState(job, conn, Server(Sending, 1, 0))
    ensures !agreed ==> InState(job, conn, Server(Aborted, 0, 0))
  {
    var sent := conn.Write(oack);
    OfferStep(job, oack, if sent then Sent(oack) else SendFailed);
    ghost var middle, e := conn.log, TimedOut;
    agreed, e := WaitAck(conn, 0);
    OfferAnswered(job, middle, e);
  }

  /** A well-formed request is read back as it was written. */
  lemma RequestRoundTrip(name: Field, mode: Field, pairs: seq<(Field, Field)>)
    requires 0 !in name && 0 !in mode
    requires forall p <- pairs :: 0 !in p.0 && 0 !in p.1
    ensures var req := [0, OP_RRQ] + Terminated([name, mode] + Unpaired(pairs));
            && IsReadRequest(req)
            && Requested(req)[0] == name
            && OptionsOf(Requested(req)) == Pairs(Unpaired(pairs))
  {
    var fields := [name, mode] + Unpaired(pairs);
    var req := [0, OP_RRQ] + Terminated(fields);
    UnpairedFree(pairs);
    assert req[2..] == Terminated(fields);
    FieldsAreExact(req[2..], fields, []);
    assert Terminated(fields) + [] == Terminated(fields);
    assert fields[2..] == Unpaired(pairs);
  }

  lemma {:induction false} UnpairedFree(pairs: seq<(Field, Field)>)
    requires forall p <- pairs :: 0 !in p.0 && 0 !in p.1
    ensures Free(Unpaired(pairs), 0)
  {
    if pairs != [] {
      assert pairs[0] in pairs;
      UnpairedFree(pairs[1..]);
    }
  }
}
