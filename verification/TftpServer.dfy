/** The TFTP read session as the server runs it: packets, blocks, and one step machine that
    accepts exactly the writes and waits which the sending loop performs. */
module TftpServer {
  import opened Sequences

  const OP_DATA: byte := 3
  const OP_ACK: byte := 4
  const OP_ERROR: byte := 5
  const OP_OACK: byte := 6
  const MAX_SENDS := 5
  const WRAP := 0x1_0000

  /** A transfer job. `oack` is the option acknowledgement, absent when no option was requested. */
  datatype Job = Job(file: seq<byte>, blksize: pos, oack: Option<seq<byte>>) {
    predicate Valid() {
      oack.Some? ==> |oack.value| >= 2 && oack.value[0] == 0 && oack.value[1] == OP_OACK
    }

    function Blocks(): (bs: seq<seq<byte>>)
      ensures |bs| >= 1
    {
      Chop(file, blksize)
    }
  }

  // ----- Blocks -----

  /** Full blocks first, then one short block, which is empty when the size divides evenly. */
  function Chop(s: seq<byte>, b: pos): (bs: seq<seq<byte>>)
    ensures |bs| >= 1
  {
    if |s| < b then [s] else [s[..b]] + Chop(s[b..], b)
  }

  lemma {:induction false} ChopFlatten(s: seq<byte>, b: pos)
    ensures Flatten(Chop(s, b)) == s
  {
    if |s| < b {
      assert [s][1..] == [];
      assert Flatten([s]) == s + Flatten([s][1..]);
    } else {
      ChopFlatten(s[b..], b);
      assert Chop(s, b)[1..] == Chop(s[b..], b);
      assert s[..b] + s[b..] == s;
    }
  }

  lemma {:induction false} ChopLengths(s: seq<byte>, b: pos)
    ensures var bs := Chop(s, b);
            && (forall k :: 0 <= k < |bs| - 1 ==> |bs[k]| == b)
            && |bs[|bs| - 1]| < b
  {
    if |s| >= b {
      ChopLengths(s[b..], b);
      assert Chop(s, b)[1..] == Chop(s[b..], b);
    }
  }

  lemma {:induction false} ChopCount(s: seq<byte>, b: pos)
    ensures var bs := Chop(s, b);
            && |bs| == |s| / b + 1
            && |bs[|bs| - 1]| == |s| % b
  {
    if |s| < b {
      DivUnique(|s|, b, 0, |s|);
    } else {
      ChopCount(s[b..], b);
      DivStep(|s|, b);
    }
  }

  lemma BlockLength(job: Job, k: nat)
    requires 1 <= k <= |job.Blocks()|
    ensures |job.Blocks()[k - 1]| < job.blksize <==> k == |job.Blocks()|
    ensures |job.Blocks()[k - 1]| <= job.blksize
  {
    ChopLengths(job.file, job.blksize);
  }

  // ----- Packets -----

  function DataPacket(n: int, payload: seq<byte>): (p: seq<byte>)
    requires 0 <= n < WRAP
    ensures |p| == 4 + |payload| && p[4..] == payload
    ensures Be16(p[0], p[1]) == OP_DATA && Be16(p[2], p[3]) == n
  {
    [0, OP_DATA] + PutBe16(n) + payload
  }

  function AckPacket(n: int): (p: seq<byte>)
    requires 0 <= n < WRAP
    ensures |p| == 4 && Be16(p[0], p[1]) == OP_ACK && Be16(p[2], p[3]) == n
  {
    [0, OP_ACK] + PutBe16(n)
  }

  predicate IsAck(d: seq<byte>) {
    |d| >= 4 && Be16(d[0], d[1]) == OP_ACK
  }

  predicate Acks(d: seq<byte>, n: int) {
    IsAck(d) && Be16(d[2], d[3]) == n
  }

  /** The packet of block k, under its 16-bit number on the wire. */
  function BlockPacket(job: Job, k: nat): (p: seq<byte>)
    requires 1 <= k <= |job.Blocks()|
    ensures |p| == 4 + |job.Blocks()[k - 1]| && p[4..] == job.Blocks()[k - 1]
    ensures Be16(p[0], p[1]) == OP_DATA && Be16(p[2], p[3]) == k % WRAP
  {
    DataPacket(k % WRAP, job.Blocks()[k - 1])
  }

  // ----- The step machine -----

  datatype Phase = Offer | AwaitOffer | Sending | Waiting | Complete | Aborted

  /** `index` is the unbounded number of the current block, 0 while options are negotiated;
      `tries` counts the failed waits for that block. */
  datatype Server = Server(phase: Phase, index: nat, tries: nat)

  datatype Event = Sent(pkt: seq<byte>) | SendFailed | Received(dgram: seq<byte>) | TimedOut

  predicate WellFormed(job: Job, s: Server) {
    && job.Valid()
    && s.index <= |job.Blocks()|
    && match s.phase {
         case Offer | AwaitOffer => job.oack.Some? && s.index == 0 && s.tries == 0
         case Sending | Waiting => s.index >= 1 && s.tries < MAX_SENDS
         case Complete => s.index == |job.Blocks()|
         case Aborted => true
       }
  }

  predicate Final(s: Server) {
    s.phase.Complete? || s.phase.Aborted?
  }

  function Start(job: Job): (s: Server)
    requires job.Valid()
    ensures WellFormed(job, s)
  {
    if job.oack.Some? then Server(Offer, 0, 0) else Server(Sending, 1, 0)
  }

  /** The datagram that the server is about to write, if it is about to write one. */
  function Pending(job: Job, s: Server): Option<seq<byte>>
    requires WellFormed(job, s)
  {
    match s.phase
    case Offer => Some(job.oack.value)
    case Sending => Some(BlockPacket(job, s.index))
    case _ => None
  }

  function AfterAck(job: Job, k: nat): (s: Server)
    requires job.Valid() && 1 <= k <= |job.Blocks()|
    ensures WellFormed(job, s)
  {
    BlockLength(job, k);
    if |job.Blocks()[k - 1]| < job.blksize then Server(Complete, k, 0) else Server(Sending, k + 1, 0)
  }

  function AfterMiss(job: Job, s: Server): (t: Server)
    requires WellFormed(job, s) && s.phase.Waiting?
    ensures WellFormed(job, t)
  {
    if s.tries + 1 < MAX_SENDS then Server(Sending, s.index, s.tries + 1) else Server(Aborted, s.index, s.tries)
  }

  /** One event of the session; None when the server never produces that event in that state. */
  function Step(job: Job, s: Server, e: Event): (t: Option<Server>)
    requires WellFormed(job, s)
    ensures t.Some? ==> WellFormed(job, t.value)
  {
    match s.phase
    case Offer => (
      match e
      case Sent(p) => if p == job.oack.value then Some(Server(AwaitOffer, 0, 0)) else None
      case SendFailed => Some(Server(AwaitOffer, 0, 0)) // the write error is ignored here
      case _ => None)
    case AwaitOffer => (
      match e
      case Received(d) => if Acks(d, 0) then Some(Server(Sending, 1, 0)) else Some(Server(Aborted, 0, 0))
      case TimedOut => Some(Server(Aborted, 0, 0))
      case _ => None)
    case Sending => (
      match e
      case Sent(p) => if p == BlockPacket(job, s.index) then Some(s.(phase := Waiting)) else None
      case SendFailed => Some(s.(phase := Aborted))
      case _ => None)
    case Waiting => (
      match e
      case Received(d) => if Acks(d, s.index % WRAP) then Some(AfterAck(job, s.index)) else Some(AfterMiss(job, s))
      case TimedOut => Some(AfterMiss(job, s))
      case _ => None)
    case Complete => None
    case Aborted => None
  }

  /** The state after a whole log of events, None when the log is not one of this server's. */
  function Run(job: Job, log: seq<Event>): (t: Option<Server>)
    requires job.Valid()
    ensures t.Some? ==> WellFormed(job, t.value)
  {
    if log == [] then Some(Start(job)) else
    var before := Run(job, log[..|log| - 1]);
    if before.None? then None else Step(job, before.value, log[|log| - 1])
  }

  /** The log is a run of the server that ends in state s. */
  predicate Reaches(job: Job, log: seq<Event>, s: Server)
    requires job.Valid()
  {
    Run(job, log) == Some(s)
  }

  lemma RunAppend(job: Job, log: seq<Event>, e: Event)
    requires job.Valid()
    ensures Run(job, log + [e]) ==
            if Run(job, log).None? then None else Step(job, Run(job, log).value, e)
  {
    assert (log + [e])[..|log|] == log;
  }

  lemma {:induction false} RunPrefix(job: Job, log: seq<Event>, i: nat)
    requires job.Valid() && i <= |log| && Run(job, log).Some?
    ensures Run(job, log[..i]).Some?
    decreases |log|
  {
    if i < |log| {
      var shorter := log[..|log| - 1];
      RunPrefix(job, shorter, i);
      assert shorter[..i] == log[..i];
    } else {
      assert log[..i] == log;
    }
  }

  // ----- Every session ends, whatever the peer replies -----

  /** What is left of a session: remaining blocks first, then remaining tries, then the wait. */
  function Remaining(job: Job, s: Server): nat
    requires WellFormed(job, s)
  {
    var n := |job.Blocks()|;
    match s.phase
    case Offer => 10 * n + 2
    case AwaitOffer => 10 * n + 1
    case Sending => 10 * (n - s.index) + 2 * (MAX_SENDS - s.tries)
    case Waiting => 10 * (n - s.index) + 2 * (MAX_SENDS - s.tries) - 1
    case _ => 0
  }

  lemma StepDecreases(job: Job, s: Server, e: Event)
    requires WellFormed(job, s) && Step(job, s, e).Some?
    ensures Remaining(job, Step(job, s, e).value) < Remaining(job, s)
  {
    if s.phase.Waiting? {
      BlockLength(job, s.index);
    }
  }

  /** No event sequence of any peer keeps a session going for more than ten events a block. */
  lemma {:induction false} SessionsEnd(job: Job, log: seq<Event>)
    requires job.Valid() && Run(job, log).Some?
    ensures |log| + Remaining(job, Run(job, log).value) <= Remaining(job, Start(job))
    ensures |log| <= 10 * (|job.file| / job.blksize + 1) + 2
  {
    ChopCount(job.file, job.blksize);
    if log != [] {
      var shorter := log[..|log| - 1];
      SessionsEnd(job, shorter);
      StepDecreases(job, Run(job, shorter).value, log[|log| - 1]);
    }
  }

  /** An unfinished session always has a next event, and it never blocks on the peer's choice. */
  lemma NoSessionIsStuck(job: Job, s: Server, reply: Option<seq<byte>>)
    requires WellFormed(job, s)
    ensures Final(s) <==>
            && Pending(job, s).None?
            && Step(job, s, if reply.Some? then Received(reply.value) else TimedOut).None?
    ensures Pending(job, s).Some? ==>
              Step(job, s, Sent(Pending(job, s).value)).Some? && Step(job, s, SendFailed).Some?
  {
  }

  function Writes(log: seq<Event>): nat {
    if log == [] then 0 else
    var e := log[|log| - 1];
    Writes(log[..|log| - 1]) + if e.Sent? || e.SendFailed? then 1 else 0
  }

  function Waits(log: seq<Event>): nat {
    if log == [] then 0 else
    var e := log[|log| - 1];
    Waits(log[..|log| - 1]) + if e.Received? || e.TimedOut? then 1 else 0
  }

  function OfferCount(job: Job): nat {
    if job.oack.Some? then 1 else 0
  }

  predicate SendBounds(job: Job, writes: nat, waits: nat, s: Server) {
    var o := OfferCount(job);
    match s.phase
    case Offer => writes == waits == 0
    case AwaitOffer => writes == 1 && waits == 0
    case Sending => waits == writes && o + s.index - 1 <= writes <= o + 5 * (s.index - 1) + s.tries
    case Waiting => waits == writes - 1 && o + s.index <= writes <= o + 5 * (s.index - 1) + s.tries + 1
    case Complete => waits == writes && o + |job.Blocks()| <= writes <= o + 5 * |job.Blocks()|
    case Aborted => waits <= writes <= waits + 1 && o + s.index <= writes <= o + 5 * s.index
  }

  lemma SendBoundsStep(job: Job, writes: nat, waits: nat, s: Server, e: Event, t: Server)
    requires WellFormed(job, s) && Step(job, s, e) == Some(t) && SendBounds(job, writes, waits, s)
    ensures SendBounds(job, if e.Sent? || e.SendFailed? then writes + 1 else writes,
                       if e.Received? || e.TimedOut? then waits + 1 else waits, t)
  {
    if s.phase.Waiting? {
      BlockLength(job, s.index);
    }
  }

  /** At most five writes and five waits a block, plus one each for the option offer, which is
      never repeated; a completed session wrote every block at least once, and one given up at
      block k wrote every block up to k. */
  lemma {:induction false} SendsAreBounded(job: Job, log: seq<Event>, s: Server)
    requires job.Valid() && Reaches(job, log, s)
    ensures SendBounds(job, Writes(log), Waits(log), s)
    ensures Waits(log) <= Writes(log) <= OfferCount(job) + 5 * (|job.file| / job.blksize + 1)
    ensures s.phase.Complete? ==> Writes(log) >= OfferCount(job) + |job.file| / job.blksize + 1
  {
    ChopCount(job.file, job.blksize);
    if log != [] {
      var shorter, last := log[..|log| - 1], log[|log| - 1];
      var before := Run(job, shorter).value;
      SendsAreBounded(job, shorter, before);
      SendBoundsStep(job, Writes(shorter), Waits(shorter), before, last, s);
    }
  }

  /** Two DATA datagrams under one block number are the same bytes, unless a whole cycle of
      the 16-bit counter lies between them. */
  lemma RetransmissionsAreIdentical(job: Job, log: seq<Event>, i: nat, j: nat, s: Server, t: Server)
    requires job.Valid() && Run(job, log).Some? && i <= j < |log|
    requires Reaches(job, log[..i], s) && Reaches(job, log[..j], t)
    requires s.phase.Sending? && t.phase.Sending? && log[i].Sent? && log[j].Sent?
    ensures var p, q := log[i].pkt, log[j].pkt;
            && |p| >= 4 && |q| >= 4
            && (p[2..4] == q[2..4] ==> p == q || t.index - s.index >= WRAP)
  {
    SentAt(job, log, i, s);
    SentAt(job, log, j, t);
    assert log[..i] <= log[..j];
    IndexGrows(job, log[..i], log[..j]);
    SameNumber(job, s.index, t.index);
  }

  lemma SameNumber(job: Job, k: nat, l: nat)
    requires 1 <= k <= l <= |job.Blocks()|
    ensures BlockPacket(job, k)[2..4] == BlockPacket(job, l)[2..4] ==> k == l || l - k >= WRAP
  {
    var p, q := BlockPacket(job, k), BlockPacket(job, l);
    if p[2..4] == q[2..4] {
      SameBytes(p, q);
      CloseNumbers(k, l);
    }
  }

  lemma SameBytes(p: seq<byte>, q: seq<byte>)
    requires |p| >= 4 && |q| >= 4 && p[2..4] == q[2..4]
    ensures Be16(p[2], p[3]) == Be16(q[2], q[3])
  {
    assert p[2] == p[2..4][0] && p[3] == p[2..4][1];
    assert q[2] == q[2..4][0] && q[3] == q[2..4][1];
  }

  lemma CloseNumbers(k: nat, l: nat)
    requires k <= l && k % WRAP == l % WRAP
    ensures k == l || l - k >= WRAP
  {
  }

  lemma SentAt(job: Job, log: seq<Event>, i: nat, s: Server)
    requires job.Valid() && Run(job, log).Some? && i < |log|
    requires Reaches(job, log[..i], s) && s.phase.Sending? && log[i].Sent?
    ensures log[i].pkt == BlockPacket(job, s.index)
  {
    RunPrefix(job, log, i + 1);
    assert log[..i + 1] == log[..i] + [log[i]];
    SentNext(job, log[..i], log[i], s);
  }

  lemma SentNext(job: Job, log: seq<Event>, e: Event, s: Server)
    requires job.Valid() && Reaches(job, log, s) && Run(job, log + [e]).Some? && s.phase.Sending? && e.Sent?
    ensures e.pkt == BlockPacket(job, s.index)
  {
    RunAppend(job, log, e);
  }

  lemma {:induction false} IndexGrows(job: Job, early: seq<Event>, log: seq<Event>)
    requires job.Valid() && Run(job, log).Some? && early <= log
    ensures Run(job, early).Some? && Run(job, early).value.index <= Run(job, log).value.index
    decreases |log|
  {
    if |early| == |log| {
      assert early == log;
    } else {
      var shorter, last := log[..|log| - 1], log[|log| - 1];
      IndexGrows(job, early, shorter);
      StepGrows(job, Run(job, shorter).value, last);
    }
  }

  lemma StepGrows(job: Job, s: Server, e: Event)
    requires WellFormed(job, s) && Step(job, s, e).Some?
    ensures s.index <= Step(job, s, e).value.index
  {
  }

  // ----- When a session gives up -----

  predicate Missed(e: Event, k: nat) {
    e.TimedOut? || (e.Received? && !Acks(e.dgram, k % WRAP))
  }

  /** The last `n` sends of block k all went unanswered, at the end of the log. */
  predicate Unanswered(job: Job, log: seq<Event>, k: nat, n: nat)
    requires 1 <= k <= |job.Blocks()|
  {
    n == 0 || (
      && |log| >= 2
      && log[|log| - 2] == Sent(BlockPacket(job, k))
      && Missed(log[|log| - 1], k)
      && Unanswered(job, log[..|log| - 2], k, n - 1))
  }

  lemma StaleNumber(k: pos)
    ensures (k - 1) % WRAP != k % WRAP
  {
  }

  /** The three ways in which a session is given up. */
  predicate GivenUp(job: Job, log: seq<Event>, s: Server)
    requires log != [] && s.index <= |job.Blocks()|
  {
    || (s.index == 0 && job.oack.Some? && |log| == 2 && Missed(log[1], 0))
    || (s.index >= 1 && log[|log| - 1].SendFailed?)
    || (s.index >= 1 && s.tries + 1 == MAX_SENDS && Unanswered(job, log, s.index, s.tries + 1))
  }

  /** A session aborts exactly for one of three reasons: the single option offer was not
      acknowledged, a write failed, or five sends of one block in a row went unanswered. */
  lemma {:induction false} AbortReasons(job: Job, log: seq<Event>, s: Server)
    requires job.Valid() && log != [] && Reaches(job, log, s)
    ensures s.phase.Aborted? <==> GivenUp(job, log, s)
  {
    if s.phase.Aborted? {
      AbortHasReason(job, log, s);
    }
    if GivenUp(job, log, s) {
      ReasonAborts(job, log, s);
    }
  }

  lemma {:induction false} AbortHasReason(job: Job, log: seq<Event>, s: Server)
    requires job.Valid() && log != [] && Reaches(job, log, s) && s.phase.Aborted?
    ensures GivenUp(job, log, s)
  {
    var shorter := log[..|log| - 1];
    var before := Run(job, shorter).value;
    OfferIsFirst(job, shorter);
    TriesCountMisses(job, shorter, before);
    AbortStep(job, before, log[|log| - 1], s);
    if before.phase.Waiting? && s.tries + 1 == MAX_SENDS && Missed(log[|log| - 1], s.index) {
      TwoOff(log);
      OneMoreMiss(job, log, s.index, s.tries);
    }
  }

  lemma {:induction false} ReasonAborts(job: Job, log: seq<Event>, s: Server)
    requires job.Valid() && log != [] && Reaches(job, log, s) && GivenUp(job, log, s)
    ensures s.phase.Aborted?
  {
    var last := log[|log| - 1];
    var before := Run(job, log[..|log| - 1]).value;
    OfferIsFirst(job, log);
    OfferIsFirst(job, log[..|log| - 1]);
    if s.index >= 1 && !last.SendFailed? {
      if s.phase.Sending? {
        MissesAreCounted(job, log, s, s.tries + 1);
      }
      NotOnlyMissed(job, before, last, s);
    } else {
      FailureAborts(job, before, last, s);
    }
  }

  /** A miss leaves the session sending or aborted. */
  lemma NotOnlyMissed(job: Job, before: Server, last: Event, s: Server)
    requires WellFormed(job, before) && Step(job, before, last) == Some(s) && s.index >= 1 && Missed(last, s.index)
    ensures s.phase.Sending? || s.phase.Aborted?
  {
  }

  lemma FailureAborts(job: Job, before: Server, last: Event, s: Server)
    requires WellFormed(job, before) && Step(job, before, last) == Some(s)
    requires (s.index >= 1 && last.SendFailed?) || (s.index == 0 && before.phase.AwaitOffer?)
    ensures s.phase.Aborted?
  {
  }

  /** What stands at the end of the log was counted: no more misses than tries. */
  lemma {:induction false} MissesAreCounted(job: Job, log: seq<Event>, s: Server, n: nat)
    requires job.Valid() && Reaches(job, log, s) && s.phase.Sending?
    ensures Unanswered(job, log, s.index, n) ==> n <= s.tries
    decreases n
  {
    if n > 0 && Unanswered(job, log, s.index, n) {
      var i := |log| - 2;
      var before, middle := BeforeLastTwo(job, log, s);
      LastTwo(job, before, log[i], middle, log[i + 1], s);
      MissesAreCounted(job, log[..i], before, n - 1);
    }
  }

  lemma {:induction false} BeforeLastTwo(job: Job, log: seq<Event>, s: Server) returns (before: Server, middle: Server)
    requires job.Valid() && |log| >= 2 && Reaches(job, log, s)
    ensures Reaches(job, log[..|log| - 2], before)
    ensures Step(job, before, log[|log| - 2]) == Some(middle)
    ensures Step(job, middle, log[|log| - 1]) == Some(s)
  {
    var shorter := log[..|log| - 1];
    middle := Run(job, shorter).value;
    assert shorter[..|shorter| - 1] == log[..|log| - 2];
    before := Run(job, shorter[..|shorter| - 1]).value;
  }

  /** A send of the block that is still to be sent, and a miss, are one try of it. */
  lemma LastTwo(job: Job, before: Server, sent: Event, middle: Server, missed: Event, s: Server)
    requires WellFormed(job, before) && 1 <= s.index <= |job.Blocks()| && s.phase.Sending?
    ensures sent == Sent(BlockPacket(job, s.index)) && Missed(missed, s.index)
            && Step(job, before, sent) == Some(middle) && Step(job, middle, missed) == Some(s)
            ==> s.tries > 0 && before == Server(Sending, s.index, s.tries - 1)
  {
    StaleNumber(before.index + 1);
  }

  lemma AbortStep(job: Job, s: Server, e: Event, t: Server)
    requires WellFormed(job, s) && Step(job, s, e) == Some(t) && t.phase.Aborted?
    ensures || (t.index == 0 && s.phase.AwaitOffer? && Missed(e, 0))
            || (t.index >= 1 && e.SendFailed?)
            || (s.phase.Waiting? && Missed(e, s.index) && s.tries + 1 == MAX_SENDS
                && t == Server(Aborted, s.index, s.tries))
  {
  }

  lemma OneMoreMiss(job: Job, log: seq<Event>, k: nat, n: nat)
    requires 1 <= k <= |job.Blocks()| && |log| >= 2 && Unanswered(job, log[..|log| - 2], k, n)
    requires log[|log| - 2] == Sent(BlockPacket(job, k)) && Missed(log[|log| - 1], k)
    ensures Unanswered(job, log, k, n + 1)
  {
  }

  lemma TwoOff(log: seq<Event>)
    ensures |log| >= 2 ==> log[..|log| - 1][..|log| - 2] == log[..|log| - 2]
  {
  }

  lemma OfferIsFirst(job: Job, log: seq<Event>)
    requires job.Valid() && Run(job, log).Some?
    ensures Run(job, log).value.phase.Offer? ==> log == []
    ensures Run(job, log).value.phase.AwaitOffer? ==> |log| == 1
  {
    if log != [] {
      OfferIsFirst(job, log[..|log| - 1]);
    }
  }

  predicate CountsMisses(job: Job, log: seq<Event>, s: Server)
    requires WellFormed(job, s)
  {
    match s.phase
    case Sending => Unanswered(job, log, s.index, s.tries)
    case Waiting => (
      && |log| >= 1
      && log[|log| - 1] == Sent(BlockPacket(job, s.index))
      && Unanswered(job, log[..|log| - 1], s.index, s.tries))
    case _ => true
  }

  lemma {:induction false} TriesCountMisses(job: Job, log: seq<Event>, s: Server)
    requires job.Valid() && Reaches(job, log, s)
    ensures CountsMisses(job, log, s)
  {
    if log != [] {
      var shorter := log[..|log| - 1];
      var before := Run(job, shorter).value;
      TriesCountMisses(job, shorter, before);
      MissStep(job, log, before);
    }
  }

  lemma MissStep(job: Job, log: seq<Event>, s: Server)
    requires log != [] && WellFormed(job, s) && CountsMisses(job, log[..|log| - 1], s)
    requires Step(job, s, log[|log| - 1]).Some?
    ensures CountsMisses(job, log, Step(job, s, log[|log| - 1]).value)
  {
    TwoOff(log);
  }

  // ----- Stale acknowledgements -----

  /** The state after further events, starting from s. */
  function Continue(job: Job, s: Server, more: seq<Event>): Option<Server>
    requires WellFormed(job, s)
    decreases |more|
  {
    if more == [] then Some(s) else
    var t := Step(job, s, more[0]);
    if t.None? then None else Continue(job, t.value, more[1..])
  }

  lemma {:induction false} RunContinues(job: Job, log: seq<Event>, s: Server, more: seq<Event>)
    requires job.Valid() && Reaches(job, log, s)
    ensures Run(job, log + more) == Continue(job, s, more)
    decreases |more|
  {
    if more == [] {
      assert log + more == log;
    } else {
      var longer, t := log + [more[0]], Step(job, s, more[0]);
      RunAppend(job, log, more[0]);
      Uncons(more);
      ConcatAssoc(log, [more[0]], more[1..]);
      if t.Some? {
        RunContinues(job, longer, t.value, more[1..]);
      } else {
        NoWayBack(job, longer, more[1..]);
      }
    }
  }

  lemma {:induction false} NoWayBack(job: Job, log: seq<Event>, more: seq<Event>)
    requires job.Valid() && Run(job, log).None?
    ensures Run(job, log + more).None?
    decreases |more|
  {
    if more == [] {
      assert log + more == log;
    } else {
      RunAppend(job, log, more[0]);
      assert log + more == log + [more[0]] + more[1..];
      NoWayBack(job, log + [more[0]], more[1..]);
    }
  }

  lemma ContinueOne(job: Job, s: Server, e: Event, t: Server, rest: seq<Event>)
    requires WellFormed(job, s) && Step(job, s, e) == Some(t)
    ensures Continue(job, s, [e] + rest) == Continue(job, t, rest)
  {
    assert ([e] + rest)[1..] == rest;
  }

  lemma ContinueTwice(job: Job, s: Server, e: Event, t: Server, e': Event, u: Server, rest: seq<Event>)
    requires WellFormed(job, s) && Step(job, s, e) == Some(t) && Step(job, t, e') == Some(u)
    ensures Continue(job, s, [e, e'] + rest) == Continue(job, u, rest)
  {
    ContinueOne(job, s, e, t, [e'] + rest);
    ContinueOne(job, t, e', u, rest);
    assert [e, e'] + rest == [e] + ([e'] + rest);
  }

  function Exhausting(k: nat, tries: nat): Server {
    if tries < MAX_SENDS then Server(Sending, k, tries) else Server(Aborted, k, MAX_SENDS - 1)
  }

  /** The send of block k and the ACK of the block before it, n times in turn. */
  function Duplicates(job: Job, k: nat, n: nat): seq<Event>
    requires 1 <= k <= |job.Blocks()|
  {
    Alternate(Sent(BlockPacket(job, k)), Received(AckPacket((k - 1) % WRAP)), n)
  }

  lemma TrySend(job: Job, k: nat, tries: nat, e: Event)
    requires job.Valid() && 1 <= k <= |job.Blocks()| && tries < MAX_SENDS && e == Sent(BlockPacket(job, k))
    ensures Step(job, Server(Sending, k, tries), e) == Some(Server(Waiting, k, tries))
  {
  }

  /** A send that is not acknowledged costs one try. */
  lemma TryMiss(job: Job, k: nat, tries: nat, e: Event)
    requires job.Valid() && 1 <= k <= |job.Blocks()| && tries < MAX_SENDS && Missed(e, k)
    ensures Step(job, Server(Waiting, k, tries), e) == Some(Exhausting(k, tries + 1))
  {
  }

  lemma {:induction false} MissesContinue(job: Job, k: nat, tries: nat, n: nat, e: Event, e': Event)
    requires job.Valid() && 1 <= k <= |job.Blocks()| && tries + n <= MAX_SENDS && WellFormed(job, Exhausting(k, tries))
    requires e == Sent(BlockPacket(job, k)) && Missed(e', k)
    ensures Continue(job, Exhausting(k, tries), Alternate(e, e', n)) == Some(Exhausting(k, tries + n))
    decreases n
  {
    if n == 0 {
      assert Alternate(e, e', n) == [];
    } else {
      TrySend(job, k, tries, e);
      TryMiss(job, k, tries, e');
      AlternateCons(e, e', n);
      ContinueTwice(job, Exhausting(k, tries), e, Server(Waiting, k, tries), e', Exhausting(k, tries + 1),
                    Alternate(e, e', n - 1));
      MissesContinue(job, k, tries + 1, n - 1, e, e');
    }
  }

  /** Duplicates of the previous ACK, each answered at once by a resend, use up the tries one by
      one (compare section 4.2.3.1 of RFC 1123). */
  lemma DuplicateAcksExhaustTries(job: Job, log: seq<Event>, k: nat, n: nat)
    requires job.Valid() && 1 <= k <= |job.Blocks()| && n <= MAX_SENDS
    requires Reaches(job, log, Server(Sending, k, 0))
    ensures Reaches(job, log + Duplicates(job, k, n), Exhausting(k, n))
  {
    StaleNumber(k);
    RunContinues(job, log, Server(Sending, k, 0), Duplicates(job, k, n));
    MissesContinue(job, k, 0, n, Sent(BlockPacket(job, k)), Received(AckPacket((k - 1) % WRAP)));
  }
}
