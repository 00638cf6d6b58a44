/** The server, an RFC 1350 receiver and a network that loses, duplicates, delays and reorders.
    Every datagram carries, beside its bytes, the unbounded number of the block it belongs to;
    neither side ever looks at that number. */
module TftpProtocol {
  import opened Sequences
  import opened TftpServer

  /** `accepted` is how many blocks were taken; `finished` after a block shorter than blksize. */
  datatype Receiver = Receiver(accepted: nat, data: seq<byte>, finished: bool)

  datatype Tagged = Tagged(index: nat, bytes: seq<byte>)

  /** Both sets hold every datagram ever sent. A lost datagram is one that is never delivered;
      duplication, delay and reordering are deliveries in any order, any number of times. */
  datatype System = System(
    server: Server, receiver: Receiver, toReceiver: set<Tagged>, toServer: set<Tagged>)

  datatype Action =
    | ServerWrites(ok: bool)
    | ServerTimesOut
    | ServerGets(m: Tagged)
    | ServerGetsJunk(d: seq<byte>)
    | ReceiverGets(m: Tagged)
    | ReceiverRepeats

  // ----- The receiver of RFC 1350, sections 2 and 5 -----

  datatype Reaction = Reaction(receiver: Receiver, reply: bool)

  function React(blksize: pos, r: Receiver, d: seq<byte>): Reaction {
    if |d| >= 4 && Be16(d[0], d[1]) == OP_DATA then
      var n := Be16(d[2], d[3]);
      if !r.finished && n == (r.accepted + 1) % WRAP then
        Reaction(Receiver(r.accepted + 1, r.data + d[4..], |d[4..]| < blksize), true)
      else
        Reaction(r, n == r.accepted % WRAP) // a duplicate of the last block is acknowledged again
    else
      Reaction(r, |d| >= 2 && Be16(d[0], d[1]) == OP_OACK && r.accepted == 0)
  }

  function AckOf(r: Receiver): Tagged {
    Tagged(r.accepted, AckPacket(r.accepted % WRAP))
  }

  // ----- The system -----

  function Init(job: Job): System
    requires job.Valid()
  {
    System(Start(job), Receiver(0, [], false), {}, {})
  }

  predicate ValidSystem(job: Job, st: System) {
    WellFormed(job, st.server)
  }

  function ServerEvent(job: Job, st: System, e: Event): (t: Option<System>)
    requires ValidSystem(job, st)
    ensures t.Some? ==> ValidSystem(job, t.value)
  {
    var s := Step(job, st.server, e);
    if s.None? then None else Some(st.(server := s.value))
  }

  function Apply(job: Job, st: System, a: Action): (t: Option<System>)
    requires ValidSystem(job, st)
    ensures t.Some? ==> ValidSystem(job, t.value)
  {
    match a
    case ServerWrites(ok) => (
      var p := Pending(job, st.server);
      if p.None? then None
      else if !ok then ServerEvent(job, st, SendFailed)
      else
        var t := ServerEvent(job, st, Sent(p.value));
        if t.None? then None
        else Some(t.value.(toReceiver := st.toReceiver + {Tagged(st.server.index, p.value)})))
    case ServerTimesOut => ServerEvent(job, st, TimedOut)
    case ServerGets(m) => if m in st.toServer then ServerEvent(job, st, Received(m.bytes)) else None
    case ServerGetsJunk(d) => if IsAck(d) then None else ServerEvent(job, st, Received(d))
    case ReceiverGets(m) => (
      if m !in st.toReceiver then None else
      var x := React(job.blksize, st.receiver, m.bytes);
      Some(st.(receiver := x.receiver,
               toServer := st.toServer + if x.reply then {AckOf(x.receiver)} else {})))
    case ReceiverRepeats => Some(st.(toServer := st.toServer + {AckOf(st.receiver)}))
  }

  function Exec(job: Job, acts: seq<Action>): (t: Option<System>)
    requires job.Valid()
    ensures t.Some? ==> ValidSystem(job, t.value)
  {
    if acts == [] then Some(Init(job)) else
    var before := Exec(job, acts[..|acts| - 1]);
    if before.None? then None else Apply(job, before.value, acts[|acts| - 1])
  }

  lemma ExecAppend(job: Job, acts: seq<Action>, a: Action)
    requires job.Valid()
    ensures Exec(job, acts + [a]) ==
            if Exec(job, acts).None? then None else Apply(job, Exec(job, acts).value, a)
  {
    assert (acts + [a])[..|acts|] == acts;
  }

  /** How many blocks a delivered datagram is behind what its reader waits for. */
  function Age(st: System, a: Action): int {
    match a
    case ServerGets(m) => st.server.index - m.index
    case ReceiverGets(m) => st.receiver.accepted + 1 - m.index
    case _ => 0
  }

  /** No datagram of the run was delivered a whole cycle of the block counter late. */
  predicate Timely(job: Job, acts: seq<Action>)
    requires job.Valid()
  {
    acts == [] || (
      var n := |acts| - 1;
      && Timely(job, acts[..n])
      && (Exec(job, acts[..n]).Some? ==> Age(Exec(job, acts[..n]).value, acts[n]) < WRAP))
  }

  /** A run of the system from its start to `st`. */
  ghost predicate Leads(job: Job, acts: seq<Action>, st: System)
    requires job.Valid()
  {
    Exec(job, acts) == Some(st)
  }

  ghost predicate LeadsTimely(job: Job, acts: seq<Action>, st: System)
    requires job.Valid()
  {
    Leads(job, acts, st) && Timely(job, acts)
  }

  // ----- The invariant -----

  ghost predicate Inv(job: Job, st: System) {
    && ValidSystem(job, st)
    && InStep(job, st)
    && DataIsGenuine(job, st)
    && AcksAreGenuine(st)
  }

  ghost predicate InStep(job: Job, st: System)
    requires ValidSystem(job, st)
  {
    var s, r := st.server, st.receiver;
    && s.index <= r.accepted + 1
    && r.accepted <= s.index
    && (s.phase.Complete? ==> r.accepted == s.index)
    && r.data == Flatten(job.Blocks()[..r.accepted])
    && (r.finished <==> r.accepted == |job.Blocks()|)
  }

  ghost predicate DataIsGenuine(job: Job, st: System)
    requires ValidSystem(job, st)
  {
    forall m <- st.toReceiver ::
      && m.index <= st.server.index
      && (m.index == 0 ==> job.oack == Some(m.bytes))
      && (m.index >= 1 ==> m.bytes == BlockPacket(job, m.index))
  }

  ghost predicate AcksAreGenuine(st: System) {
    forall m <- st.toServer :: m.index <= st.receiver.accepted && m.bytes == AckPacket(m.index % WRAP)
  }

  lemma InitInv(job: Job)
    requires job.Valid()
    ensures Inv(job, Init(job))
  {
  }

  lemma ServerWritesInv(job: Job, st: System, ok: bool)
    requires Inv(job, st) && Apply(job, st, ServerWrites(ok)).Some?
    ensures Inv(job, Apply(job, st, ServerWrites(ok)).value)
  {
    var t := Apply(job, st, ServerWrites(ok)).value;
    assert t.server.index == st.server.index;
  }

  lemma SameResidue(a: nat, b: nat)
    requires a % WRAP == b % WRAP && -WRAP < a - b < WRAP
    ensures a == b
  {
  }

  /** An ACK whose number matches and which is not a cycle old is the ACK of the current block. */
  lemma MatchingAck(job: Job, st: System, m: Tagged)
    requires Inv(job, st)
    ensures m in st.toServer && Acks(m.bytes, st.server.index % WRAP) && st.server.index - m.index < WRAP ==>
              m.index == st.server.index == st.receiver.accepted
  {
    if m in st.toServer && Acks(m.bytes, st.server.index % WRAP) && st.server.index - m.index < WRAP {
      SameResidue(m.index, st.server.index);
    }
  }

  lemma ServerReadsInv(job: Job, st: System, e: Event, t: System)
    requires Inv(job, st) && ServerEvent(job, st, e) == Some(t) && (e.Received? || e.TimedOut?)
    requires e.Received? && Acks(e.dgram, st.server.index % WRAP) ==> st.receiver.accepted == st.server.index
    ensures Inv(job, t)
  {
    assert t == st.(server := t.server);
    ServerAdvance(job, st.server, e);
  }

  lemma ServerAdvance(job: Job, s: Server, e: Event)
    requires WellFormed(job, s) && Step(job, s, e).Some? && (e.Received? || e.TimedOut?)
    ensures var t := Step(job, s, e).value;
            && s.index <= t.index <= s.index + 1
            && (t.index > s.index || t.phase.Complete? ==> e.Received? && Acks(e.dgram, s.index % WRAP))
  {
  }

  lemma ReceiverGetsInv(job: Job, st: System, m: Tagged)
    requires Inv(job, st) && m in st.toReceiver && st.receiver.accepted + 1 - m.index < WRAP
    ensures Inv(job, Apply(job, st, ReceiverGets(m)).value)
  {
    var r, x := st.receiver, React(job.blksize, st.receiver, m.bytes);
    ReactionTo(job, st, m);
    if x.receiver != r {
      AcceptNext(job, r);
    }
    ReceiverMoves(job, st, x.receiver, x.reply);
  }

  lemma ReceiverMoves(job: Job, st: System, r: Receiver, reply: bool)
    requires Inv(job, st)
    requires r != st.receiver ==>
               && r.accepted == st.receiver.accepted + 1 <= st.server.index
               && r.data == Flatten(job.Blocks()[..r.accepted])
               && (r.finished <==> r.accepted == |job.Blocks()|)
    ensures Inv(job, st.(receiver := r, toServer := st.toServer + if reply then {AckOf(r)} else {}))
  {
  }

  /** Only the datagram of the next block makes the receiver move. */
  lemma ReactionTo(job: Job, st: System, m: Tagged)
    requires Inv(job, st) && m in st.toReceiver && st.receiver.accepted + 1 - m.index < WRAP
    ensures React(job.blksize, st.receiver, m.bytes).receiver != st.receiver ==>
              m.index == st.receiver.accepted + 1 && !st.receiver.finished
    ensures m.index >= 1 ==> m.bytes == BlockPacket(job, m.index)
  {
    if m.index >= 1 && m.index % WRAP == (st.receiver.accepted + 1) % WRAP {
      SameResidue(m.index, st.receiver.accepted + 1);
    }
  }

  lemma AcceptNext(job: Job, r: Receiver)
    requires r.accepted < |job.Blocks()| && !r.finished && r.data == Flatten(job.Blocks()[..r.accepted])
    ensures var t := React(job.blksize, r, BlockPacket(job, r.accepted + 1)).receiver;
            && t.accepted == r.accepted + 1
            && t.data == Flatten(job.Blocks()[..t.accepted])
            && (t.finished <==> t.accepted == |job.Blocks()|)
  {
    var bs, k := job.Blocks(), r.accepted + 1;
    BlockLength(job, k);
    assert bs[..k] == bs[..k - 1] + [bs[k - 1]];
    FlattenAppend(bs[..k - 1], bs[k - 1]);
  }

  lemma StepInv(job: Job, st: System, a: Action)
    requires Inv(job, st)
    ensures Apply(job, st, a).Some? && Age(st, a) < WRAP ==> Inv(job, Apply(job, st, a).value)
  {
    if Apply(job, st, a).Some? && Age(st, a) < WRAP {
      var t := Apply(job, st, a).value;
      match a {
        case ServerWrites(ok) => ServerWritesInv(job, st, ok);
        case ServerTimesOut => ServerReadsInv(job, st, TimedOut, t);
        case ServerGets(m) =>
          MatchingAck(job, st, m);
          ServerReadsInv(job, st, Received(m.bytes), t);
        case ServerGetsJunk(d) => ServerReadsInv(job, st, Received(d), t);
        case ReceiverGets(m) => ReceiverGetsInv(job, st, m);
        case ReceiverRepeats =>
      }
    }
  }

  lemma {:induction false} RunsKeepInv(job: Job, acts: seq<Action>, st: System)
    requires job.Valid() && LeadsTimely(job, acts, st)
    ensures Inv(job, st)
  {
    if acts == [] {
      InitInv(job);
    } else {
      var n := |acts| - 1;
      var before := Exec(job, acts[..n]).value;
      RunsKeepInv(job, acts[..n], before);
      StepInv(job, before, acts[n]);
    }
  }

  // ----- Main theorems -----

  /** The two ends are within one block of each other, and the receiver holds exactly the first
      blocks of the file, a prefix of it. */
  ghost predicate HoldsPrefix(job: Job, server: Server, receiver: Receiver) {
    var s, r := server.index, receiver.accepted;
    && s - 1 <= r <= s
    && r <= |job.Blocks()|
    && receiver.data == Flatten(job.Blocks()[..r])
    && receiver.data <= job.file
  }

  /** That holds in every timely run, however datagrams are lost, repeated, delayed or reordered. */
  lemma {:induction false} Safety(job: Job, acts: seq<Action>, st: System)
    requires job.Valid() && LeadsTimely(job, acts, st)
    ensures HoldsPrefix(job, st.server, st.receiver)
  {
    RunsKeepInv(job, acts, st);
    PrefixOfFile(job, st.receiver.accepted);
  }

  lemma PrefixOfFile(job: Job, r: nat)
    requires r <= |job.Blocks()|
    ensures Flatten(job.Blocks()[..r]) <= job.file
  {
    var bs := job.Blocks();
    assert bs[..r] + bs[r..] == bs;
    FlattenConcat(bs[..r], bs[r..]);
    ChopFlatten(job.file, job.blksize);
  }

  /** When the server leaves its loop normally, the receiver has the whole file, sent as
      size/blksize full blocks and one short block, empty exactly when blksize divides the size. */
  lemma CompleteMeansDelivered(job: Job, acts: seq<Action>, st: System)
    requires job.Valid() && LeadsTimely(job, acts, st) && st.server.phase.Complete?
    ensures var r := st.receiver;
            var bs := job.Blocks();
            && r.finished && r.data == job.file
            && r.accepted == |bs| == |job.file| / job.blksize + 1
            && (forall k :: 0 <= k < |bs| - 1 ==> |bs[k]| == job.blksize)
            && |bs[|bs| - 1]| == |job.file| % job.blksize
  {
    RunsKeepInv(job, acts, st);
    ChopFlatten(job.file, job.blksize);
    ChopLengths(job.file, job.blksize);
    ChopCount(job.file, job.blksize);
    assert job.Blocks()[..|job.Blocks()|] == job.Blocks();
  }

  /** The server's side of a run is a session log, so every bound on sessions holds for it. */
  lemma {:induction false} ServerSideIsASession(job: Job, acts: seq<Action>, st: System) returns (log: seq<Event>)
    requires job.Valid() && Leads(job, acts, st)
    ensures Reaches(job, log, st.server)
    ensures |log| <= 10 * (|job.file| / job.blksize + 1) + 2
  {
    if acts == [] {
      log := [];
    } else {
      var n := |acts| - 1;
      var before := Exec(job, acts[..n]).value;
      log := ServerSideIsASession(job, acts[..n], before);
      var e := ServerSees(job, before, acts[n]);
      if e.Some? {
        RunAppend(job, log, e.value);
        log := log + [e.value];
      }
    }
    SessionsEnd(job, log);
  }

  function ServerSees(job: Job, st: System, a: Action): (e: Option<Event>)
    requires ValidSystem(job, st)
    ensures Apply(job, st, a).Some? ==>
              Some(Apply(job, st, a).value.server) == if e.Some? then Step(job, st.server, e.value) else Some(st.server)
  {
    match a
    case ServerWrites(ok) =>
      if Pending(job, st.server).None? then None
      else Some(if ok then Sent(Pending(job, st.server).value) else SendFailed)
    case ServerTimesOut => Some(TimedOut)
    case ServerGets(m) => Some(Received(m.bytes))
    case ServerGetsJunk(d) => Some(Received(d))
    case _ => None
  }

  // ----- Runs without loss, and the age bound is exact -----

  function Round(job: Job, k: nat): seq<Action>
    requires 1 <= k <= |job.Blocks()|
  {
    [ServerWrites(true), ReceiverGets(Tagged(k, BlockPacket(job, k))),
     ServerGets(Tagged(k, AckPacket(k % WRAP)))]
  }

  function Prelude(job: Job): seq<Action> {
    if job.oack.None? then [] else
    [ServerWrites(true), ReceiverGets(Tagged(0, job.oack.value)), ServerGets(Tagged(0, AckPacket(0)))]
  }

  function Rounds(job: Job, k: nat): seq<Action>
    requires k <= |job.Blocks()|
  {
    if k == 0 then Prelude(job) else Rounds(job, k - 1) + Round(job, k)
  }

  /** The server when k blocks have been acknowledged. */
  function Ready(job: Job, k: nat): Server {
    if k < |job.Blocks()| then Server(Sending, k + 1, 0) else Server(Complete, k, 0)
  }

  ghost predicate After(job: Job, acts: seq<Action>, k: nat, st: System)
    requires job.Valid() && k <= |job.Blocks()|
  {
    && LeadsTimely(job, acts, st)
    && st.server == Ready(job, k)
    && st.receiver.accepted == k
    && Exchanged(job, k, st)
  }

  /** Every block up to k and every acknowledgement of one has been sent. */
  ghost predicate Exchanged(job: Job, k: nat, st: System)
    requires k <= |job.Blocks()|
  {
    forall i :: 1 <= i <= k ==> BothSent(job, i, st)
  }

  predicate BothSent(job: Job, i: nat, st: System)
    requires 1 <= i <= |job.Blocks()|
  {
    Tagged(i, BlockPacket(job, i)) in st.toReceiver && Tagged(i, AckPacket(i % WRAP)) in st.toServer
  }

  lemma ExchangeGrows(job: Job, k: nat, st: System, next: System)
    requires 1 <= k <= |job.Blocks()| && Exchanged(job, k - 1, st)
    requires next.toReceiver == st.toReceiver + {Tagged(k, BlockPacket(job, k))}
    requires next.toServer == st.toServer + {Tagged(k, AckPacket(k % WRAP))}
    ensures Exchanged(job, k, next)
  {
    forall i | 1 <= i <= k ensures BothSent(job, i, next) {
      if i < k {
        assert BothSent(job, i, st);
      }
    }
  }

  lemma Extend(job: Job, acts: seq<Action>, a: Action, st: System, t: System)
    requires job.Valid() && LeadsTimely(job, acts, st)
    ensures Follows(job, st, a, t) ==> LeadsTimely(job, acts + [a], t)
  {
    ExecAppend(job, acts, a);
    assert (acts + [a])[..|acts|] == acts;
  }

  lemma PreludeRun(job: Job) returns (st: System)
    requires job.Valid()
    ensures After(job, Prelude(job), 0, st)
  {
    st := Init(job);
    if job.oack.Some? {
      var p := Prelude(job);
      var offer := Tagged(0, job.oack.value);
      var s0, r := Init(job), Receiver(0, [], false);
      var s1 := System(Server(AwaitOffer, 0, 0), r, s0.toReceiver + {offer}, {});
      var s2 := s1.(toServer := s1.toServer + {AckOf(r)});
      var s3 := s2.(server := Server(Sending, 1, 0));
      assert Apply(job, s2, p[2]) == Some(s3);
      ExtendThrice(job, [], p, s0, s1, s2, s3);
      assert [] + p == p;
      st := s3;
    }
  }

  function Written(job: Job, st: System, k: nat): System
    requires 1 <= k <= |job.Blocks()|
  {
    st.(server := Server(Waiting, k, 0), toReceiver := st.toReceiver + {Tagged(k, BlockPacket(job, k))})
  }

  function Taken(job: Job, st: System, k: nat): System
    requires 1 <= k <= |job.Blocks()|
  {
    var r := React(job.blksize, st.receiver, BlockPacket(job, k)).receiver;
    st.(receiver := r, toServer := st.toServer + {AckOf(r)})
  }

  lemma RoundWrites(job: Job, st: System, k: nat)
    requires Inv(job, st) && 1 <= k <= |job.Blocks()| && st.server == Server(Sending, k, 0)
    ensures Apply(job, st, ServerWrites(true)) == Some(Written(job, st, k))
  {
    ServerWritesInv(job, st, true);
  }

  lemma RoundTakes(job: Job, st: System, k: nat)
    requires Inv(job, st) && 1 <= k <= |job.Blocks()| && st.receiver.accepted == k - 1
    ensures Tagged(k, BlockPacket(job, k)) in st.toReceiver ==>
              && Apply(job, st, ReceiverGets(Tagged(k, BlockPacket(job, k)))) == Some(Taken(job, st, k))
              && Taken(job, st, k).receiver.accepted == k
              && Tagged(k, AckPacket(k % WRAP)) in Taken(job, st, k).toServer
  {
    AcceptNext(job, st.receiver);
  }

  lemma TakesAck(job: Job, st: System, k: nat, m: Tagged)
    requires ValidSystem(job, st) && 1 <= k <= |job.Blocks()| && st.server == Server(Waiting, k, 0)
    ensures m in st.toServer && m.bytes == AckPacket(k % WRAP) ==>
              Apply(job, st, ServerGets(m)) == Some(st.(server := AfterAck(job, k)))
  {
  }

  lemma RoundStates(job: Job, s0: System, k: nat) returns (s1: System, s2: System, s3: System)
    requires Inv(job, s0) && 1 <= k <= |job.Blocks()|
    requires s0.server == Server(Sending, k, 0) && s0.receiver.accepted == k - 1
    ensures Follows(job, s0, Round(job, k)[0], s1)
    ensures Follows(job, s1, Round(job, k)[1], s2)
    ensures Follows(job, s2, Round(job, k)[2], s3)
    ensures s3.server == Ready(job, k) && s3.receiver.accepted == k
    ensures s3.toReceiver == s0.toReceiver + {Tagged(k, BlockPacket(job, k))}
    ensures s3.toServer == s0.toServer + {Tagged(k, AckPacket(k % WRAP))}
  {
    RoundWrites(job, s0, k);
    ServerWritesInv(job, s0, true);
    s1 := Written(job, s0, k);
    RoundTakes(job, s1, k);
    s2 := Taken(job, s1, k);
    TakesAck(job, s2, k, Tagged(k, AckPacket(k % WRAP)));
    AcknowledgedIsReady(job, k);
    s3 := s2.(server := Ready(job, k));
  }

  lemma RoundRun(job: Job, acts: seq<Action>, k: nat, st: System) returns (next: System)
    requires job.Valid() && 1 <= k <= |job.Blocks()| && After(job, acts, k - 1, st)
    ensures After(job, acts + Round(job, k), k, next)
  {
    RunsKeepInv(job, acts, st);
    var s1, s2, s3 := RoundStates(job, st, k);
    ExtendThrice(job, acts, Round(job, k), st, s1, s2, s3);
    ExchangeGrows(job, k, st, s3);
    next := s3;
  }

  lemma ExtendThrice(job: Job, acts: seq<Action>, p: seq<Action>, s0: System, s1: System, s2: System, s3: System)
    requires job.Valid() && LeadsTimely(job, acts, s0) && |p| == 3
    ensures Follows(job, s0, p[0], s1) && Follows(job, s1, p[1], s2) && Follows(job, s2, p[2], s3) ==>
              LeadsTimely(job, acts + p, s3)
  {
    if Follows(job, s0, p[0], s1) && Follows(job, s1, p[1], s2) && Follows(job, s2, p[2], s3) {
      OneByOne(acts, p);
      Extend(job, acts, p[0], s0, s1);
      Extend(job, acts + [p[0]], p[1], s1, s2);
      Extend(job, acts + [p[0]] + [p[1]], p[2], s2, s3);
    }
  }

  /** One timely action leads from s to t. */
  predicate Follows(job: Job, s: System, a: Action, t: System) {
    ValidSystem(job, s) && Apply(job, s, a) == Some(t) && Age(s, a) < WRAP
  }

  lemma OneByOne<T>(a: seq<T>, p: seq<T>)
    requires |p| == 3
    ensures a + p == a + [p[0]] + [p[1]] + [p[2]]
  {
  }

  lemma AcknowledgedIsReady(job: Job, k: nat)
    requires job.Valid() && 1 <= k <= |job.Blocks()|
    ensures AfterAck(job, k) == Ready(job, k)
  {
    BlockLength(job, k);
  }

  lemma {:induction false} RoundsRun(job: Job, k: nat) returns (st: System)
    requires job.Valid() && k <= |job.Blocks()|
    ensures After(job, Rounds(job, k), k, st)
  {
    if k == 0 {
      st := PreludeRun(job);
    } else {
      var before := RoundsRun(job, k - 1);
      st := RoundRun(job, Rounds(job, k - 1), k, before);
    }
  }

  /** Every job, of whatever length, has a timely run that ends with the file delivered. */
  lemma CompletionIsReachable(job: Job) returns (acts: seq<Action>, st: System)
    requires job.Valid()
    ensures LeadsTimely(job, acts, st) && st.server.phase.Complete? && st.receiver.data == job.file
  {
    acts := Rounds(job, |job.Blocks()|);
    st := RoundsRun(job, |job.Blocks()|);
    CompleteMeansDelivered(job, acts, st);
  }

  /** One datagram exactly WRAP blocks late is enough to corrupt a file of that length: the
      receiver then takes block 1 for block WRAP + 1. */
  lemma AgeBoundIsExact(job: Job) returns (acts: seq<Action>, st: System, late: Action, end: System)
    requires job.Valid() && |job.Blocks()| > WRAP && job.Blocks()[0] != job.Blocks()[WRAP]
    ensures LeadsTimely(job, acts, st) && Age(st, late) == WRAP
    ensures Leads(job, acts + [late], end) && !(end.receiver.data <= job.file)
  {
    acts := Rounds(job, WRAP);
    late := ReceiverGets(Tagged(1, BlockPacket(job, 1)));
    st := RoundsRun(job, WRAP);
    RunsKeepInv(job, acts, st);
    assert BothSent(job, 1, st);
    ExecAppend(job, acts, late);
    WrongBlock(job, WRAP);
    TakesLateBlock(job, st);
    end := Apply(job, st, late).value;
  }

  /** So is one acknowledgement: it moves the server past a block that the receiver lacks, and if
      that is the last one the server even completes. */
  lemma AgeBoundIsExactForAcks(job: Job) returns (acts: seq<Action>, st: System, late: Action, end: System)
    requires job.Valid() && |job.Blocks()| > WRAP
    ensures LeadsTimely(job, acts, st) && Age(st, late) == WRAP && late.ServerGets?
    ensures Leads(job, acts + [late], end)
    ensures end.server == AfterAck(job, WRAP + 1) && end.receiver.accepted == WRAP && !end.receiver.finished
    ensures |job.Blocks()| == WRAP + 1 ==> end.server.phase.Complete?
  {
    var before := RoundsRun(job, WRAP);
    assert BothSent(job, 1, before);
    acts, st := AboutToRead(job, Rounds(job, WRAP), WRAP + 1, before);
    late := ServerGets(Tagged(1, AckPacket(1)));
    TakesAck(job, st, WRAP + 1, Tagged(1, AckPacket(1)));
    end := st.(server := AfterAck(job, WRAP + 1));
    ExecAppend(job, acts, late);
    BlockLength(job, WRAP + 1);
  }

  /** The server has written block k, which has not been delivered yet. */
  lemma AboutToRead(job: Job, acts: seq<Action>, k: nat, before: System) returns (longer: seq<Action>, st: System)
    requires job.Valid() && 1 <= k <= |job.Blocks()| && After(job, acts, k - 1, before)
    ensures LeadsTimely(job, longer, st)
    ensures st.server == Server(Waiting, k, 0) && st.toServer == before.toServer
    ensures st.receiver.accepted == k - 1 && !st.receiver.finished
  {
    RunsKeepInv(job, acts, before);
    RoundWrites(job, before, k);
    st := Written(job, before, k);
    Extend(job, acts, ServerWrites(true), before, st);
    longer := acts + [ServerWrites(true)];
  }

  lemma TakesLateBlock(job: Job, st: System)
    requires Inv(job, st) && st.receiver.accepted == WRAP < |job.Blocks()|
    ensures React(job.blksize, st.receiver, BlockPacket(job, 1)).receiver.data
         == Flatten(job.Blocks()[..WRAP]) + job.Blocks()[0]
  {
  }

  lemma WrongBlock(job: Job, k: nat)
    requires 0 < k < |job.Blocks()| && job.Blocks()[0] != job.Blocks()[k]
    ensures !(Flatten(job.Blocks()[..k]) + job.Blocks()[0] <= job.file)
  {
    var bs := job.Blocks();
    var head, tail := Flatten(bs[..k]), Flatten(bs[k + 1..]);
    assert bs == bs[..k] + bs[k..] && bs[k..][1..] == bs[k + 1..];
    FlattenConcat(bs[..k], bs[k..]);
    ChopFlatten(job.file, job.blksize);
    assert job.file == head + (bs[k] + tail);
    BlockLength(job, 1);
    BlockLength(job, k + 1);
    var data := head + bs[0];
    assert data[|head|..] == bs[0];
    if k + 1 == |bs| {
      assert tail == [];
    } else {
      assert job.file[|head|..|head| + |bs[k]|] == bs[k];
    }
  }
}
