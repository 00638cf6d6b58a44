/** The same two ends over channels that keep order but may lose or duplicate any datagram.
    Such channels never deliver anything more than one block late, so no age bound has to be
    assumed there. */
module TftpFifo {
  import opened Sequences
  import opened TftpServer
  import opened TftpProtocol

  datatype Queues = Queues(server: Server, receiver: Receiver, toReceiver: seq<Tagged>, toServer: seq<Tagged>)

  datatype Move =
    | Write(ok: bool)
    | TimeOut
    | Junk(d: seq<byte>)
    | TakeAck
    | TakeData
    | Repeat
    | LoseData(i: nat)
    | LoseAck(i: nat)
    | DuplicateData(i: nat)
    | DuplicateAck(i: nat)

  function InitQueues(job: Job): Queues
    requires job.Valid()
  {
    Queues(Start(job), Receiver(0, [], false), [], [])
  }

  function Without<T>(q: seq<T>, i: nat): seq<T>
    requires i < |q|
  {
    q[..i] + q[i + 1..]
  }

  function Doubled<T>(q: seq<T>, i: nat): seq<T>
    requires i < |q|
  {
    q[..i + 1] + q[i..]
  }

  predicate ValidQueues(job: Job, f: Queues) {
    WellFormed(job, f.server)
  }

  function Serve(job: Job, f: Queues, e: Event): (g: Option<Queues>)
    requires ValidQueues(job, f)
    ensures g.Some? ==> ValidQueues(job, g.value)
  {
    var s := Step(job, f.server, e);
    if s.None? then None else Some(f.(server := s.value))
  }

  function Perform(job: Job, f: Queues, a: Move): (g: Option<Queues>)
    requires ValidQueues(job, f)
    ensures g.Some? ==> ValidQueues(job, g.value)
  {
    match a
    case Write(ok) => (
      var p := Pending(job, f.server);
      if p.None? then None
      else if !ok then Serve(job, f, SendFailed)
      else
        var g := Serve(job, f, Sent(p.value));
        if g.None? then None
        else Some(g.value.(toReceiver := f.toReceiver + [Tagged(f.server.index, p.value)])))
    case TimeOut => Serve(job, f, TimedOut)
    case Junk(d) => if IsAck(d) then None else Serve(job, f, Received(d))
    case TakeAck => (
      if f.toServer == [] then None
      else Serve(job, f.(toServer := f.toServer[1..]), Received(f.toServer[0].bytes)))
    case TakeData => (
      if f.toReceiver == [] then None else
      var x := React(job.blksize, f.receiver, f.toReceiver[0].bytes);
      Some(f.(receiver := x.receiver, toReceiver := f.toReceiver[1..],
              toServer := f.toServer + if x.reply then [AckOf(x.receiver)] else [])))
    case Repeat => Some(f.(toServer := f.toServer + [AckOf(f.receiver)]))
    case LoseData(i) => if i < |f.toReceiver| then Some(f.(toReceiver := Without(f.toReceiver, i))) else None
    case LoseAck(i) => if i < |f.toServer| then Some(f.(toServer := Without(f.toServer, i))) else None
    case DuplicateData(i) => if i < |f.toReceiver| then Some(f.(toReceiver := Doubled(f.toReceiver, i))) else None
    case DuplicateAck(i) => if i < |f.toServer| then Some(f.(toServer := Doubled(f.toServer, i))) else None
  }

  function Play(job: Job, moves: seq<Move>): (g: Option<Queues>)
    requires job.Valid()
    ensures g.Some? ==> ValidQueues(job, g.value)
  {
    if moves == [] then Some(InitQueues(job)) else
    var before := Play(job, moves[..|moves| - 1]);
    if before.None? then None else Perform(job, before.value, moves[|moves| - 1])
  }

  // ----- Order in the queues -----

  ghost predicate Ordered(q: seq<Tagged>, least: int) {
    && (forall i, j :: 0 <= i < j < |q| ==> q[i].index <= q[j].index)
    && (forall i :: 0 <= i < |q| ==> least <= q[i].index)
  }

  ghost predicate Covers(f: Queues, st: System) {
    && f.server == st.server
    && f.receiver == st.receiver
    && (forall i :: 0 <= i < |f.toReceiver| ==> f.toReceiver[i] in st.toReceiver)
    && (forall i :: 0 <= i < |f.toServer| ==> f.toServer[i] in st.toServer)
  }

  /** Nothing in a queue is older than one block. */
  ghost predicate Fresh(f: Queues) {
    && Ordered(f.toReceiver, f.receiver.accepted)
    && Ordered(f.toServer, f.server.index - 1)
  }

  ghost predicate Simulates(job: Job, f: Queues, st: System) {
    ValidQueues(job, f) && Inv(job, st) && Covers(f, st) && Fresh(f)
  }

  /** The protocol action behind a move; losing and duplicating change nothing there. */
  function Shadow(f: Queues, a: Move): Option<Action> {
    match a
    case Write(ok) => Some(ServerWrites(ok))
    case TimeOut => Some(ServerTimesOut)
    case Junk(d) => Some(ServerGetsJunk(d))
    case TakeAck => if f.toServer == [] then None else Some(ServerGets(f.toServer[0]))
    case TakeData => if f.toReceiver == [] then None else Some(ReceiverGets(f.toReceiver[0]))
    case Repeat => Some(ReceiverRepeats)
    case _ => None
  }

  /** A wait that does not acknowledge leaves the queues, and their order, alone. */
  lemma MissedWait(job: Job, f: Queues, st: System, e: Event)
    requires Simulates(job, f, st) && Step(job, f.server, e).Some? && (e.TimedOut? || e.Received?)
    requires e.Received? ==> !IsAck(e.dgram)
    ensures Simulates(job, f.(server := Step(job, f.server, e).value), st.(server := Step(job, f.server, e).value))
  {
    ServerReadsInv(job, st, e, st.(server := Step(job, f.server, e).value));
    ServerAdvance(job, f.server, e);
  }

  lemma Enqueued(q: seq<Tagged>, x: Tagged, least: int, all: set<Tagged>)
    requires Ordered(q, least) && least <= x.index && forall k :: 0 <= k < |q| ==> q[k] in all && q[k].index <= x.index
    ensures Ordered(q + [x], least)
    ensures forall k :: 0 <= k < |q| + 1 ==> (q + [x])[k] in all + {x}
  {
  }

  lemma WriteMove(job: Job, f: Queues, ok: bool, st: System)
    requires Simulates(job, f, st) && Perform(job, f, Write(ok)).Some?
    ensures Apply(job, st, ServerWrites(ok)).Some?
    ensures Simulates(job, Perform(job, f, Write(ok)).value, Apply(job, st, ServerWrites(ok)).value)
  {
    ServerWritesInv(job, st, ok);
    if ok {
      Enqueued(f.toReceiver, Tagged(f.server.index, Pending(job, f.server).value), f.receiver.accepted, st.toReceiver);
    }
  }

  lemma TakeAckMove(job: Job, f: Queues, st: System)
    requires Simulates(job, f, st)
    ensures f.toServer != [] ==> Age(st, ServerGets(f.toServer[0])) <= 1
    ensures Perform(job, f, TakeAck).Some? ==>
              && Apply(job, st, ServerGets(f.toServer[0])).Some?
              && Simulates(job, Perform(job, f, TakeAck).value, Apply(job, st, ServerGets(f.toServer[0])).value)
  {
    if Perform(job, f, TakeAck).Some? {
      var m := f.toServer[0];
      StepInv(job, st, ServerGets(m));
      ServerAdvance(job, f.server, Received(m.bytes));
      MatchingAck(job, st, m);
    }
  }

  lemma TakeDataMove(job: Job, f: Queues, st: System)
    requires Simulates(job, f, st) && f.toReceiver != []
    ensures var x := ReceiverGets(f.toReceiver[0]);
            && Age(st, x) <= 1
            && Apply(job, st, x).Some?
            && Simulates(job, Perform(job, f, TakeData).value, Apply(job, st, x).value)
  {
    var m := f.toReceiver[0];
    var x := React(job.blksize, f.receiver, m.bytes);
    ReceiverGetsInv(job, st, m);
    ReactionTo(job, st, m);
    Reacted(job, f, st, x.receiver, x.reply);
  }

  lemma Reacted(job: Job, f: Queues, st: System, r: Receiver, reply: bool)
    requires Simulates(job, f, st) && f.toReceiver != []
    requires r.accepted == f.receiver.accepted || r.accepted == f.toReceiver[0].index == f.receiver.accepted + 1
    requires Inv(job, st.(receiver := r, toServer := st.toServer + if reply then {AckOf(r)} else {}))
    ensures Simulates(job, f.(receiver := r, toReceiver := f.toReceiver[1..],
                              toServer := f.toServer + if reply then [AckOf(r)] else []),
                      st.(receiver := r, toServer := st.toServer + if reply then {AckOf(r)} else {}))
  {
    Dequeued(f.toReceiver, f.receiver.accepted, st.toReceiver);
    Enqueued(f.toServer, AckOf(r), f.server.index - 1, st.toServer);
  }

  lemma Dequeued(q: seq<Tagged>, least: int, all: set<Tagged>)
    requires q != [] && Ordered(q, least) && forall k :: 0 <= k < |q| ==> q[k] in all
    ensures Ordered(q[1..], q[0].index) && Ordered(q[1..], least)
    ensures forall k :: 0 <= k < |q| - 1 ==> q[1..][k] in all
  {
  }

  lemma WithoutKeeps(q: seq<Tagged>, i: nat, least: int, all: set<Tagged>)
    requires i < |q| && Ordered(q, least) && forall k :: 0 <= k < |q| ==> q[k] in all
    ensures Ordered(Without(q, i), least)
    ensures forall k :: 0 <= k < |q| - 1 ==> Without(q, i)[k] in all
  {
    var w := Without(q, i);
    assert forall k :: 0 <= k < |w| ==> w[k] == q[if k < i then k else k + 1];
  }

  lemma DoubledKeeps(q: seq<Tagged>, i: nat, least: int, all: set<Tagged>)
    requires i < |q| && Ordered(q, least) && forall k :: 0 <= k < |q| ==> q[k] in all
    ensures Ordered(Doubled(q, i), least)
    ensures forall k :: 0 <= k < |q| + 1 ==> Doubled(q, i)[k] in all
  {
    var w := Doubled(q, i);
    assert forall k :: 0 <= k < |w| ==> w[k] == q[if k <= i then k else k - 1];
  }

  lemma ChannelMove(job: Job, f: Queues, a: Move, st: System)
    requires Simulates(job, f, st) && Perform(job, f, a).Some?
    requires a.LoseData? || a.LoseAck? || a.DuplicateData? || a.DuplicateAck?
    ensures Simulates(job, Perform(job, f, a).value, st)
  {
    match a {
      case LoseData(i) => WithoutKeeps(f.toReceiver, i, f.receiver.accepted, st.toReceiver);
      case LoseAck(i) => WithoutKeeps(f.toServer, i, f.server.index - 1, st.toServer);
      case DuplicateData(i) => DoubledKeeps(f.toReceiver, i, f.receiver.accepted, st.toReceiver);
      case DuplicateAck(i) => DoubledKeeps(f.toServer, i, f.server.index - 1, st.toServer);
      case _ =>
    }
  }

  lemma RepeatMove(job: Job, f: Queues, st: System)
    requires Simulates(job, f, st)
    ensures Simulates(job, Perform(job, f, Repeat).value, Apply(job, st, ReceiverRepeats).value)
  {
    StepInv(job, st, ReceiverRepeats);
    Enqueued(f.toServer, AckOf(f.receiver), f.server.index - 1, st.toServer);
  }

  /** Every move has a shadow that is at most one block late and keeps the simulation. */
  lemma OneMove(job: Job, f: Queues, a: Move, st: System)
    requires Simulates(job, f, st) && Perform(job, f, a).Some?
    ensures var x := Shadow(f, a);
            if x.None? then Simulates(job, Perform(job, f, a).value, st)
            else && Age(st, x.value) <= 1
                 && Apply(job, st, x.value).Some?
                 && Simulates(job, Perform(job, f, a).value, Apply(job, st, x.value).value)
  {
    match a {
      case TakeAck => TakeAckMove(job, f, st);
      case TakeData => TakeDataMove(job, f, st);
      case Repeat => RepeatMove(job, f, st);
      case Write(ok) => WriteMove(job, f, ok, st);
      case TimeOut => MissedWait(job, f, st, TimedOut);
      case Junk(d) => MissedWait(job, f, st, Received(d));
      case _ => ChannelMove(job, f, a, st);
    }
  }

  ghost predicate Plays(job: Job, moves: seq<Move>, f: Queues)
    requires job.Valid()
  {
    Play(job, moves) == Some(f)
  }

  lemma {:induction false} Simulate(job: Job, moves: seq<Move>, f: Queues) returns (acts: seq<Action>, st: System)
    requires job.Valid() && Plays(job, moves, f)
    ensures LeadsTimely(job, acts, st) && Simulates(job, f, st)
  {
    if moves == [] {
      acts, st := [], Init(job);
    } else {
      var n := |moves| - 1;
      var before := Play(job, moves[..n]).value;
      acts, st := Simulate(job, moves[..n], before);
      var x := Shadow(before, moves[n]);
      OneMove(job, before, moves[n], st);
      if x.Some? {
        var next := Apply(job, st, x.value).value;
        Extend(job, acts, x.value, st, next);
        acts, st := acts + [x.value], next;
      }
    }
  }

  /** Order-keeping channels satisfy the age bound: whatever is queued, hence whatever can be
      delivered next, is at most one block behind its reader. */
  lemma {:induction false} FifoImpliesAgeBound(job: Job, moves: seq<Move>, f: Queues)
    requires job.Valid() && Plays(job, moves, f)
    ensures forall m <- f.toReceiver :: 0 <= f.receiver.accepted + 1 - m.index <= 1
    ensures forall m <- f.toServer :: 0 <= f.server.index - m.index <= 1
  {
    var acts, st := Simulate(job, moves, f);
  }

  /** So over such channels delivery is correct for files of any length, unconditionally. */
  lemma {:induction false} FifoSafety(job: Job, moves: seq<Move>, f: Queues)
    requires job.Valid() && Plays(job, moves, f)
    ensures HoldsPrefix(job, f.server, f.receiver)
    ensures f.server.phase.Complete? ==> f.receiver.data == job.file
  {
    var acts, st := Simulate(job, moves, f);
    Safety(job, acts, st);
    if f.server.phase.Complete? {
      CompleteMeansDelivered(job, acts, st);
    }
  }
}
