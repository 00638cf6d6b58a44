/** Networks that lose nothing: without duplicates a session never aborts, with duplicated
    acknowledgements it may, although every datagram is or can still be delivered. */
module TftpLossless {
  import opened Sequences
  import opened TftpServer
  import opened TftpProtocol
  import opened TftpFifo

  /** Nothing is lost, no wait times out, no write fails and no stranger interferes. */
  predicate Lossless(a: Move) {
    match a
    case Write(ok) => ok
    case TakeAck | TakeData | Repeat | DuplicateData(_) | DuplicateAck(_) => true
    case _ => false
  }

  /** Moreover, nothing is sent or delivered twice. */
  predicate Reliable(a: Move) {
    (a.Write? && a.ok) || a.TakeAck? || a.TakeData?
  }

  ghost predicate LosslessRun(job: Job, moves: seq<Move>, f: Queues)
    requires job.Valid()
  {
    Plays(job, moves, f) && forall a <- moves :: Lossless(a)
  }

  lemma PlayOn(job: Job, moves: seq<Move>, f: Queues, a: Move, g: Queues)
    requires job.Valid() && LosslessRun(job, moves, f) && Lossless(a)
    requires ValidQueues(job, f) && Perform(job, f, a) == Some(g)
    ensures LosslessRun(job, moves + [a], g)
  {
    assert (moves + [a])[..|moves|] == moves;
  }

  lemma WriteGives(job: Job, f: Queues, p: seq<byte>, s: Server)
    requires ValidQueues(job, f) && Pending(job, f.server) == Some(p) && Step(job, f.server, Sent(p)) == Some(s)
    ensures Perform(job, f, Write(true))
         == Some(f.(server := s, toReceiver := f.toReceiver + [Tagged(f.server.index, p)]))
  {
  }

  lemma DataGives(job: Job, f: Queues, r: Receiver)
    requires ValidQueues(job, f) && f.toReceiver != []
    requires React(job.blksize, f.receiver, f.toReceiver[0].bytes) == Reaction(r, true)
    ensures Perform(job, f, TakeData)
         == Some(f.(receiver := r, toReceiver := f.toReceiver[1..], toServer := f.toServer + [AckOf(r)]))
  {
  }

  lemma AckGives(job: Job, f: Queues, s: Server)
    requires ValidQueues(job, f) && f.toServer != []
    requires Step(job, f.server, Received(f.toServer[0].bytes)) == Some(s)
    ensures Perform(job, f, TakeAck) == Some(f.(server := s, toServer := f.toServer[1..]))
  {
  }

  // ----- Without duplicates -----

  function BlockOf(job: Job, k: nat): Tagged
    requires 1 <= k <= |job.Blocks()|
  {
    Tagged(k, BlockPacket(job, k))
  }

  function AckFor(k: nat): Tagged {
    Tagged(k, AckPacket(k % WRAP))
  }

  /** Exactly one datagram is under way, the last data or its acknowledgement. */
  ghost predicate OneUnderWay(f: Queues, data: Tagged, k: nat, before: nat) {
    || (f.toReceiver == [data] && f.toServer == [] && f.receiver.accepted == before)
    || (f.toReceiver == [] && f.toServer == [AckFor(k)] && f.receiver.accepted == k)
  }

  ghost predicate Quiet(f: Queues, accepted: nat) {
    f.toReceiver == [] && f.toServer == [] && f.receiver.accepted == accepted
  }

  ghost predicate Tight(job: Job, f: Queues)
    requires ValidQueues(job, f)
  {
    && (f.receiver.finished <==> f.receiver.accepted == |job.Blocks()|)
    && match f.server.phase {
         case Offer => Quiet(f, 0)
         case AwaitOffer => OneUnderWay(f, Tagged(0, job.oack.value), 0, 0)
         case Sending => f.server.tries == 0 && Quiet(f, f.server.index - 1)
         case Waiting => f.server.tries == 0 && OneUnderWay(f, BlockOf(job, f.server.index), f.server.index, f.server.index - 1)
         case Complete => Quiet(f, f.server.index)
         case Aborted => false
       }
  }

  lemma TakesBlock(job: Job, r: Receiver, k: nat)
    requires 1 <= k <= |job.Blocks()| && r.accepted == k - 1 && !r.finished
    ensures var x := React(job.blksize, r, BlockPacket(job, k));
            x.reply && x.receiver.accepted == k && (x.receiver.finished <==> k == |job.Blocks()|)
  {
    BlockLength(job, k);
  }

  lemma TakesOffer(job: Job, r: Receiver)
    requires job.Valid() && job.oack.Some? && r.accepted == 0
    ensures React(job.blksize, r, job.oack.value) == Reaction(r, true)
  {
  }

  lemma TightWrite(job: Job, f: Queues)
    requires ValidQueues(job, f) && Tight(job, f) && Perform(job, f, Write(true)).Some?
    ensures Tight(job, Perform(job, f, Write(true)).value)
  {
  }

  lemma TightData(job: Job, f: Queues)
    requires ValidQueues(job, f) && Tight(job, f) && Perform(job, f, TakeData).Some?
    ensures Tight(job, Perform(job, f, TakeData).value)
  {
    if f.server.phase.Waiting? {
      TakesBlock(job, f.receiver, f.server.index);
    } else {
      TakesOffer(job, f.receiver);
    }
  }

  lemma AckStep(job: Job, s: Server)
    requires WellFormed(job, s) && (s.phase.AwaitOffer? || s.phase.Waiting?)
    ensures Step(job, s, Received(AckFor(s.index).bytes))
         == Some(if s.index == 0 then Server(Sending, 1, 0) else AfterAck(job, s.index))
  {
  }

  lemma TightAck(job: Job, f: Queues)
    requires ValidQueues(job, f) && Tight(job, f) && Perform(job, f, TakeAck).Some?
    ensures Tight(job, Perform(job, f, TakeAck).value)
  {
    var s := f.server;
    AckStep(job, s);
    AckGives(job, f, if s.index == 0 then Server(Sending, 1, 0) else AfterAck(job, s.index));
    if s.index > 0 {
      BlockLength(job, s.index);
    }
  }

  /** A network that neither loses nor duplicates never makes a session abort. */
  lemma {:induction false} ReliableRunsNeverAbort(job: Job, moves: seq<Move>, f: Queues)
    requires job.Valid() && Plays(job, moves, f) && forall a <- moves :: Reliable(a)
    ensures !f.server.phase.Aborted? && Tight(job, f)
  {
    if moves != [] {
      var n := |moves| - 1;
      var before := Play(job, moves[..n]).value;
      ReliableRunsNeverAbort(job, moves[..n], before);
      assert moves[n] in moves;
      match moves[n] {
        case Write(_) => TightWrite(job, before);
        case TakeData => TightData(job, before);
        case TakeAck => TightAck(job, before);
        case _ =>
      }
    }
  }

  // ----- With duplicated acknowledgements -----

  /** Both queues are empty and block k is to be sent for the first time. */
  ghost predicate Calm(job: Job, k: nat, f: Queues) {
    && 1 <= k <= |job.Blocks()|
    && f.server == Server(Sending, k, 0)
    && Quiet(f, k - 1)
    && !f.receiver.finished
  }

  lemma Offered(job: Job) returns (moves: seq<Move>, f: Queues)
    requires job.Valid()
    ensures LosslessRun(job, moves, f) && Calm(job, 1, f)
  {
    moves, f := [], InitQueues(job);
    if job.oack.Some? {
      moves, f := OfferTaken(job, moves, f);
      var s := Server(Sending, 1, 0);
      AckStep(job, f.server);
      AckGives(job, f, s);
      var g := Queues(s, f.receiver, f.toReceiver, f.toServer[1..]);
      PlayOn(job, moves, f, TakeAck, g);
      moves, f := moves + [TakeAck], g;
    }
  }

  lemma OfferTaken(job: Job, moves: seq<Move>, f: Queues) returns (longer: seq<Move>, g: Queues)
    requires job.Valid() && job.oack.Some? && LosslessRun(job, moves, f)
    requires f.server == Server(Offer, 0, 0) && Quiet(f, 0)
    ensures LosslessRun(job, longer, g)
    ensures g == f.(server := Server(AwaitOffer, 0, 0), toServer := [AckFor(0)])
  {
    var s, data := Server(AwaitOffer, 0, 0), Tagged(0, job.oack.value);
    WriteGives(job, f, data.bytes, s);
    g := Queues(s, f.receiver, f.toReceiver + [data], f.toServer);
    PlayOn(job, moves, f, Write(true), g);
    longer := moves + [Write(true)];
    TakesOffer(job, f.receiver);
    DataGives(job, g, f.receiver);
    var h := Queues(s, f.receiver, g.toReceiver[1..], g.toServer + [AckOf(f.receiver)]);
    PlayOn(job, longer, g, TakeData, h);
    longer, g := longer + [TakeData], h;
  }

  /** The server has sent block k and its acknowledgement is on the way back. */
  lemma Acknowledging(job: Job, moves: seq<Move>, k: nat, f: Queues) returns (longer: seq<Move>, g: Queues)
    requires job.Valid() && LosslessRun(job, moves, f) && Calm(job, k, f)
    ensures LosslessRun(job, longer, g)
    ensures g.server == Server(Waiting, k, 0) && g.toReceiver == [] && g.toServer == [AckFor(k)]
    ensures g.receiver.accepted == k && (g.receiver.finished <==> k == |job.Blocks()|)
  {
    var s, data := Server(Waiting, k, 0), BlockOf(job, k);
    TrySend(job, k, 0, Sent(data.bytes));
    WriteGives(job, f, data.bytes, s);
    g := Queues(s, f.receiver, f.toReceiver + [data], []);
    PlayOn(job, moves, f, Write(true), g);
    longer := moves + [Write(true)];
    TakesBlock(job, f.receiver, k);
    var r := React(job.blksize, f.receiver, data.bytes).receiver;
    DataGives(job, g, r);
    var h := Queues(s, r, g.toReceiver[1..], g.toServer + [AckOf(r)]);
    PlayOn(job, longer, g, TakeData, h);
    longer, g := longer + [TakeData], h;
  }

  lemma AckTaken(job: Job, moves: seq<Move>, k: nat, f: Queues, rest: seq<Tagged>) returns (longer: seq<Move>, g: Queues)
    requires job.Valid() && 1 <= k < |job.Blocks()| && LosslessRun(job, moves, f)
    requires f.server == Server(Waiting, k, 0) && f.toServer == [AckFor(k)] + rest
    ensures LosslessRun(job, longer, g)
    ensures g == f.(server := Server(Sending, k + 1, 0), toServer := rest)
  {
    AcknowledgedIsReady(job, k);
    AckStep(job, f.server);
    g := f.(server := Server(Sending, k + 1, 0), toServer := rest);
    assert f.toServer[1..] == rest;
    AckGives(job, f, g.server);
    PlayOn(job, moves, f, TakeAck, g);
    longer := moves + [TakeAck];
  }

  lemma {:induction false} CalmAt(job: Job, k: nat) returns (moves: seq<Move>, f: Queues)
    requires job.Valid() && 1 <= k <= |job.Blocks()|
    ensures LosslessRun(job, moves, f) && Calm(job, k, f)
    decreases k
  {
    if k == 1 {
      moves, f := Offered(job);
    } else {
      moves, f := CalmAt(job, k - 1);
      moves, f := Acknowledging(job, moves, k - 1, f);
      moves, f := AckTaken(job, moves, k - 1, f, []);
    }
  }

  lemma RepeatCons<T>(m: T, n: nat)
    ensures Sequences.Repeat(m, n + 1) == [m] + Sequences.Repeat(m, n)
  {
  }

  lemma {:induction false} Duplicating(job: Job, moves: seq<Move>, f: Queues, m: Tagged, n: nat)
    returns (longer: seq<Move>)
    requires job.Valid() && LosslessRun(job, moves, f) && f.toServer == [m]
    ensures LosslessRun(job, longer, f.(toServer := [m] + Sequences.Repeat(m, n)))
    decreases n
  {
    if n == 0 {
      longer := moves;
      assert [m] + Sequences.Repeat(m, 0) == [m];
    } else {
      longer := Duplicating(job, moves, f, m, n - 1);
      var q := [m] + Sequences.Repeat(m, n - 1);
      RepeatCons(m, n - 1);
      DoubledHead(q, m);
      PlayOn(job, longer, f.(toServer := q), DuplicateAck(0), f.(toServer := [m] + q));
      longer := longer + [DuplicateAck(0)];
    }
  }

  lemma DoubledHead<T>(q: seq<T>, m: T)
    requires q != [] && q[0] == m
    ensures Doubled(q, 0) == [m] + q
  {
  }

  /** Block k has been sent `tries` times, each time answered by a stale acknowledgement. */
  function Doomed(k: nat, r: Receiver, tries: nat, data: Tagged, stale: Tagged): Queues
    requires tries <= MAX_SENDS
  {
    Queues(Exhausting(k, tries), r, Sequences.Repeat(data, tries), Sequences.Repeat(stale, MAX_SENDS - tries))
  }

  lemma OneStale(job: Job, moves: seq<Move>, k: nat, r: Receiver, tries: nat, data: Tagged, stale: Tagged)
    requires job.Valid() && 2 <= k <= |job.Blocks()| && tries < MAX_SENDS
    requires LosslessRun(job, moves, Doomed(k, r, tries, data, stale))
    ensures data == BlockOf(job, k) && stale == AckFor(k - 1) ==>
              LosslessRun(job, moves + [Write(true)] + [TakeAck], Doomed(k, r, tries + 1, data, stale))
  {
    if data == BlockOf(job, k) && stale == AckFor(k - 1) {
      var f, g := Doomed(k, r, tries, data, stale), Doomed(k, r, tries + 1, data, stale);
      var h := f.(server := Server(Waiting, k, tries), toReceiver := g.toReceiver);
      assert f.toReceiver + [data] == g.toReceiver;
      TrySend(job, k, tries, Sent(data.bytes));
      WriteGives(job, f, data.bytes, h.server);
      PlayOn(job, moves, f, Write(true), h);
      StaleNumber(k);
      TryMiss(job, k, tries, Received(stale.bytes));
      assert h.toServer[1..] == g.toServer;
      AckGives(job, h, g.server);
      PlayOn(job, moves + [Write(true)], h, TakeAck, g);
    }
  }

  lemma {:induction false} AllStale(job: Job, moves: seq<Move>, k: nat, r: Receiver, tries: nat, data: Tagged, stale: Tagged)
    returns (longer: seq<Move>)
    requires job.Valid() && 2 <= k <= |job.Blocks()| && tries <= MAX_SENDS
    requires LosslessRun(job, moves, Doomed(k, r, tries, data, stale))
    ensures data == BlockOf(job, k) && stale == AckFor(k - 1) ==>
              LosslessRun(job, longer, Doomed(k, r, MAX_SENDS, data, stale))
    decreases MAX_SENDS - tries
  {
    longer := moves;
    if tries < MAX_SENDS && data == BlockOf(job, k) && stale == AckFor(k - 1) {
      OneStale(job, moves, k, r, tries, data, stale);
      longer := AllStale(job, moves + [Write(true)] + [TakeAck], k, r, tries + 1, data, stale);
    }
  }

  /** An acknowledgement under way is duplicated n times, and its first copy taken. */
  lemma DuplicatedAndTaken(job: Job, moves: seq<Move>, j: nat, f: Queues, m: Tagged, n: nat, g: Queues)
    returns (longer: seq<Move>)
    requires job.Valid() && 1 <= j < |job.Blocks()| && LosslessRun(job, moves, f) && m == AckFor(j)
    requires f.server == Server(Waiting, j, 0) && f.toServer == [m]
    requires g == f.(server := Server(Sending, j + 1, 0), toServer := Sequences.Repeat(m, n))
    ensures LosslessRun(job, longer, g)
  {
    var rest := g.toServer;
    var h := f.(toServer := [m] + rest);
    longer := Duplicating(job, moves, f, m, n);
    var last;
    longer, last := AckTaken(job, longer, j, h, rest);
  }

  lemma NotYetDoomed(k: nat, r: Receiver, data: Tagged, stale: Tagged)
    ensures Doomed(k, r, 0, data, stale)
         == Queues(Server(Sending, k, 0), r, [], Sequences.Repeat(stale, MAX_SENDS))
  {
  }

  /** At every block after the first, duplicated acknowledgements of the block before can end the
      session on a network that loses nothing: all five copies of the block are still queued for
      the receiver, which waits for it. */
  lemma {:induction false} LosslessAbort(job: Job, k: nat) returns (moves: seq<Move>, f: Queues)
    requires job.Valid() && 2 <= k <= |job.Blocks()|
    ensures LosslessRun(job, moves, f)
    ensures f.server.phase.Aborted? && f.server.index == k
    ensures f.receiver.accepted == k - 1 && !f.receiver.finished
    ensures f.toReceiver == Sequences.Repeat(BlockOf(job, k), MAX_SENDS) && f.toServer == []
  {
    moves, f := CalmAt(job, k - 1);
    moves, f := Acknowledging(job, moves, k - 1, f);
    var data, stale := BlockOf(job, k), AckFor(k - 1);
    NotYetDoomed(k, f.receiver, data, stale);
    moves := DuplicatedAndTaken(job, moves, k - 1, f, stale, MAX_SENDS, Doomed(k, f.receiver, 0, data, stale));
    moves := AllStale(job, moves, k, f.receiver, 0, data, stale);
    f := Doomed(k, f.receiver, MAX_SENDS, data, stale);
  }
}
