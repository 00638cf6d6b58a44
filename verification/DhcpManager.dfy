/** Starting and stopping the ProxyDHCP server at run time. Each start launches a goroutine that
    binds the port, serves, and, once serving fails, clears `running` in a completion handler;
    all of that interleaves freely with the calls from the web console. */
module DhcpManager {
  import opened Sequences

  /** Where one started server is: its goroutine has not bound the port yet, is listening, has
      had its socket closed under it, has left Serve with the handler still to run, or is gone. */
  datatype Stage = Binding | Listening | Closed | Failing | Exited

  /** `server` is the number of the server the manager holds. */
  datatype State = State(running: bool, server: Option<nat>, stages: seq<Stage>)

  datatype Action = Start | Stop | Bind(i: nat, ok: bool) | ServeFails(i: nat) | Handler(i: nat)

  const INITIAL := State(false, None, [])

  predicate PortTaken(st: State) {
    exists i :: 0 <= i < |st.stages| && st.stages[i] == Listening
  }

  predicate Is(st: State, i: nat, stage: Stage) {
    i < |st.stages| && st.stages[i] == stage
  }

  /** Every action of the program is possible where this holds. */
  predicate Enabled(st: State, a: Action) {
    match a
    case Start => true
    case Stop => true
    case Bind(i, ok) => Is(st, i, Binding) && (ok ==> !PortTaken(st))
    case ServeFails(i) => Is(st, i, Listening) || Is(st, i, Closed)
    case Handler(i) => Is(st, i, Failing)
  }

  /** Closing has an effect only on a socket that is already there. */
  function Close(stages: seq<Stage>, i: nat): seq<Stage> {
    if i < |stages| && stages[i] == Listening then stages[i := Closed] else stages
  }

  function Step(st: State, a: Action): State
    requires Enabled(st, a)
  {
    match a
    case Start =>
      if st.running then st else State(true, Some(|st.stages|), st.stages + [Binding])
    case Stop =>
      if !st.running then st
      else if st.server.None? then st.(running := false)
      else State(false, None, Close(st.stages, st.server.value))
    case Bind(i, ok) => st.(stages := st.stages[i := if ok then Listening else Failing])
    case ServeFails(i) => st.(stages := st.stages[i := Failing])
    case Handler(i) => st.(running := false, stages := st.stages[i := Exited])
  }

  predicate Possible(st: State, actions: seq<Action>)
    decreases |actions|
  {
    actions == [] || (Enabled(st, actions[0]) && Possible(Step(st, actions[0]), actions[1..]))
  }

  function Outcome(st: State, actions: seq<Action>): State
    requires Possible(st, actions)
    decreases |actions|
  {
    if actions == [] then st else Outcome(Step(st, actions[0]), actions[1..])
  }

  /** A run: the actions taken and the states passed through. */
  datatype Run = Run(states: seq<State>, actions: seq<Action>) {
    ghost predicate Valid() {
      && |states| == |actions| + 1
      && forall i :: 0 <= i < |actions| ==>
           Enabled(states[i], actions[i]) && states[i + 1] == Step(states[i], actions[i])
    }

    function Last(): State
      requires |states| > 0
    {
      states[|states| - 1]
    }

    ghost predicate FromStart() {
      Valid() && states[0] == INITIAL
    }
  }

  // ----- What holds in every interleaving -----

  ghost predicate Inv(st: State) {
    && (st.running ==>
          |st.stages| > 0 && st.server == Some(|st.stages| - 1) && st.stages[|st.stages| - 1] != Exited)
    && (forall i, j :: 0 <= i < j < |st.stages| ==> st.stages[i] != Listening || st.stages[j] != Listening)
  }

  lemma StepKeepsInv(st: State, a: Action)
    requires Inv(st) && Enabled(st, a)
    ensures Inv(Step(st, a))
  {
  }

  lemma {:induction false} InvAt(r: Run, k: nat)
    requires r.Valid() && Inv(r.states[0]) && k < |r.states|
    ensures Inv(r.states[k])
  {
    if k > 0 {
      InvAt(r, k - 1);
      StepKeepsInv(r.states[k - 1], r.actions[k - 1]);
    }
  }

  /** Whenever `running` is set, in every interleaving, the manager holds the server started
      last, whose completion handler has not run; and at most one server ever listens. */
  lemma RunningHoldsLatest(r: Run, k: nat)
    requires r.FromStart() && k < |r.states|
    ensures var st := r.states[k];
            && (st.running ==> |st.stages| > 0 && st.server == Some(|st.stages| - 1)
                               && !Is(st, |st.stages| - 1, Exited))
            && (forall i, j :: Is(st, i, Listening) && Is(st, j, Listening) ==> i == j)
  {
    InvAt(r, k);
  }

  // ----- Exactly when a listener is lost -----

  /** A listener that the manager has lost: it listens, but is not what a running manager holds. */
  predicate Leaked(st: State, j: nat) {
    Is(st, j, Listening) && (st.running ==> st.server != Some(j))
  }

  ghost predicate NoLeak(st: State) {
    forall j: nat :: !Leaked(st, j)
  }

  /** What an action must not do: bring up a server that a running manager does not hold, or clear
      the flag while a server listens. A caller can check both before the action. */
  predicate Harmless(st: State, a: Action) {
    match a
    case Bind(i, ok) => ok ==> st.running && st.server == Some(i)
    case Handler(_) => !PortTaken(st)
    case _ => true
  }

  ghost predicate AllHarmless(r: Run)
    requires r.Valid()
  {
    forall i :: 0 <= i < |r.actions| ==> Harmless(r.states[i], r.actions[i])
  }

  ghost predicate NeverLeaks(r: Run) {
    forall k :: 0 <= k < |r.states| ==> NoLeak(r.states[k])
  }

  lemma HarmlessStep(st: State, a: Action)
    requires Inv(st) && Enabled(st, a) && NoLeak(st)
    ensures NoLeak(Step(st, a)) <==> Harmless(st, a)
  {
    var t := Step(st, a);
    if a.Bind? && a.ok && !Harmless(st, a) {
      assert Leaked(t, a.i);
    } else if a.Handler? && PortTaken(st) {
      var j :| 0 <= j < |st.stages| && st.stages[j] == Listening;
      assert Leaked(t, j);
    } else {
      forall j: nat ensures !Leaked(t, j) {
        assert !Leaked(st, j);
      }
    }
  }

  lemma {:induction false} HarmlessUpTo(r: Run, k: nat)
    requires r.FromStart() && k < |r.states|
    ensures (forall i :: 0 <= i < k ==> Harmless(r.states[i], r.actions[i]))
       <==> (forall i :: 0 <= i <= k ==> NoLeak(r.states[i]))
  {
    if k > 0 {
      HarmlessUpTo(r, k - 1);
      InvAt(r, k - 1);
      if NoLeak(r.states[k - 1]) {
        HarmlessStep(r.states[k - 1], r.actions[k - 1]);
        assert NoLeak(r.states[k]) <==> Harmless(r.states[k - 1], r.actions[k - 1]);
      }
    } else {
      assert NoLeak(INITIAL);
    }
  }

  /** The exact condition: a run never loses a listener if and only if each of its actions is
      harmless in the state it is taken in. */
  lemma LeaksExactly(r: Run)
    requires r.FromStart()
    ensures NeverLeaks(r) <==> AllHarmless(r)
  {
    HarmlessUpTo(r, |r.actions|);
  }

  // ----- When `running` tells the truth -----

  /** No bind and no completion handler is pending. */
  predicate Quiescent(st: State) {
    forall i :: 0 <= i < |st.stages| ==> st.stages[i] == Listening || st.stages[i] == Exited
  }

  predicate StopsAfterBind(st: State, a: Action) {
    a.Stop? && st.running && st.server.Some? ==> !Is(st, st.server.value, Binding)
  }

  predicate StartsAfterHandlers(st: State, a: Action) {
    a.Start? && !st.running ==> forall i :: 0 <= i < |st.stages| ==> st.stages[i] == Exited
  }

  ghost predicate AllStopsAfterBind(r: Run)
    requires r.Valid()
  {
    forall i :: 0 <= i < |r.actions| ==> StopsAfterBind(r.states[i], r.actions[i])
  }

  ghost predicate AllStartsAfterHandlers(r: Run)
    requires r.Valid()
  {
    forall i :: 0 <= i < |r.actions| ==> StartsAfterHandlers(r.states[i], r.actions[i])
  }

  ghost predicate Orderly(st: State) {
    && Inv(st)
    && (forall i :: 0 <= i < |st.stages| - 1 ==> st.stages[i] == Exited)
    && (|st.stages| > 0 ==>
          match st.stages[|st.stages| - 1]
          case Binding | Listening => st.running
          case Closed | Exited => !st.running
          case Failing => true)
  }

  lemma StepKeepsOrder(st: State, a: Action)
    requires Orderly(st) && Enabled(st, a) && StopsAfterBind(st, a) && StartsAfterHandlers(st, a)
    ensures Orderly(Step(st, a))
  {
    StepKeepsInv(st, a);
  }

  lemma {:induction false} OrderAt(r: Run, k: nat)
    requires r.FromStart() && AllStopsAfterBind(r) && AllStartsAfterHandlers(r) && k < |r.states|
    ensures Orderly(r.states[k])
  {
    if k > 0 {
      OrderAt(r, k - 1);
      StepKeepsOrder(r.states[k - 1], r.actions[k - 1]);
    }
  }

  /** At rest, in every interleaving, `running` is set only if a server listens; and it says
      exactly whether one does if and only if no listener has been lost. */
  lemma TruthAtRest(r: Run, k: nat)
    requires r.FromStart() && k < |r.states| && Quiescent(r.states[k])
    ensures var st := r.states[k];
            && (st.running ==> PortTaken(st))
            && ((st.running <==> PortTaken(st)) <==> NoLeak(st))
  {
    InvAt(r, k);
    var st := r.states[k];
    var last := |st.stages| - 1;
    if st.running {
      assert st.stages[last] == Listening;
      assert NoLeak(st);
    } else if PortTaken(st) {
      var j :| 0 <= j < |st.stages| && st.stages[j] == Listening;
      assert Leaked(st, j);
    }
  }

  /** A simple discipline that is harmless: stop only after the bind, and start only after the
      handlers of the stopped servers. */
  lemma OrderlyIsHarmless(r: Run)
    requires r.FromStart() && AllStopsAfterBind(r) && AllStartsAfterHandlers(r)
    ensures AllHarmless(r)
  {
    forall i | 0 <= i < |r.actions| ensures Harmless(r.states[i], r.actions[i]) {
      OrderAt(r, i);
    }
  }

  /** Under that discipline `running` says at rest exactly whether a server listens. */
  lemma RunningIsTruthful(r: Run)
    requires r.FromStart() && AllStopsAfterBind(r) && AllStartsAfterHandlers(r) && Quiescent(r.Last())
    ensures var st := r.Last();
            && (st.running <==> PortTaken(st))
            && (st.running ==> st.server.Some? && Is(st, st.server.value, Listening))
  {
    OrderlyIsHarmless(r);
    LeaksExactly(r);
    TruthAtRest(r, |r.states| - 1);
    InvAt(r, |r.states| - 1);
  }

  // ----- Neither half of the discipline is enough -----

  lemma Longer(r: Run, a: Action) returns (s: Run)
    requires r.FromStart() && Enabled(r.Last(), a)
    ensures s.FromStart() && s.Last() == Step(r.Last(), a) && s.actions == r.actions + [a]
    ensures AllStopsAfterBind(r) && StopsAfterBind(r.Last(), a) ==> AllStopsAfterBind(s)
    ensures AllStartsAfterHandlers(r) && StartsAfterHandlers(r.Last(), a) ==> AllStartsAfterHandlers(s)
  {
    s := Run(r.states + [Step(r.Last(), a)], r.actions + [a]);
    forall i | 0 <= i < |s.actions|
      ensures Enabled(s.states[i], s.actions[i]) && s.states[i + 1] == Step(s.states[i], s.actions[i])
    {
      if i < |r.actions| {
        assert s.states[i] == r.states[i] && s.actions[i] == r.actions[i] && s.states[i + 1] == r.states[i + 1];
      }
    }
  }

  /** Stopping before the bind closes nothing, so the server comes up after being stopped. */
  lemma StopBeforeBindLeaks() returns (r: Run)
    ensures r.FromStart() && AllStartsAfterHandlers(r)
    ensures r.actions == [Start, Stop, Bind(0, true)]
    ensures Quiescent(r.Last()) && !r.Last().running && Leaked(r.Last(), 0)
  {
    r := Run([INITIAL], []);
    r := Longer(r, Start);
    r := Longer(r, Stop);
    assert r.Last() == State(false, None, [Binding]);
    r := Longer(r, Bind(0, true));
  }

  /** Re-applying the configuration of a running server stops it and starts another at once.
      The handler of the first may then clear the flag of the second, although every stop came
      after the bind. */
  lemma RestartLeaks() returns (r: Run)
    ensures r.FromStart() && AllStopsAfterBind(r)
    ensures r.actions == [Start, Bind(0, true), Stop, Start, ServeFails(0), Handler(0), Bind(1, true)]
    ensures Quiescent(r.Last()) && !r.Last().running && Leaked(r.Last(), 1)
  {
    r := Restarted();
    r := Longer(r, ServeFails(0));
    assert r.Last() == State(true, Some(1), [Failing, Binding]);
    r := Longer(r, Handler(0));
    assert r.Last() == State(false, Some(1), [Exited, Binding]);
    r := Longer(r, Bind(1, true));
    assert r.Last() == State(false, Some(1), [Exited, Listening]);
  }

  lemma Restarted() returns (r: Run)
    ensures r.FromStart() && AllStopsAfterBind(r)
    ensures r.actions == [Start, Bind(0, true), Stop, Start]
    ensures r.Last() == State(true, Some(1), [Closed, Binding])
  {
    r := Run([INITIAL], []);
    r := Longer(r, Start);
    assert r.Last() == State(true, Some(0), [Binding]);
    r := Longer(r, Bind(0, true));
    assert r.Last() == State(true, Some(0), [Listening]);
    r := Longer(r, Stop);
    assert r.Last() == State(false, None, [Closed]);
    r := Longer(r, Start);
  }

  lemma {:induction false} LeakAt(r: Run, j: nat, k: nat)
    requires r.Valid() && Leaked(r.states[0], j) && ServeFails(j) !in r.actions && k < |r.states|
    ensures Leaked(r.states[k], j)
  {
    if k > 0 {
      LeakAt(r, j, k - 1);
      assert r.actions[k - 1] in r.actions;
    }
  }

  /** A leak lasts: unless its own socket fails, no sequence of calls ever closes the lost
      listener, no other server can come up, and at rest the manager reports "not running". */
  lemma LeakIsPermanent(r: Run, j: nat)
    requires r.Valid() && Inv(r.states[0]) && Leaked(r.states[0], j) && ServeFails(j) !in r.actions
    ensures var st := r.Last();
            && Leaked(st, j)
            && (forall i :: Is(st, i, Listening) ==> i == j)
            && (Quiescent(st) ==> !st.running)
  {
    var n := |r.states| - 1;
    InvAt(r, n);
    LeakAt(r, j, n);
  }

  // ----- The manager object -----

  class Manager {
    var running: bool
    var server: Option<nat>
    var stages: seq<Stage>

    ghost function View(): State
      reads this
    {
      State(running, server, stages)
    }

    constructor ()
      ensures View() == INITIAL
    {
      running, server, stages := false, None, [];
    }

    method Start()
      modifies this
      ensures View() == Step(old(View()), Action.Start)
    {
      if running {
        return;
      }
      server := Some(|stages|);
      running := true;
      stages := stages + [Binding];
    }

    method Stop()
      modifies this
      ensures View() == Step(old(View()), Action.Stop)
    {
      if !running {
        return;
      }
      if server.Some? {
        CloseServer(server.value);
        server := None;
      }
      running := false;
    }

    /** The lock is released between the two halves; `others` is what other goroutines do then. */
    method Apply(enable: bool, others: seq<Action>)
      requires enable ==> Possible(Step(View(), Action.Stop), others)
      modifies this
      ensures var stopped := Step(old(View()), Action.Stop);
              View() == if enable then Step(Outcome(stopped, others), Action.Start) else stopped
    {
      if enable {
        Stop();
        Interleave(others);
        Start();
      } else {
        Stop();
      }
    }

    method Interleave(actions: seq<Action>)
      requires Possible(View(), actions)
      modifies this
      ensures View() == Outcome(old(View()), actions)
    {
      assert actions[0..] == actions;
      for k := 0 to |actions|
        invariant Possible(View(), actions[k..])
        invariant Outcome(View(), actions[k..]) == Outcome(old(View()), actions)
      {
        assert actions[k..][0] == actions[k] && actions[k..][1..] == actions[k + 1..];
        Act(actions[k]);
      }
    }

    method Act(a: Action)
      requires Enabled(View(), a)
      modifies this
      ensures View() == Step(old(View()), a)
    {
      match a {
        case Start => Start();
        case Stop => Stop();
        case Bind(i, ok) => BindPort(i, ok);
        case ServeFails(i) => LeaveServe(i);
        case Handler(i) => Complete(i);
      }
    }

    method CloseServer(i: nat)
      modifies this`stages
      ensures stages == Close(old(stages), i)
    {
      if i < |stages| && stages[i] == Listening {
        stages := stages[i := Closed];
      }
    }

    /** The goroutine of server i, step by step. */
    method BindPort(i: nat, free: bool)
      requires Enabled(View(), Bind(i, free))
      modifies this
      ensures View() == Step(old(View()), Bind(i, free))
    {
      stages := stages[i := if free then Listening else Failing];
    }

    method LeaveServe(i: nat)
      requires Enabled(View(), ServeFails(i))
      modifies this
      ensures View() == Step(old(View()), ServeFails(i))
    {
      stages := stages[i := Failing];
    }

    method Complete(i: nat)
      requires Enabled(View(), Handler(i))
      modifies this
      ensures View() == Step(old(View()), Handler(i))
    {
      running := false;
      stages := stages[i := Exited];
    }
  }
}
