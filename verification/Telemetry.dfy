/** The telemetry singleton (mem0/memory/telemetry.py) as interleaved steps of any
    number of threads.  A step is one read, write, construction or lock
    operation; the unlocked reads of the fast path are steps of their own. */
module Telemetry {
  import opened Wrappers

  type Thread = nat
  type Client = nat

  /** Where a thread is; the name says what its next step does. */
  datatype Pc =
    | Idle
    // _get_oss_telemetry
    | ReadFlag | ReadInstance | ReturnInstance | Acquire
    | ReadFlagLocked | ReadInstanceLocked | ReturnLocked | Construct | Assign(client: Client)
    // _shutdown_oss_telemetry
    | AcquireShutdown | SetFlag | ReadInstanceShutdown | Close | Clear | Release

  /** `made` counts constructed clients; `returned` lists what calls returned. */
  datatype State = State(
    pc: map<Thread, Pc>, instance: Option<Client>, shuttingDown: bool, lock: Option<Thread>,
    made: nat, closed: set<Client>, returned: seq<Option<Client>>)

  const Start := State(map[], None, false, None, 0, {}, [])

  datatype Action = CallGet(t: Thread) | CallShutdown(t: Thread) | Continue(t: Thread)

  function PcOf(s: State, t: Thread): Pc { if t in s.pc then s.pc[t] else Idle }

  function At(s: State, t: Thread, pc: Pc): State { s.(pc := s.pc[t := pc]) }

  /** The call returns; a locked region is left with it. */
  function Return(s: State, t: Thread, result: Option<Client>): State {
    At(s, t, Idle).(returned := s.returned + [result], lock := if s.lock == Some(t) then None else s.lock)
  }

  /** A thread waiting for the lock stays where it is. */
  function Lock(s: State, t: Thread, next: Pc): State {
    if s.lock == None then At(s, t, next).(lock := Some(t)) else s
  }

  function Advance(s: State, t: Thread): State {
    match PcOf(s, t)
    case Idle => s
    case ReadFlag => if s.shuttingDown then Return(s, t, None) else At(s, t, ReadInstance)
    case ReadInstance => At(s, t, if s.instance.Some? then ReturnInstance else Acquire)
    case ReturnInstance => Return(s, t, s.instance)
    case Acquire => Lock(s, t, ReadFlagLocked)
    case ReadFlagLocked => if s.shuttingDown then Return(s, t, None) else At(s, t, ReadInstanceLocked)
    case ReadInstanceLocked => At(s, t, if s.instance.Some? then ReturnLocked else Construct)
    case Construct => At(s, t, Assign(s.made)).(made := s.made + 1)
    case Assign(client) => At(s, t, ReturnLocked).(instance := Some(client))
    case ReturnLocked => Return(s, t, s.instance)
    case AcquireShutdown => Lock(s, t, SetFlag)
    case SetFlag => At(s, t, ReadInstanceShutdown).(shuttingDown := true)
    case ReadInstanceShutdown => At(s, t, if s.instance.Some? then Close else Release)
    case Close => At(s, t, Clear).(closed := if s.instance.Some? then s.closed + {s.instance.value} else s.closed)
    case Clear => At(s, t, Release).(instance := None)
    case Release => At(s, t, Idle).(lock := None)
  }

  function Step(s: State, a: Action): State {
    match a
    case CallGet(t) => if PcOf(s, t) == Idle then At(s, t, ReadFlag) else s
    case CallShutdown(t) => if PcOf(s, t) == Idle then At(s, t, AcquireShutdown) else s
    case Continue(t) => Advance(s, t)
  }

  function Run(s: State, actions: seq<Action>): State
    decreases |actions|
  {
    if actions == [] then s else Run(Step(s, actions[0]), actions[1..])
  }

  // ---------- the invariant ----------

  predicate InCritical(pc: Pc) {
    match pc
    case ReadFlagLocked | ReadInstanceLocked | ReturnLocked | Construct | Assign(_)
       | SetFlag | ReadInstanceShutdown | Close | Clear | Release => true
    case _ => false
  }

  predicate NeverMade(s: State) { s.made == 0 && s.instance == None && s.closed == {} }

  predicate Serving(s: State) { s.made == 1 && s.instance == Some(0) && s.closed == {} && !s.shuttingDown }

  predicate ShutDown(s: State) { s.made == 1 && s.instance == None && s.closed == {0} && s.shuttingDown }

  predicate Quiescent(s: State) { NeverMade(s) || Serving(s) || ShutDown(s) }

  /** What the globals look like, given where the lock holder is. */
  predicate Globals(s: State, holder: Pc) {
    match holder
    case ReadInstanceLocked => Quiescent(s) && !s.shuttingDown
    case ReturnLocked => Serving(s)
    case Construct => NeverMade(s) && !s.shuttingDown
    case Assign(client) => client == 0 && s.made == 1 && s.instance == None && s.closed == {} && !s.shuttingDown
    case ReadInstanceShutdown =>
      s.shuttingDown && (NeverMade(s) || ShutDown(s) || (s.made == 1 && s.instance == Some(0) && s.closed == {}))
    case Close => s.shuttingDown && s.made == 1 && s.instance == Some(0) && s.closed == {}
    case Clear => s.shuttingDown && s.made == 1 && s.instance == Some(0) && s.closed == {0}
    case Release => s.shuttingDown && Quiescent(s)
    case _ => Quiescent(s)
  }

  predicate OnlyFirst(s: State, r: Option<Client>) { r == None || (r == Some(0) && s.made == 1) }

  ghost predicate Mutex(s: State) {
    forall t: Thread :: InCritical(PcOf(s, t)) <==> s.lock == Some(t)
  }

  ghost predicate Returned(s: State) {
    forall i :: 0 <= i < |s.returned| ==> OnlyFirst(s, s.returned[i])
  }

  function Holder(s: State): Pc { if s.lock.Some? then PcOf(s, s.lock.value) else Idle }

  ghost predicate Inv(s: State) {
    Mutex(s) && Globals(s, Holder(s)) && Returned(s)
  }

  lemma AdvanceMutex(s: State, t: Thread)
    requires Mutex(s)
    ensures Mutex(Advance(s, t))
  {
    var next := Advance(s, t);
    assert InCritical(PcOf(s, t)) <==> s.lock == Some(t);
    forall u: Thread ensures InCritical(PcOf(next, u)) <==> next.lock == Some(u) {
      if u != t { assert PcOf(next, u) == PcOf(s, u); }
    }
  }

  lemma AdvanceGlobals(s: State, t: Thread)
    requires Mutex(s) && Globals(s, Holder(s))
    ensures Globals(Advance(s, t), Holder(Advance(s, t))) && s.made <= Advance(s, t).made
  {
    assert InCritical(PcOf(s, t)) <==> s.lock == Some(t);
  }

  lemma AdvanceReturned(s: State, t: Thread)
    requires Inv(s)
    ensures Returned(Advance(s, t))
  {
    AdvanceGlobals(s, t);
    assert InCritical(PcOf(s, t)) <==> s.lock == Some(t);
  }

  lemma AdvanceKeeps(s: State, t: Thread)
    requires Inv(s)
    ensures Inv(Advance(s, t))
  {
    AdvanceMutex(s, t);
    AdvanceGlobals(s, t);
    AdvanceReturned(s, t);
  }

  lemma StepKeeps(s: State, a: Action)
    requires Inv(s)
    ensures Inv(Step(s, a))
  {
    match a
    case Continue(t) => AdvanceKeeps(s, t);
    case CallGet(t) => assert forall u :: u != t ==> PcOf(Step(s, a), u) == PcOf(s, u);
    case CallShutdown(t) => assert forall u :: u != t ==> PcOf(Step(s, a), u) == PcOf(s, u);
  }

  lemma {:induction false} RunKeeps(s: State, actions: seq<Action>)
    requires Inv(s)
    ensures Inv(Run(s, actions))
    decreases |actions|
  {
    if actions != [] {
      StepKeeps(s, actions[0]);
      RunKeeps(Step(s, actions[0]), actions[1..]);
    }
  }

  /** A call that came back with none, and one that is about to, has shutdown to blame. */
  ghost predicate NoneMeansShutdown(s: State) {
    && (None in s.returned ==> s.shuttingDown)
    && forall t :: PcOf(s, t) == ReturnInstance ==> s.instance.Some? || s.shuttingDown
  }

  lemma AdvanceNone(s: State, t: Thread)
    requires Inv(s) && NoneMeansShutdown(s)
    ensures NoneMeansShutdown(Advance(s, t))
  {
    var next := Advance(s, t);
    assert InCritical(PcOf(s, t)) <==> s.lock == Some(t);
    forall u | u != t ensures PcOf(next, u) == PcOf(s, u) { }
    assert s.shuttingDown ==> next.shuttingDown;
    assert s.instance.Some? ==> next.instance.Some? || next.shuttingDown;
  }

  lemma StepNone(s: State, a: Action)
    requires Inv(s) && NoneMeansShutdown(s)
    ensures NoneMeansShutdown(Step(s, a))
  {
    match a
    case Continue(t) => AdvanceNone(s, t);
    case CallGet(t) => assert forall u :: u != t ==> PcOf(Step(s, a), u) == PcOf(s, u);
    case CallShutdown(t) => assert forall u :: u != t ==> PcOf(Step(s, a), u) == PcOf(s, u);
  }

  lemma {:induction false} RunNone(s: State, actions: seq<Action>)
    requires Inv(s) && NoneMeansShutdown(s)
    ensures NoneMeansShutdown(Run(s, actions))
    decreases |actions|
  {
    hide Inv, Step, NoneMeansShutdown;
    if actions != [] {
      StepKeeps(s, actions[0]);
      StepNone(s, actions[0]);
      RunNone(Step(s, actions[0]), actions[1..]);
    }
  }

  /** In every interleaving at most one client is constructed, every call returns
      none or that client, and none only once shutdown has begun; only that client is
      ever closed, and no two threads are in the locked regions together. */
  lemma AtMostOneClient(actions: seq<Action>)
    ensures var s := Run(Start, actions);
            && s.made <= 1
            && s.closed <= {0}
            && (forall r :: r in s.returned ==> r == None || (r == Some(0) && s.made == 1))
            && (None in s.returned ==> s.shuttingDown)
            && (forall t, u :: InCritical(PcOf(s, t)) && InCritical(PcOf(s, u)) ==> t == u)
  {
    hide Run;
    RunKeeps(Start, actions);
    RunNone(Start, actions);
  }

  // ---------- after shutdown ----------

  /** Shutdown has run: the flag is set and its thread has left the locked region. */
  ghost predicate AfterShutdown(s: State) {
    s.shuttingDown && forall t :: PcOf(s, t) !in {ReadInstanceShutdown, Close, Clear, Release}
  }

  ghost predicate Over(s: State) { Inv(s) && s.shuttingDown && s.instance == None && (s.made == 1 ==> s.closed == {0}) }

  lemma ShutdownIsOver(s: State)
    requires Inv(s) && AfterShutdown(s)
    ensures Over(s)
  {
  }

  lemma OverStep(s: State, a: Action)
    requires Over(s)
    ensures Over(Step(s, a)) && Step(s, a).made == s.made
  {
    StepKeeps(s, a);
  }

  lemma {:induction false} OverForever(s: State, actions: seq<Action>)
    requires Over(s)
    ensures Over(Run(s, actions)) && Run(s, actions).made == s.made
    decreases |actions|
  {
    if actions != [] {
      OverStep(s, actions[0]);
      OverForever(Step(s, actions[0]), actions[1..]);
    }
  }

  lemma {:induction false} RunAppend(s: State, a: seq<Action>, c: seq<Action>)
    ensures Run(s, a + c) == Run(Run(s, a), c)
    decreases |a|
  {
    if a == [] {
      assert a + c == c;
    } else {
      assert (a + c)[1..] == a[1..] + c;
      RunAppend(Step(s, a[0]), a[1..], c);
    }
  }

  /** Once shutdown has run, whatever follows: the global is empty, a client that
      was made is closed, and none is made any more. */
  lemma NothingAfterShutdown(before: seq<Action>, after: seq<Action>)
    requires AfterShutdown(Run(Start, before))
    ensures var s, t := Run(Start, before), Run(Start, before + after);
            t.shuttingDown && t.instance == None && t.made == s.made && (t.made == 1 ==> t.closed == {0})
  {
    RunKeeps(Start, before);
    ShutdownIsOver(Run(Start, before));
    OverForever(Run(Start, before), after);
    RunAppend(Start, before, after);
  }

  // ---------- progress ----------

  /** Thread `t` takes `n` steps. */
  function Alone(s: State, t: Thread, n: nat): State
    decreases n
  {
    if n == 0 then s else Alone(Advance(s, t), t, n - 1)
  }

  function Steps(t: Thread, n: nat): (actions: seq<Action>)
    ensures |actions| == n
  {
    seq(n, _ => Continue(t))
  }

  lemma {:induction false} RunAlone(s: State, t: Thread, n: nat)
    ensures Run(s, Steps(t, n)) == Alone(s, t, n)
    decreases n
  {
    hide Advance;
    if n > 0 {
      assert Steps(t, n)[1..] == Steps(t, n - 1);
      RunAlone(Advance(s, t), t, n - 1);
    }
  }

  /** An idle thread, while no one is in a locked region. */
  predicate CanCall(s: State, t: Thread) { PcOf(s, t) == Idle && s.lock == None }

  /** What a call does in each of the three situations it can meet. */
  lemma CallAfterShutdown(s: State, t: Thread)
    requires CanCall(s, t) && s.shuttingDown
    ensures Alone(Step(s, CallGet(t)), t, 1) == At(s, t, Idle).(returned := s.returned + [None])
  {
    var s1 := Step(s, CallGet(t));
    assert Alone(s1, t, 1) == Alone(Advance(s1, t), t, 0);
  }

  lemma CallFinds(s: State, t: Thread)
    requires CanCall(s, t) && !s.shuttingDown && s.instance.Some?
    ensures Alone(Step(s, CallGet(t)), t, 3) == At(s, t, Idle).(returned := s.returned + [s.instance])
  {
    var s1 := Step(s, CallGet(t));
    var s2 := Advance(s1, t);
    var s3 := Advance(s2, t);
    assert s3 == At(s, t, ReturnInstance);
    assert Alone(s1, t, 3) == Alone(s2, t, 2) == Alone(s3, t, 1) == Alone(Advance(s3, t), t, 0);
  }

  lemma CallLocks(s: State, t: Thread)
    requires CanCall(s, t) && !s.shuttingDown && s.instance.None?
    ensures Alone(Step(s, CallGet(t)), t, 5) == At(s, t, Construct).(lock := Some(t))
  {
    var s1 := Step(s, CallGet(t));
    var s2 := Advance(s1, t);
    var s3 := Advance(s2, t);
    assert s3 == At(s, t, Acquire);
    var s4 := Advance(s3, t);
    assert s4 == At(s, t, ReadFlagLocked).(lock := Some(t));
    var s5 := Advance(s4, t);
    assert s5 == At(s, t, ReadInstanceLocked).(lock := Some(t));
    AloneSteps(s1, s2, s3, s4, s5, t);
  }

  lemma AloneSteps(s1: State, s2: State, s3: State, s4: State, s5: State, t: Thread)
    requires s2 == Advance(s1, t) && s3 == Advance(s2, t) && s4 == Advance(s3, t) && s5 == Advance(s4, t)
    ensures Alone(s1, t, 5) == Advance(s5, t)
  {
    hide Advance;
    assert Alone(s1, t, 5) == Alone(s2, t, 4) == Alone(s3, t, 3) == Alone(s4, t, 2);
    assert Alone(s4, t, 2) == Alone(s5, t, 1) == Alone(Advance(s5, t), t, 0);
  }

  lemma CallConstructs(s: State, t: Thread)
    requires PcOf(s, t) == Construct && s.lock == Some(t) && s.made == 0
    ensures Alone(s, t, 3)
              == At(s, t, Idle).(made := 1, instance := Some(0), lock := None, returned := s.returned + [Some(0)])
  {
    var s1 := Advance(s, t);
    var s2 := Advance(s1, t);
    assert Alone(s, t, 3) == Alone(s1, t, 2) == Alone(s2, t, 1) == Alone(Advance(s2, t), t, 0);
  }

  lemma {:induction false} AloneAppend(s: State, t: Thread, m: nat, n: nat)
    ensures Alone(s, t, m + n) == Alone(Alone(s, t, m), t, n)
    decreases m
  {
    hide Advance;
    if m > 0 { AloneAppend(Advance(s, t), t, m - 1, n); }
  }

  lemma {:induction false} IdleStays(s: State, t: Thread, n: nat)
    requires PcOf(s, t) == Idle
    ensures Alone(s, t, n) == s
    decreases n
  {
    if n > 0 { IdleStays(s, t, n - 1); }
  }

  /** With the lock free the globals are those between two locked regions. */
  lemma FreeIsQuiescent(before: seq<Action>)
    requires Run(Start, before).lock == None
    ensures var s := Run(Start, before);
            (s.instance == None && (!s.shuttingDown ==> s.made == 0)) || (s.instance == Some(0) && s.made == 1)
  {
    hide Run;
    RunKeeps(Start, before);
  }

  lemma RunFirst(s: State, a: Action, rest: seq<Action>)
    ensures Run(s, [a] + rest) == Run(Step(s, a), rest)
  {
    assert ([a] + rest)[1..] == rest;
  }

  /** In every state that an interleaving reaches: a call that finds the lock free and is not
      disturbed returns within eight steps, with none once shutdown has begun and otherwise with
      the one client, which it makes if nobody has. */
  lemma CallReturns(before: seq<Action>, t: Thread)
    requires CanCall(Run(Start, before), t)
    ensures var s := Run(Start, before);
            var u := Run(s, [CallGet(t)] + Steps(t, 8));
            && u.returned == s.returned + [if s.shuttingDown then None else Some(0)]
            && (!s.shuttingDown ==> u.made == 1 && u.instance == Some(0))
            && (s.shuttingDown ==> u.made == s.made)
  {
    hide Run, Advance, Alone, Step;
    var s := Run(Start, before);
    FreeIsQuiescent(before);
    RunFirst(s, CallGet(t), Steps(t, 8));
    var s1 := Step(s, CallGet(t));
    RunAlone(s1, t, 8);
    if s.shuttingDown {
      CallAfterShutdown(s, t);
      AloneAppend(s1, t, 1, 7);
      IdleStays(Alone(s1, t, 1), t, 7);
    } else if s.instance.Some? {
      CallFinds(s, t);
      AloneAppend(s1, t, 3, 5);
      IdleStays(Alone(s1, t, 3), t, 5);
    } else {
      CallLocks(s, t);
      AloneAppend(s1, t, 5, 3);
      CallConstructs(Alone(s1, t, 5), t);
    }
  }

  lemma ShutdownCloses(s: State, t: Thread)
    requires PcOf(s, t) == ReadInstanceShutdown && s.lock == Some(t)
    ensures Alone(s, t, 4)
              == At(s, t, Idle).(instance := None, lock := None,
                                 closed := if s.instance.Some? then s.closed + {s.instance.value} else s.closed)
  {
    var s2 := Advance(s, t);
    var s3 := Advance(s2, t);
    var s4 := Advance(s3, t);
    assert s.instance.None? ==> s3 == At(s, t, Idle).(lock := None) && s4 == s3;
    assert Alone(s, t, 4) == Alone(s2, t, 3) == Alone(s3, t, 2) == Alone(s4, t, 1) == Alone(Advance(s4, t), t, 0);
  }

  /** And a shutdown that finds the lock free is over in six steps: the flag is set, the global
      empty and the client, if there was one, closed. */
  lemma ShutdownFinishes(s: State, t: Thread)
    requires CanCall(s, t)
    ensures var u := Alone(Step(s, CallShutdown(t)), t, 6);
            && u.shuttingDown && u.instance == None && u.lock == None && u.made == s.made
            && u.closed == (if s.instance.Some? then s.closed + {s.instance.value} else s.closed)
  {
    var s1 := Step(s, CallShutdown(t));
    var s2 := Advance(s1, t);
    var s3 := Advance(s2, t);
    assert s3 == At(s, t, ReadInstanceShutdown).(lock := Some(t), shuttingDown := true);
    assert Alone(s1, t, 6) == Alone(s2, t, 5) == Alone(s3, t, 4);
    ShutdownCloses(s3, t);
  }
}
