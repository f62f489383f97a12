/**
The Hive Metastore failover protocol under concurrency.

Tasks share an active endpoint index and a cached client behind a mutex that is released
while clients are being built. Every region under the lock is one atomic step here, and
so is every client build and every run of an operation. A client carries the endpoint it
was built for. Build results and operation results are chosen by the environment.
*/
module Failover {
  import opened Arrow

  datatype Client = Client(endpoint: nat)

  datatype Shared = Shared(active: nat, client: Option<Client>)

  datatype OpOutcome = OpOk | OpRetryable | OpFatal

  datatype CallResult = Succeeded | OpError(retryable: bool) | NoClient

  /** What happens once a rotation has a client: run the operation on it, or look the client up again. */
  datatype Resume = UseIt | LookAgain

  datatype Pc =
    | Lookup
    | Building(index: nat)
    | Installing(built: Client)
    | Rotating(failed: nat, resume: Resume)
    | RotBuilding(failed: nat, step: nat, resume: Resume)
    | RotInstalling(built: Client, resume: Resume)
    | Clearing
    | Running(index: nat, client: Client)
    | Done(result: CallResult)

  /** One call of `with_failover_attempt`: where it is, its attempt number, the clients it ran on. */
  datatype Task = Task(pc: Pc, attempt: nat, tried: seq<Client>)

  const NEW_TASK := Task(Lookup, 0, [])

  datatype Choice = Choice(buildOk: bool, op: OpOutcome)

  /** The shared state and one task after that task's next step, with `n` endpoints. */
  function Step(n: nat, s: Shared, t: Task, c: Choice): (Shared, Task)
    requires n >= 1
  {
    match t.pc
    case Lookup =>
      if s.client.Some? then (s, t.(pc := Running(s.active, s.client.value)))
      else (s, t.(pc := Building(s.active)))
    case Building(index) =>
      if c.buildOk then (s, t.(pc := Installing(Client(index))))
      else if n > 1 then (s, t.(pc := Rotating(index, UseIt)))
      else (s, t.(pc := Done(NoClient)))
    case Installing(built) =>
      if s.client.None? && s.active == built.endpoint then
        (s.(client := Some(built)), t.(pc := Running(built.endpoint, built)))
      else if s.client.Some? then (s, t.(pc := Running(s.active, s.client.value)))
      else (s.(client := Some(built)), t.(pc := Running(s.active, built)))
    case Rotating(failed, resume) =>
      if s.active != failed && s.client.Some? then (s, t.(pc := Resumed(resume, s.active, s.client.value)))
      else if n > 1 then (s, t.(pc := RotBuilding(failed, 1, resume)))
      else (s, t.(pc := Clearing))
    case RotBuilding(failed, step, resume) =>
      if c.buildOk then (s, t.(pc := RotInstalling(Client((failed + step) % n), resume)))
      else if step + 1 < n then (s, t.(pc := RotBuilding(failed, step + 1, resume)))
      else (s, t.(pc := Clearing))
    case RotInstalling(built, resume) =>
      (Shared(built.endpoint, Some(built)), t.(pc := Resumed(resume, built.endpoint, built)))
    case Clearing => (s.(client := None), t.(pc := Done(NoClient)))
    case Running(index, client) =>
      var after := t.(tried := t.tried + [client]);
      (match c.op
       case OpOk => (s, after.(pc := Done(Succeeded)))
       case OpRetryable =>
         if t.attempt + 1 < n then (s, after.(attempt := t.attempt + 1, pc := Rotating(index, LookAgain)))
         else (s, after.(pc := Done(OpError(true))))
       case OpFatal => (s, after.(pc := Done(OpError(false)))))
    case Done(_) => (s, t)
  }

  function Resumed(resume: Resume, index: nat, client: Client): Pc {
    match resume
    case UseIt => Running(index, client)
    case LookAgain => Lookup
  }

  // Whole runs

  /** `cleared` records whether an exhausted rotation has ever dropped the cached client. */
  datatype World = World(shared: Shared, tasks: seq<Task>, cleared: bool)

  /** Which task moves, and what the environment answers. */
  datatype Move = Move(task: nat, choice: Choice)

  function Next(n: nat, w: World, m: Move): World
    requires n >= 1
  {
    if m.task >= |w.tasks| then w
    else
      var t := w.tasks[m.task];
      var r := Step(n, w.shared, t, m.choice);
      World(r.0, w.tasks[m.task := r.1], w.cleared || t.pc.Clearing?)
  }

  function Run(n: nat, w: World, moves: seq<Move>): World
    requires n >= 1
    decreases |moves|
  {
    if moves == [] then w else Run(n, Next(n, w, moves[0]), moves[1..])
  }

  function Start(tasks: nat): World {
    World(Shared(0, None), seq(tasks, _ => NEW_TASK), false)
  }

  // Invariants

  /** The cached client was built for the endpoint recorded as active. */
  predicate Paired(s: Shared) {
    s.client.Some? ==> s.client.value.endpoint == s.active
  }

  /** Every index a task holds is an endpoint, and it has run the operation once per finished attempt. */
  predicate TaskInRange(n: nat, t: Task) {
    && t.attempt < n
    && (forall i :: 0 <= i < |t.tried| ==> t.tried[i].endpoint < n)
    && (if t.pc.Done? then |t.tried| <= t.attempt + 1 else |t.tried| == t.attempt)
    && match t.pc
       case Building(index) => index < n
       case Installing(built) => built.endpoint < n
       case Rotating(failed, _) => failed < n
       case RotBuilding(failed, step, _) => failed < n && 1 <= step < n
       case RotInstalling(built, _) => built.endpoint < n
       case Running(index, client) => index < n && client.endpoint < n
       case _ => true
  }

  /** Until a client is dropped: clients are only ever built for endpoint 0 outside a rotation. */
  predicate TaskPaired(t: Task) {
    match t.pc
    case Building(index) => index == 0
    case Installing(built) => built.endpoint == 0
    case Running(index, client) => client.endpoint == index
    case _ => true
  }

  predicate SharedInRange(n: nat, s: Shared) {
    s.active < n && (s.client.Some? ==> s.client.value.endpoint < n)
  }

  predicate Invariant(n: nat, w: World) {
    && SharedInRange(n, w.shared)
    && (forall i :: 0 <= i < |w.tasks| ==> TaskInRange(n, w.tasks[i]))
    && (!w.cleared ==>
          && Paired(w.shared)
          && (w.shared.client.None? ==> w.shared.active == 0)
          && forall i :: 0 <= i < |w.tasks| ==> TaskPaired(w.tasks[i]))
  }

  lemma StepInRange(n: nat, s: Shared, t: Task, c: Choice)
    requires n >= 1 && SharedInRange(n, s) && TaskInRange(n, t)
    ensures var r := Step(n, s, t, c); SharedInRange(n, r.0) && TaskInRange(n, r.1)
  {
    if t.pc.RotBuilding? {
      assert 0 <= (t.pc.failed + t.pc.step) % n < n;
      return;
    }
  }

  lemma StepPaired(n: nat, s: Shared, t: Task, c: Choice)
    requires n >= 1 && Paired(s) && TaskPaired(t) && (s.client.None? ==> s.active == 0)
    requires !t.pc.Clearing?
    ensures var r := Step(n, s, t, c);
            Paired(r.0) && TaskPaired(r.1) && (r.0.client.None? ==> r.0.active == 0)
  {
  }

  /** Every step of every task keeps the invariant. */
  lemma NextKeepsInvariant(n: nat, w: World, m: Move)
    requires n >= 1 && Invariant(n, w)
    ensures Invariant(n, Next(n, w, m))
  {
    if m.task < |w.tasks| {
      var t := w.tasks[m.task];
      StepInRange(n, w.shared, t, m.choice);
      if !w.cleared && !t.pc.Clearing? {
        StepPaired(n, w.shared, t, m.choice);
      }
    }
  }

  lemma {:induction false} RunKeepsInvariant(n: nat, w: World, moves: seq<Move>)
    requires n >= 1 && Invariant(n, w)
    ensures Invariant(n, Run(n, w, moves))
    decreases |moves|
  {
    if moves != [] {
      NextKeepsInvariant(n, w, moves[0]);
      RunKeepsInvariant(n, Next(n, w, moves[0]), moves[1..]);
    }
  }

  /**
  Under every interleaving of every number of tasks: the active index stays an endpoint,
  every call runs its operation at most once per endpoint, and until the first exhausted
  rotation drops the client, the cached client is one built for the active endpoint and
  every operation runs on a client of the endpoint its task holds.
  */
  lemma AllInterleavings(n: nat, tasks: nat, moves: seq<Move>)
    requires n >= 1
    ensures var w := Run(n, Start(tasks), moves);
            && w.shared.active < n
            && (forall i :: 0 <= i < |w.tasks| ==> |w.tasks[i].tried| <= n)
            && (!w.cleared ==> Paired(w.shared))
            && (!w.cleared ==> forall i :: 0 <= i < |w.tasks| && w.tasks[i].pc.Running? ==>
                                 w.tasks[i].pc.client.endpoint == w.tasks[i].pc.index)
  {
    RunKeepsInvariant(n, Start(tasks), moves);
    var w := Run(n, Start(tasks), moves);
    forall i | 0 <= i < |w.tasks|
      ensures |w.tasks[i].tried| <= n
    {
      assert TaskInRange(n, w.tasks[i]);
    }
  }

  /**
  The only step, from any state at all, that pairs a cached client with another endpoint's
  index is the late install: a client built for an index that is no longer active, while
  no client is cached.
  */
  lemma OnlyLateInstallMispairs(n: nat, s: Shared, t: Task, c: Choice)
    requires n >= 1 && Paired(s)
    ensures !Paired(Step(n, s, t, c).0) <==>
            t.pc.Installing? && s.client.None? && s.active != t.pc.built.endpoint
  {
  }

  predicate LateInstall(w: World, m: Move) {
    && m.task < |w.tasks|
    && w.tasks[m.task].pc.Installing?
    && w.shared.client.None?
    && w.shared.active != w.tasks[m.task].pc.built.endpoint
  }

  /** Every mispaired client in any run goes back to a late install made after a client had been dropped. */
  lemma {:induction false} MispairingTraced(n: nat, tasks: nat, moves: seq<Move>)
    requires n >= 1 && !Paired(Run(n, Start(tasks), moves).shared)
    ensures exists k :: 0 <= k < |moves| &&
                        var w := Run(n, Start(tasks), moves[..k]); w.cleared && LateInstall(w, moves[k])
    decreases |moves|
  {
    assert moves != [];
    var k := |moves| - 1;
    var before := Run(n, Start(tasks), moves[..k]);
    assert moves == moves[..k] + [moves[k]];
    RunConcat(n, Start(tasks), moves[..k], [moves[k]]);
    assert Run(n, before, [moves[k]]) == Run(n, Next(n, before, moves[k]), [moves[k]][1..]);
    if Paired(before.shared) {
      OnlyLateInstallMispairs(n, before.shared, before.tasks[moves[k].task], moves[k].choice);
      RunKeepsInvariant(n, Start(tasks), moves[..k]);
      NextKeepsInvariant(n, before, moves[k]);
      assert before.cleared && LateInstall(before, moves[k]);
    } else {
      MispairingTraced(n, tasks, moves[..k]);
      var j :| 0 <= j < k && var w := Run(n, Start(tasks), moves[..k][..j]); w.cleared && LateInstall(w, moves[..k][j]);
      assert moves[..k][..j] == moves[..j];
    }
  }

  // A mispaired client can occur, exactly when there is an endpoint to fail over to

  lemma {:induction false} RunConcat(n: nat, w: World, a: seq<Move>, b: seq<Move>)
    requires n >= 1
    ensures Run(n, w, a + b) == Run(n, Run(n, w, a), b)
    decreases |a|
  {
    if a == [] {
      assert a + b == b;
    } else {
      assert (a + b)[1..] == a[1..] + b;
      RunConcat(n, Next(n, w, a[0]), a[1..], b);
    }
  }

  const FAIL := Choice(false, OpRetryable)
  const WORK := Choice(true, OpRetryable)

  /** A rotation whose builds all fail, down to the step that drops the client. */
  lemma {:induction false} ExhaustRotation(n: nat, w: World, failed: nat, step: nat) returns (moves: seq<Move>)
    requires n >= 2 && 1 <= step < n && |w.tasks| == 2
    requires w.tasks[1].pc == RotBuilding(failed, step, LookAgain)
    ensures Run(n, w, moves) == w.(tasks := w.tasks[1 := w.tasks[1].(pc := Clearing)])
    decreases n - step
  {
    var next := Next(n, w, Move(1, FAIL));
    if step + 1 < n {
      var rest := ExhaustRotation(n, next, failed, step + 1);
      moves := [Move(1, FAIL)] + rest;
      assert moves[1..] == rest;
      assert next.tasks[1 := next.tasks[1].(pc := Clearing)] == w.tasks[1 := w.tasks[1].(pc := Clearing)];
    } else {
      moves := [Move(1, FAIL)];
      assert Run(n, next, moves[1..]) == next;
    }
  }

  const BUILT := Task(Installing(Client(0)), 0, [])

  /** One task has built a client for endpoint 0; the other one finds none and fails to build it. */
  lemma BothBuild(n: nat)
    requires n >= 2
    ensures Run(n, Start(2), [Move(0, WORK), Move(0, WORK), Move(1, FAIL)]) ==
            World(Shared(0, None), [BUILT, Task(Building(0), 0, [])], false)
  {
    var m := [Move(0, WORK), Move(0, WORK), Move(1, FAIL)];
    RunThree(n, Start(2), m);
    assert m[3..] == [];
    var w := Next(n, Next(n, Start(2), m[0]), m[1]);
    assert w.tasks == [BUILT, NEW_TASK];
  }

  /** The second task fails over to endpoint 1. */
  lemma FailsOver(n: nat)
    requires n >= 2
    ensures Run(n, World(Shared(0, None), [BUILT, Task(Building(0), 0, [])], false),
                [Move(1, FAIL), Move(1, FAIL), Move(1, WORK)]) ==
            World(Shared(0, None), [BUILT, Task(RotInstalling(Client(1), UseIt), 0, [])], false)
  {
    var m := [Move(1, FAIL), Move(1, FAIL), Move(1, WORK)];
    var w := World(Shared(0, None), [BUILT, Task(Building(0), 0, [])], false);
    RunThree(n, w, m);
    assert m[3..] == [];
    var x := Next(n, Next(n, w, m[0]), m[1]);
    assert x.tasks == [BUILT, Task(RotBuilding(0, 1, UseIt), 0, [])];
  }

  /** It installs that client, its operation fails there, and it starts another rotation. */
  lemma FailsAgain(n: nat)
    requires n >= 2
    ensures Run(n, World(Shared(0, None), [BUILT, Task(RotInstalling(Client(1), UseIt), 0, [])], false),
                [Move(1, WORK), Move(1, WORK), Move(1, FAIL)]) ==
            World(Shared(1, Some(Client(1))), [BUILT, Task(RotBuilding(1, 1, LookAgain), 1, [Client(1)])], false)
  {
    var m := [Move(1, WORK), Move(1, WORK), Move(1, FAIL)];
    var w := World(Shared(0, None), [BUILT, Task(RotInstalling(Client(1), UseIt), 0, [])], false);
    RunThree(n, w, m);
    assert m[3..] == [];
    var x := Next(n, Next(n, w, m[0]), m[1]);
    assert [] + [Client(1)] == [Client(1)];
    assert x.tasks == [BUILT, Task(Rotating(1, LookAgain), 1, [Client(1)])];
  }

  lemma Prologue(n: nat) returns (moves: seq<Move>)
    requires n >= 2
    ensures Run(n, Start(2), moves) ==
            World(Shared(1, Some(Client(1))), [BUILT, Task(RotBuilding(1, 1, LookAgain), 1, [Client(1)])], false)
  {
    BothBuild(n);
    FailsOver(n);
    FailsAgain(n);
    var a := [Move(0, WORK), Move(0, WORK), Move(1, FAIL)];
    var b := [Move(1, FAIL), Move(1, FAIL), Move(1, WORK)];
    var c := [Move(1, WORK), Move(1, WORK), Move(1, FAIL)];
    RunConcat(n, Start(2), a, b);
    RunConcat(n, Start(2), a + b, c);
    moves := a + b + c;
  }

  lemma RunThree(n: nat, w: World, m: seq<Move>)
    requires n >= 1 && |m| >= 3
    ensures Run(n, w, m) == Run(n, Next(n, Next(n, Next(n, w, m[0]), m[1]), m[2]), m[3..])
  {
    assert m[1..][1..] == m[2..] && m[2..][1..] == m[3..];
    assert Run(n, w, m) == Run(n, Next(n, w, m[0]), m[1..]);
    assert m[1..][0] == m[1] && m[2..][0] == m[2];
    assert Run(n, Next(n, w, m[0]), m[1..]) == Run(n, Next(n, Next(n, w, m[0]), m[1]), m[2..]);
  }

  /** A run after which the cached client is not one of the active endpoint. */
  lemma MispairingRun(n: nat) returns (moves: seq<Move>)
    requires n >= 2
    ensures Run(n, Start(2), moves).shared == Shared(1, Some(Client(0)))
  {
    var first := Prologue(n);
    var w := Run(n, Start(2), first);
    var second := ExhaustRotation(n, w, 1, 1);
    var x := Run(n, w, second);
    var third := [Move(1, FAIL), Move(0, WORK)];
    RunConcat(n, Start(2), first, second);
    RunConcat(n, Start(2), first + second, third);
    moves := first + second + third;
    var y := Next(n, x, third[0]);
    assert y.shared == Shared(1, None) && y.tasks[0].pc == Installing(Client(0));
    var z := Next(n, y, third[1]);
    assert z.shared == Shared(1, Some(Client(0)));
    assert third[1..][0] == third[1] && third[1..][1..] == [];
    assert Run(n, x, third) == Run(n, y, third[1..]) == Run(n, z, []) == z;
  }

  lemma {:induction false} OneEndpointNeverClears(w: World, moves: seq<Move>)
    requires Invariant(1, w) && !w.cleared
    requires forall i :: 0 <= i < |w.tasks| ==> NeverRotates(w.tasks[i])
    ensures !Run(1, w, moves).cleared
    decreases |moves|
  {
    if moves != [] {
      NextKeepsInvariant(1, w, moves[0]);
      OneEndpointNeverClears(Next(1, w, moves[0]), moves[1..]);
    }
  }

  predicate NeverRotates(t: Task) {
    !t.pc.Rotating? && !t.pc.RotBuilding? && !t.pc.RotInstalling? && !t.pc.Clearing?
  }

  /** The cached client stays paired in every run if and only if there is a single endpoint. */
  lemma PairedInEveryRun(n: nat)
    requires n >= 1
    ensures (forall tasks: nat, moves: seq<Move> :: Paired(Run(n, Start(tasks), moves).shared)) <==> n == 1
  {
    if n == 1 {
      forall tasks: nat, moves: seq<Move>
        ensures Paired(Run(n, Start(tasks), moves).shared)
      {
        OneEndpointNeverClears(Start(tasks), moves);
        RunKeepsInvariant(n, Start(tasks), moves);
      }
    } else {
      var moves := MispairingRun(n);
      assert !Paired(Run(n, Start(2), moves).shared);
    }
  }
}
