/**
One failover call on its own: the client cache as an object, with no other task in between.

Build attempts are numbered; `canBuild` is the environment's answer to each of them, and
`op` its answer to each attempt of the operation. Both are arbitrary.
*/
module FailoverCall {
  import opened Arrow
  import opened Failover

  /** The endpoint `step` places after `index`, in cyclic order. */
  function Successor(n: nat, index: nat, step: nat): (r: nat)
    requires index < n && step < n
    ensures r < n
    ensures r == if index + step < n then index + step else index + step - n
  {
    WrapAround(n, index + step);
    (index + step) % n
  }

  lemma WrapAround(n: nat, x: nat)
    requires n >= 1 && x < 2 * n
    ensures x % n == if x < n then x else x - n
  {
    if x >= n {
      assert x == n + (x - n);
      assert (n + (x - n)) % n == (x - n) % n by {
        AddOnce(n, x - n);
      }
    }
  }

  lemma AddOnce(n: nat, y: nat)
    requires n >= 1 && y < n
    ensures (n + y) % n == y
  {
    var q := (n + y) / n;
    assert n + y == q * n + (n + y) % n;
    assert q < 2;
    assert q > 0;
  }

  /** From any start, the first n cyclic successors are all n endpoints. */
  lemma SuccessorsCoverAll(n: nat, start: nat, e: nat)
    requires start < n && e < n
    ensures exists k :: 0 <= k < n && Successor(n, start, k) == e
  {
    var k := if e >= start then e - start else e + n - start;
    assert Successor(n, start, k) == e;
  }

  // A lone task of the protocol

  /** The shared state and one task after as many steps as there are choices, no other task moving. */
  function RunTask(n: nat, s: Shared, t: Task, choices: seq<Choice>): (Shared, Task)
    requires n >= 1
    decreases |choices|
  {
    if choices == [] then (s, t)
    else
      var k := |choices| - 1;
      var before := RunTask(n, s, t, choices[..k]);
      Step(n, before.0, before.1, choices[k])
  }

  ghost predicate Reaches(n: nat, s: Shared, t: Task, s': Shared, t': Task)
    requires n >= 1
  {
    exists choices :: RunTask(n, s, t, choices) == (s', t')
  }

  lemma ReachesItself(n: nat, s: Shared, t: Task)
    requires n >= 1
    ensures Reaches(n, s, t, s, t)
  {
    assert RunTask(n, s, t, []) == (s, t);
  }

  lemma ReachesNext(n: nat, s: Shared, t: Task, s': Shared, t': Task, c: Choice)
    requires n >= 1 && Reaches(n, s, t, s', t')
    ensures Reaches(n, s, t, Step(n, s', t', c).0, Step(n, s', t', c).1)
  {
    var choices :| RunTask(n, s, t, choices) == (s', t');
    assert (choices + [c])[..|choices|] == choices;
    assert RunTask(n, s, t, choices + [c]) == Step(n, s', t', c);
  }

  // The steps of a task, one after another

  lemma RotationStarts(n: nat, s: Shared, t: Task, s': Shared, now: Task)
    requires n >= 1 && now.pc.Rotating? && Reaches(n, s, t, s', now)
    ensures var pc := now.pc;
            Reaches(n, s, t, s',
                    now.(pc := if s'.active != pc.failed && s'.client.Some?
                               then Resumed(pc.resume, s'.active, s'.client.value)
                               else RotationAt(n, pc.failed, 1, pc.resume)))
  {
    ReachesNext(n, s, t, s', now, Choice(true, OpOk));
  }

  /** A rotation about to build for the step-th successor, or out of successors. */
  function RotationAt(n: nat, failed: nat, step: nat, resume: Resume): Pc {
    if step < n then RotBuilding(failed, step, resume) else Clearing
  }

  lemma RotationFails(n: nat, s: Shared, t: Task, s': Shared, now: Task, failed: nat, step: nat, resume: Resume)
    requires n >= 1 && step < n && Reaches(n, s, t, s', now.(pc := RotationAt(n, failed, step, resume)))
    ensures Reaches(n, s, t, s', now.(pc := RotationAt(n, failed, step + 1, resume)))
  {
    ReachesNext(n, s, t, s', now.(pc := RotBuilding(failed, step, resume)), Choice(false, OpOk));
  }

  lemma RotationBuilds(n: nat, s: Shared, t: Task, s': Shared, now: Task, failed: nat, step: nat, resume: Resume)
    requires failed < n && step < n && Reaches(n, s, t, s', now.(pc := RotationAt(n, failed, step, resume)))
    ensures var next := Successor(n, failed, step);
            Reaches(n, s, t, Shared(next, Some(Client(next))), now.(pc := Resumed(resume, next, Client(next))))
  {
    var next := Successor(n, failed, step);
    ReachesNext(n, s, t, s', now.(pc := RotBuilding(failed, step, resume)), Choice(true, OpOk));
    ReachesNext(n, s, t, s', now.(pc := RotInstalling(Client(next), resume)), Choice(true, OpOk));
  }

  lemma RotationGivesUp(n: nat, s: Shared, t: Task, s': Shared, now: Task)
    requires n >= 1 && Reaches(n, s, t, s', now.(pc := Clearing))
    ensures Reaches(n, s, t, Shared(s'.active, None), now.(pc := Done(NoClient)))
  {
    ReachesNext(n, s, t, s', now.(pc := Clearing), Choice(true, OpOk));
  }

  lemma OperationRuns(n: nat, s: Shared, t: Task, s': Shared, now: Task, op: OpOutcome)
    requires n >= 1 && now.pc.Running? && Reaches(n, s, t, s', now)
    ensures Reaches(n, s, t, s', AfterOperation(n, now, op))
  {
    ReachesNext(n, s, t, s', now, Choice(true, op));
  }

  function AfterOperation(n: nat, now: Task, op: OpOutcome): Task
    requires now.pc.Running?
  {
    var tried := now.tried + [now.pc.client];
    if op.OpRetryable? && now.attempt + 1 < n then Task(Rotating(now.pc.index, LookAgain), now.attempt + 1, tried)
    else Task(Done(if op.OpOk? then Succeeded else OpError(op.OpRetryable?)), now.attempt, tried)
  }

  /** What a lone task reaches is a run of the protocol with that task alone. */
  lemma {:induction false} LoneTaskIsRun(n: nat, s: Shared, t: Task, choices: seq<Choice>)
    requires n >= 1
    ensures var moves := seq(|choices|, i requires 0 <= i < |choices| => Move(0, choices[i]));
            var w := Run(n, World(s, [t], false), moves);
            var r := RunTask(n, s, t, choices);
            w.shared == r.0 && w.tasks == [r.1]
    decreases |choices|
  {
    var moves := seq(|choices|, i requires 0 <= i < |choices| => Move(0, choices[i]));
    if choices != [] {
      var k := |choices| - 1;
      LoneTaskIsRun(n, s, t, choices[..k]);
      var front := seq(k, i requires 0 <= i < k => Move(0, choices[..k][i]));
      assert moves == front + [moves[k]];
      RunConcat(n, World(s, [t], false), front, [moves[k]]);
      var before := Run(n, World(s, [t], false), front);
      assert Run(n, before, [moves[k]]) == Next(n, before, moves[k]) by {
        assert [moves[k]][1..] == [];
      }
    }
  }

  /** Where a task stands once a client has been looked for. */
  function Rotated(resume: Resume, r: Option<(nat, Client)>): Pc {
    match r
    case None => Done(NoClient)
    case Some(found) => Resumed(resume, found.0, found.1)
  }

  class ClientCache {
    const endpoints: nat
    const canBuild: (nat, nat) -> bool
    var active: nat
    var client: Option<Client>
    var builds: nat

    ghost predicate Valid()
      reads this
    {
      endpoints >= 1 && active < endpoints
    }

    /** The state other tasks would share. */
    function Now(): Shared
      reads this
    {
      Shared(active, client)
    }

    constructor (endpoints: nat, canBuild: (nat, nat) -> bool)
      requires endpoints >= 1
      ensures Valid() && this.endpoints == endpoints && this.canBuild == canBuild
      ensures active == 0 && client == None && builds == 0
    {
      this.endpoints, this.canBuild := endpoints, canBuild;
      active, client, builds := 0, None, 0;
    }

    method BuildClient(index: nat) returns (r: Option<Client>)
      modifies this`builds
      ensures builds == old(builds) + 1
      ensures r == if canBuild(old(builds), index) then Some(Client(index)) else None
    {
      r := if canBuild(builds, index) then Some(Client(index)) else None;
      builds := builds + 1;
    }

    /** The environment never fails a build. */
    ghost predicate AlwaysBuilds() {
      forall t, e :: canBuild(t, e)
    }

    /** The builds for the successors of `failed` up to `step` all fail, starting at build number `from`. */
    predicate AllFail(failed: nat, step: nat, from: nat)
      requires failed < endpoints && step <= endpoints
    {
      forall j :: 1 <= j < step ==> !canBuild(from + j - 1, Successor(endpoints, failed, j))
    }

    /**
    `rotate_client_after_failure`: a client another task has already moved to, else the
    nearest cyclic successor of the failed endpoint that builds, else no client at all.
    */
    method RotateClientAfterFailure(failed: nat, ghost s: Shared, ghost t: Task, ghost now: Task)
      returns (r: Option<(nat, Client)>)
      requires Valid() && failed < endpoints
      requires now.pc.Rotating? && now.pc.failed == failed && Reaches(endpoints, s, t, Now(), now)
      modifies this`active, this`client, this`builds
      ensures Valid()
      ensures old(active) != failed && old(client).Some? ==>
                r == Some((old(active), old(client).value)) && active == old(active) && client == old(client)
      ensures !(old(active) != failed && old(client).Some?) && r.Some? ==>
                && r.value == (active, Client(active)) && client == Some(Client(active))
                && exists step :: 1 <= step < endpoints && active == Successor(endpoints, failed, step)
                                  && AllFail(failed, step, old(builds))
                                  && canBuild(old(builds) + step - 1, active)
      ensures r.None? ==> client == None && active == old(active) && AllFail(failed, endpoints, old(builds))
      ensures Reaches(endpoints, s, t, Now(), now.(pc := Rotated(now.pc.resume, r)))
      ensures endpoints > 1 && old(active) == failed && canBuild(old(builds), Successor(endpoints, failed, 1)) ==>
                r.Some? && active == Successor(endpoints, failed, 1)
    {
      ghost var resume := now.pc.resume;
      RotationStarts(endpoints, s, t, Now(), now);
      if active != failed && client.Some? {
        return Some((active, client.value));
      }
      var step := 1;
      while step < endpoints
        invariant 1 <= step <= endpoints
        invariant Reaches(endpoints, s, t, old(Now()), now.(pc := RotationAt(endpoints, failed, step, resume)))
        invariant builds == old(builds) + step - 1
        invariant active == old(active) && client == old(client)
        invariant AllFail(failed, step, old(builds))
      {
        var next := Successor(endpoints, failed, step);
        var built := BuildClient(next);
        if built.Some? {
          RotationBuilds(endpoints, s, t, old(Now()), now, failed, step, resume);
          active, client := next, built;
          return Some((next, built.value));
        }
        RotationFails(endpoints, s, t, old(Now()), now, failed, step, resume);
        step := step + 1;
      }
      RotationGivesUp(endpoints, s, t, old(Now()), now);
      client := None;
      return None;
    }

    /** `current_client`: the cached client, else one built for the active endpoint, else a rotation. */
    method CurrentClient(ghost s: Shared, ghost t: Task, ghost now: Task) returns (r: Option<(nat, Client)>)
      requires Valid() && now.pc.Lookup? && Reaches(endpoints, s, t, Now(), now)
      modifies this`active, this`client, this`builds
      ensures Valid()
      ensures old(client).Some? ==> r == Some((active, old(client).value)) && active == old(active) && client == old(client)
      ensures old(client).None? && canBuild(old(builds), old(active)) ==>
                r == Some((active, Client(active))) && active == old(active) && client == Some(Client(active))
      ensures old(client).None? && r.Some? ==> r.value == (active, Client(active)) && client == Some(Client(active))
      ensures r.Some? ==> r.value.0 == active
      ensures r.None? ==> client == None
      ensures Reaches(endpoints, s, t, Now(), now.(pc := Rotated(UseIt, r)))
    {
      ReachesNext(endpoints, s, t, Now(), now, Choice(true, OpOk));
      if client.Some? {
        return Some((active, client.value));
      }
      var index := active;
      var built := BuildClient(index);
      ReachesNext(endpoints, s, t, Now(), now.(pc := Building(index)), Choice(built.Some?, OpOk));
      if built.Some? {
        ReachesNext(endpoints, s, t, Now(), now.(pc := Installing(built.value)), Choice(true, OpOk));
        client := built;
        return Some((index, built.value));
      }
      if endpoints > 1 {
        r := RotateClientAfterFailure(index, s, t, now.(pc := Rotating(index, UseIt)));
        return;
      }
      return None;
    }

    /**
    One pass of the retry loop: get a client, run the operation on it, and after a retryable
    error rotate away from its endpoint unless this was the last attempt allowed.
    */
    method Attempt(op: (Client, nat) -> OpOutcome, attempt: nat, ghost s: Shared, ghost tried: seq<Client>)
      returns (end: Option<CallResult>, ran: Option<Client>, ghost now: Task)
      requires Valid() && attempt < endpoints
      requires Reaches(endpoints, s, NEW_TASK, Now(), Task(Lookup, attempt, tried))
      modifies this`active, this`client, this`builds
      ensures Valid() && (ran.None? ==> end == Some(NoClient))
      ensures Reaches(endpoints, s, NEW_TASK, Now(), now) && now.tried == tried + Ran(ran)
      ensures now.pc == if end.None? then Lookup else Done(end.value)
      ensures end.None? ==> now.attempt == attempt + 1 < endpoints
      ensures Paired(old(Now())) || (end.None? && ran.Some?) ==> Paired(Now())
      ensures end.None? ==> ran.Some? && op(ran.value, attempt).OpRetryable?
      ensures end == Some(Succeeded) ==> ran.Some? && op(ran.value, attempt).OpOk?
      ensures end == Some(OpError(true)) ==> ran.Some? && attempt + 1 == endpoints
      ensures AlwaysBuilds() ==>
                && ran.Some? && end != Some(NoClient)
                && (Paired(old(Now())) ==> ran == Some(Client(old(active))))
                && (end.None? ==> active == Successor(endpoints, old(active), 1))
    {
      assert AlwaysBuilds() ==> canBuild(builds, active);
      var current := CurrentClient(s, NEW_TASK, Task(Lookup, attempt, tried));
      if current.None? {
        return Some(NoClient), None, Task(Done(NoClient), attempt, tried);
      }
      var (index, c) := current.value;
      var outcome := op(c, attempt);
      OperationRuns(endpoints, s, NEW_TASK, Now(), Task(Running(index, c), attempt, tried), outcome);
      ran, now := Some(c), AfterOperation(endpoints, Task(Running(index, c), attempt, tried), outcome);
      match outcome
      case OpOk => end := Some(Succeeded);
      case OpFatal => end := Some(OpError(false));
      case OpRetryable =>
        if attempt + 1 >= endpoints {
          end := Some(OpError(true));
          return;
        }
        assert AlwaysBuilds() ==> canBuild(builds, Successor(endpoints, index, 1));
        var rotated := RotateClientAfterFailure(index, s, NEW_TASK, now);
        now := now.(pc := Rotated(LookAgain, rotated));
        end := if rotated.None? then Some(NoClient) else None;
    }

    /**
    `with_failover_attempt` by a lone task. The call is a run of the protocol, and the
    operation runs at most once per endpoint. If every build succeeds, attempt k runs on the
    k-th cyclic successor of the endpoint active at the start (the first attempt provided
    the cached client is paired with it), and a retryable error is only returned after as
    many attempts as there are endpoints.
    */
    method WithFailover(op: (Client, nat) -> OpOutcome) returns (result: CallResult, tried: seq<Client>)
      requires Valid()
      modifies this`active, this`client, this`builds
      ensures Valid() && |tried| <= endpoints
      ensures exists a :: Reaches(endpoints, old(Now()), NEW_TASK, Now(), Task(Done(result), a, tried))
      ensures Paired(old(Now())) ==> Paired(Now())
      ensures forall k :: 0 <= k < |tried| - 1 ==> op(tried[k], k).OpRetryable?
      ensures result.Succeeded? ==> |tried| >= 1 && op(tried[|tried| - 1], |tried| - 1).OpOk?
      ensures result == OpError(true) ==> |tried| == endpoints
      ensures AlwaysBuilds() ==>
                && !result.NoClient?
                && |tried| >= 1
                && (Paired(old(Now())) ==> tried[0] == Client(old(active)))
                && forall k :: 1 <= k < |tried| ==> tried[k] == Client(Successor(endpoints, old(active), k))
    {
      tried := [];
      var attempts := 0;
      ghost var s := Now();
      ReachesItself(endpoints, s, NEW_TASK);
      while true
        invariant Valid() && (Paired(s) || attempts > 0 ==> Paired(Now()))
        invariant Reaches(endpoints, s, NEW_TASK, Now(), Task(Lookup, attempts, tried))
        invariant attempts == |tried| < endpoints
        invariant forall k :: 0 <= k < |tried| ==> op(tried[k], k).OpRetryable?
        invariant AlwaysBuilds() ==>
                    && active == Successor(endpoints, s.active, attempts)
                    && (Paired(s) && |tried| > 0 ==> tried[0] == Client(s.active))
                    && forall k :: 1 <= k < |tried| ==> tried[k] == Client(Successor(endpoints, s.active, k))
        decreases endpoints - attempts
      {
        var end, ran, now := Attempt(op, attempts, s, tried);
        tried := tried + Ran(ran);
        assert now == Task(now.pc, now.attempt, tried);
        if end.Some? {
          return end.value, tried;
        }
        attempts := attempts + 1;
      }
    }
  }

  function Ran(client: Option<Client>): seq<Client> {
    if client.Some? then [client.value] else []
  }
}
