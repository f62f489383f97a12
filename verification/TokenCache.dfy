/**
The token cache of the Unity client: one optional token behind an asynchronous mutex.

A caller reads the clock, then waits for the lock, then either reuses the cached token or
fetches a new one while still holding the lock. The steps below let any number of callers
interleave, let time pass at any point, and let a caller be dropped while it waits or
fetches. Instants are whole nanoseconds. Fetch results are chosen by the environment.
*/
module TokenCaching {
  import opened Arrow

  const SECOND: nat := 1_000_000_000
  const MARGIN: nat := 301 * SECOND

  datatype Token = Token(secret: string, expiry: Option<nat>)

  datatype FetchResult = Fetched(token: Token) | FetchFailed

  datatype CallResult = Got(secret: string) | CallFailed

  /** Whole seconds from `now` to `expiry`, zero when `expiry` has passed. */
  function WholeSecondsLeft(expiry: nat, now: nat): nat {
    if expiry < now then 0 else (expiry - now) / SECOND
  }

  /** The test under the lock: may a caller that entered at `now` reuse what is cached? */
  predicate Reusable(cache: Option<Token>, now: nat) {
    cache.Some? &&
    match cache.value.expiry
    case Some(expiry) => WholeSecondsLeft(expiry, now) > 300
    case None => true
  }

  /** The rounding of the whole-second test: reuse needs a full 301 seconds. */
  lemma ReusableExact(token: Token, now: nat)
    ensures Reusable(Some(token), now) <==> token.expiry.None? || token.expiry.value >= now + MARGIN
  {
    if token.expiry.Some? && token.expiry.value >= now {
      var left := token.expiry.value - now;
      assert left == SECOND * (left / SECOND) + left % SECOND;
    }
  }

  // One call with nobody else around.

  function AfterCall(cache: Option<Token>, now: nat, fetched: FetchResult): (Option<Token>, CallResult) {
    if Reusable(cache, now) then (cache, Got(cache.value.secret))
    else if fetched.Fetched? then (Some(fetched.token), Got(fetched.token.secret))
    else (cache, CallFailed)
  }

  class TokenCache {
    var cache: Option<Token>

    constructor ()
      ensures cache == None
    {
      cache := None;
    }

    /** `fetched` is what the caller's closure would answer; it matters only when it is called. */
    method GetOrInsertWith(now: nat, fetched: FetchResult) returns (r: CallResult)
      modifies this
      ensures (cache, r) == AfterCall(old(cache), now, fetched)
      ensures r.CallFailed? ==> fetched.FetchFailed? && cache == old(cache)
      ensures r.Got? ==> cache.Some? && r.secret == cache.value.secret
      ensures cache != old(cache) ==> fetched.Fetched? && !Reusable(old(cache), now)
    {
      if cache.Some? {
        match cache.value.expiry {
          case Some(ttl) =>
            if WholeSecondsLeft(ttl, now) > 300 {
              return Got(cache.value.secret);
            }
          case None =>
            return Got(cache.value.secret);
        }
      }
      if fetched.FetchFailed? {
        return CallFailed;
      }
      cache := Some(fetched.token);
      r := Got(fetched.token.secret);
    }
  }

  // Every interleaving of calls.

  datatype Caller =
    | Outside
    | Waiting(entered: nat)
    | Fetching(entered: nat, started: nat)
    | Returned(result: CallResult)

  /** A successful fetch: when its caller entered, when it got the lock, when it finished. */
  datatype Fetch = Fetch(entered: nat, started: nat, finished: nat, token: Token)

  /** A reuse: when its caller entered, and which fetch had produced the token. */
  datatype Reuse = Reuse(entered: nat, fetch: nat, token: Token)

  datatype State = State(
    clock: nat,
    cache: Option<Token>,
    holder: Option<nat>,
    callers: seq<Caller>,
    fetches: seq<Fetch>,
    reuses: seq<Reuse>)

  datatype Step =
    | Tick(elapsed: nat)
    | Enter(caller: nat)
    | Acquire(caller: nat)
    | Finish(caller: nat, fetched: FetchResult)
    | Drop(caller: nat)

  predicate Enabled(s: State, step: Step) {
    match step
    case Tick(_) => true
    case Enter(i) => i < |s.callers| && (s.callers[i].Outside? || s.callers[i].Returned?)
    case Acquire(i) => i < |s.callers| && s.callers[i].Waiting? && s.holder.None?
    case Finish(i, _) => i < |s.callers| && s.callers[i].Fetching?
    case Drop(i) => i < |s.callers| && (s.callers[i].Waiting? || s.callers[i].Fetching?)
  }

  function Move(s: State, i: nat, caller: Caller): State
    requires i < |s.callers|
  {
    s.(callers := s.callers[i := caller])
  }

  function Next(s: State, step: Step): State
    requires Enabled(s, step)
  {
    match step
    case Tick(elapsed) => s.(clock := s.clock + elapsed)
    case Enter(i) => Move(s, i, Waiting(s.clock))
    case Acquire(i) =>
      var entered := s.callers[i].entered;
      if Reusable(s.cache, entered) then
        Move(s, i, Returned(Got(s.cache.value.secret)))
        .(reuses := s.reuses + [Reuse(entered, if s.fetches == [] then 0 else |s.fetches| - 1, s.cache.value)])
      else
        Move(s, i, Fetching(entered, s.clock)).(holder := Some(i))
    case Finish(i, Fetched(token)) =>
      Move(s, i, Returned(Got(token.secret)))
      .(holder := None, cache := Some(token),
        fetches := s.fetches + [Fetch(s.callers[i].entered, s.callers[i].started, s.clock, token)])
    case Finish(i, FetchFailed) =>
      Move(s, i, Returned(CallFailed)).(holder := None)
    case Drop(i) =>
      if s.callers[i].Fetching? then Move(s, i, Outside).(holder := None) else Move(s, i, Outside)
  }

  /** Steps that are not enabled do not happen. */
  function After(s: State, step: Step): State {
    if Enabled(s, step) then Next(s, step) else s
  }

  function Run(s: State, steps: seq<Step>): State
    decreases |steps|
  {
    if steps == [] then s else Run(After(s, steps[0]), steps[1..])
  }

  function Start(callers: nat): State {
    State(0, None, None, seq(callers, _ => Outside), [], [])
  }

  // What every step keeps.

  /** The lock is held exactly by the one caller that is fetching. */
  predicate Exclusive(s: State) {
    && (s.holder.Some? ==> s.holder.value < |s.callers|)
    && forall i :: 0 <= i < |s.callers| ==> (s.callers[i].Fetching? <==> s.holder == Some(i))
  }

  /** The cache holds what the last successful fetch produced. */
  predicate CacheIsLastFetch(s: State) {
    s.cache == if s.fetches == [] then None else Some(s.fetches[|s.fetches| - 1].token)
  }

  function LastFinished(fetches: seq<Fetch>): nat {
    if fetches == [] then 0 else fetches[|fetches| - 1].finished
  }

  /** A caller's instants are in order, and one that is fetching found nothing to reuse. */
  predicate CallerFits(s: State, c: Caller) {
    match c
    case Waiting(entered) => entered <= s.clock
    case Fetching(entered, started) =>
      entered <= started <= s.clock && LastFinished(s.fetches) <= started && !Reusable(s.cache, entered)
    case _ => true
  }

  predicate CallersFit(s: State) {
    forall i :: 0 <= i < |s.callers| ==> CallerFits(s, s.callers[i])
  }

  predicate Ordered(f: Fetch, clock: nat) {
    f.entered <= f.started <= f.finished <= clock
  }

  /** `g` was called for: its caller could not reuse the token of `f`, and began after `f` ended. */
  predicate Follows(f: Fetch, g: Fetch) {
    f.finished <= g.started && !Reusable(Some(f.token), g.entered)
  }

  predicate FetchesFit(s: State) {
    && (forall k :: 0 <= k < |s.fetches| ==> Ordered(s.fetches[k], s.clock))
    && (forall k :: 0 < k < |s.fetches| ==> Follows(s.fetches[k - 1], s.fetches[k]))
  }

  predicate ReuseFits(s: State, r: Reuse) {
    r.fetch < |s.fetches| && s.fetches[r.fetch].token == r.token && Reusable(Some(r.token), r.entered)
  }

  predicate ReusesFit(s: State) {
    forall k :: 0 <= k < |s.reuses| ==> ReuseFits(s, s.reuses[k])
  }

  predicate Invariant(s: State) {
    Exclusive(s) && CacheIsLastFetch(s) && CallersFit(s) && FetchesFit(s) && ReusesFit(s)
  }

  lemma NextKeepsInvariant(s: State, step: Step)
    requires Invariant(s) && Enabled(s, step)
    ensures Invariant(Next(s, step))
  {
    var t := Next(s, step);
    match step {
      case Tick(_) =>
      case Enter(i) =>
      case Acquire(i) =>
        assert CallerFits(s, s.callers[i]);
        assert forall k :: 0 <= k < |s.reuses| ==> ReuseFits(s, s.reuses[k]);
      case Finish(i, fetched) =>
        assert CallerFits(s, s.callers[i]);
        if fetched.Fetched? {
          FinishKeepsFetches(s, i, fetched.token);
          assert forall k :: 0 <= k < |s.reuses| ==> ReuseFits(s, s.reuses[k]);
        }
      case Drop(i) =>
    }
  }

  lemma FinishKeepsFetches(s: State, i: nat, token: Token)
    requires Invariant(s) && Enabled(s, Finish(i, Fetched(token)))
    ensures FetchesFit(Next(s, Finish(i, Fetched(token))))
  {
    var t := Next(s, Finish(i, Fetched(token)));
    var n := |s.fetches|;
    assert CallerFits(s, s.callers[i]);
    forall k | 0 < k < |t.fetches| ensures Follows(t.fetches[k - 1], t.fetches[k]) {
      if k < n {
        assert Follows(s.fetches[k - 1], s.fetches[k]);
      }
    }
  }

  lemma {:induction false} RunKeepsInvariant(s: State, steps: seq<Step>)
    requires Invariant(s)
    ensures Invariant(Run(s, steps))
    decreases |steps|
  {
    if steps != [] {
      if Enabled(s, steps[0]) {
        NextKeepsInvariant(s, steps[0]);
      }
      RunKeepsInvariant(After(s, steps[0]), steps[1..]);
    }
  }

  // The promises, over every run from an empty cache.

  lemma Reachable(callers: nat, steps: seq<Step>)
    ensures Invariant(Run(Start(callers), steps))
  {
    RunKeepsInvariant(Start(callers), steps);
  }

  /** Every token fetched so far was good for at least `seconds` when its fetch finished. */
  predicate LivesAtLeast(fetches: seq<Fetch>, seconds: int) {
    forall k :: 0 <= k < |fetches| && fetches[k].token.expiry.Some? ==>
      fetches[k].token.expiry.value >= fetches[k].finished + seconds * SECOND
  }

  lemma ConsecutiveFetches(callers: nat, steps: seq<Step>, seconds: int, k: nat)
    requires var fetches := Run(Start(callers), steps).fetches; k + 1 < |fetches| && LivesAtLeast(fetches, seconds)
    ensures var fetches := Run(Start(callers), steps).fetches;
      && fetches[k + 1].finished - fetches[k].finished > (seconds - 301) * SECOND
      && fetches[k].finished <= fetches[k + 1].started
      && fetches[k].token.expiry.Some?
      && fetches[k + 1].entered + MARGIN > fetches[k].token.expiry.value
  {
    Reachable(callers, steps);
    var fetches := Run(Start(callers), steps).fetches;
    assert Follows(fetches[k + 1 - 1], fetches[k + 1]) && Ordered(fetches[k + 1], Run(Start(callers), steps).clock);
    ReusableExact(fetches[k].token, fetches[k + 1].entered);
  }

  /** A token without an expiry is the last one ever fetched. */
  lemma EverlastingTokenKept(callers: nat, steps: seq<Step>, k: nat)
    requires var s := Run(Start(callers), steps); k < |s.fetches| && s.fetches[k].token.expiry.None?
    ensures var s := Run(Start(callers), steps); k == |s.fetches| - 1 && s.cache == Some(s.fetches[k].token)
  {
    Reachable(callers, steps);
    var s := Run(Start(callers), steps);
    forall j | 0 <= j < |s.fetches| - 1 ensures s.fetches[j].token.expiry.Some? {
      assert Follows(s.fetches[j + 1 - 1], s.fetches[j + 1]);
    }
  }

  /** Whoever is handed a cached token is handed a fetched one with 301 seconds left on entry. */
  lemma ReusedTokenFresh(callers: nat, steps: seq<Step>, k: nat)
    requires k < |Run(Start(callers), steps).reuses|
    ensures var s := Run(Start(callers), steps);
      var r := s.reuses[k];
      && r.fetch < |s.fetches|
      && r.token == s.fetches[r.fetch].token
      && (r.token.expiry.Some? ==> r.token.expiry.value >= r.entered + MARGIN)
  {
    Reachable(callers, steps);
    var s := Run(Start(callers), steps);
    assert ReuseFits(s, s.reuses[k]);
    ReusableExact(s.reuses[k].token, s.reuses[k].entered);
  }

  /** Only a successful fetch touches the cache: failing and being dropped leave it alone. */
  lemma CacheChangesOnlyByFetching(callers: nat, steps: seq<Step>, step: Step)
    requires Enabled(Run(Start(callers), steps), step)
    requires var s := Run(Start(callers), steps); Next(s, step).cache != s.cache
    ensures var s := Run(Start(callers), steps);
      && step.Finish? && step.fetched.Fetched?
      && s.holder == Some(step.caller)
      && !Reusable(s.cache, s.callers[step.caller].entered)
  {
    Reachable(callers, steps);
    var s := Run(Start(callers), steps);
    assert step.Finish?;
    assert CallerFits(s, s.callers[step.caller]);
  }

  /** The bound is the best possible: some run fetches again one nanosecond past it. */
  lemma BoundIsTight(seconds: nat, secret: string)
    requires seconds >= 301
    ensures exists steps ::
      var fetches := Run(Start(1), steps).fetches;
      && |fetches| == 2 && LivesAtLeast(fetches, seconds)
      && fetches[1].finished - fetches[0].finished == (seconds - 301) * SECOND + 1
  {
    var gap := (seconds - 301) * SECOND + 1;
    var first := Token(secret, Some(seconds * SECOND));
    var second := Token(secret, None);
    var s0 := Start(1);
    ReusableExact(first, gap);
    var s1 := AfterFetching(s0, first);
    var s2 := After(s1, Tick(gap));
    var s3 := AfterFetching(s2, second);
    var steps := FetchSteps(first) + ([Tick(gap)] + FetchSteps(second));
    RunAppend(s0, FetchSteps(first), [Tick(gap)] + FetchSteps(second));
    RunAppend(s1, [Tick(gap)], FetchSteps(second));
    RunOne(s1, Tick(gap));
    assert Run(s0, steps) == s3;
  }

  /** The first caller enters, gets the lock and fetches, with no time passing. */
  function FetchSteps(token: Token): seq<Step> {
    [Enter(0), Acquire(0), Finish(0, Fetched(token))]
  }

  lemma RunOne(s: State, step: Step)
    ensures Run(s, [step]) == After(s, step)
  {
    assert [step][1..] == [];
  }

  lemma {:induction false} RunAppend(s: State, a: seq<Step>, b: seq<Step>)
    ensures Run(s, a + b) == Run(Run(s, a), b)
    decreases |a|
  {
    if a == [] {
      assert a + b == b;
    } else {
      assert (a + b)[1..] == a[1..] + b;
      RunAppend(After(s, a[0]), a[1..], b);
    }
  }

  lemma RunThree(s: State, a: Step, b: Step, c: Step)
    ensures Run(s, [a, b, c]) == After(After(After(s, a), b), c)
  {
    assert [a, b, c] == [a] + ([b] + [c]);
    RunAppend(s, [a], [b] + [c]);
    RunAppend(After(s, a), [b], [c]);
    RunOne(s, a);
    RunOne(After(s, a), b);
    RunOne(After(After(s, a), b), c);
  }

  /** The state in which such a caller leaves the machine. */
  lemma AfterFetching(s: State, token: Token) returns (t: State)
    requires 0 < |s.callers| && s.holder == None && !Reusable(s.cache, s.clock)
    requires s.callers[0].Outside? || s.callers[0].Returned?
    ensures Run(s, FetchSteps(token)) == t
    ensures t.callers == s.callers[0 := Returned(Got(token.secret))] && t.holder == None
    ensures t.clock == s.clock && t.cache == Some(token)
    ensures t.fetches == s.fetches + [Fetch(s.clock, s.clock, s.clock, token)]
  {
    RunThree(s, Enter(0), Acquire(0), Finish(0, Fetched(token)));
    t := After(After(After(s, Enter(0)), Acquire(0)), Finish(0, Fetched(token)));
  }

  /** Alone, a caller's steps through the machine are exactly one call of the method. */
  lemma LoneCallIsAfterCall(s: State, i: nat, fetched: FetchResult)
    requires s.holder == None && i < |s.callers| && s.callers[i].Outside?
    ensures var t := Run(s, [Enter(i), Acquire(i), Finish(i, fetched)]);
      && t.holder == None
      && |t.callers| == |s.callers| && t.callers[i].Returned?
      && (t.cache, t.callers[i].result) == AfterCall(s.cache, s.clock, fetched)
  {
    RunThree(s, Enter(i), Acquire(i), Finish(i, fetched));
  }
}
