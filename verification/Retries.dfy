// The retry loop of reliable_channel.go.  Every underlying send calls back once.
module Retries {

  // What one turn of the loop meets: no channel, or a send that ends with a connection error or
  // otherwise, while the attempt limit has this value.
  datatype Attempt = NoChannel | Sent(limit: int, connectionError: bool)

  // What the caller's response reader is given.
  datatype Call = ChannelClosed | NotConnected | Response(attempt: nat)

  type Environment = nat -> Attempt

  // A connection error in one of the first n sends; it is never forgotten.
  predicate Failed(env: Environment, n: nat) {
    exists j :: 0 <= j < n && env(j).Sent? && env(j).connectionError
  }

  // The loop ends with turn i.
  predicate EndsAt(env: Environment, i: nat) {
    env(i).NoChannel? || !Failed(env, i + 1) || i + 1 == env(i).limit
  }

  predicate FirstEnd(env: Environment, i: nat) {
    EndsAt(env, i) && forall j :: 0 <= j < i ==> !EndsAt(env, j)
  }

  // The calls of the reader and the number of sends when the loop ends with turn i.
  function Ending(env: Environment, i: nat): (seq<Call>, nat) {
    if env(i).NoChannel? then ([NotConnected], i) else ([Response(i)], i + 1)
  }

  // The turn sends, short of its limit, and it or one before it could not connect.
  predicate GoesOn(env: Environment, j: nat) {
    env(j).Sent? && env(j).limit != j + 1 && exists k :: 0 <= k <= j && env(k).Sent? && env(k).connectionError
  }

  // Whatever fails, the reader is called exactly once, for the turn with which the loop ends.
  method Send(closed: bool, env: Environment, ghost bound: nat) returns (calls: seq<Call>, sends: nat)
    requires EndsAt(env, bound)
    ensures closed ==> calls == [ChannelClosed] && sends == 0
    ensures !closed ==> exists i :: 0 <= i <= bound && FirstEnd(env, i) && (calls, sends) == Ending(env, i)
    ensures !closed ==> |calls| == 1 && !calls[0].ChannelClosed?
    ensures !closed && calls[0].NotConnected? ==> env(sends).NoChannel?
    ensures !closed && calls[0].Response? ==>
      && sends > 0 && calls[0].attempt == sends - 1 && env(sends - 1).Sent?
      && (env(sends - 1).limit == sends || forall j :: 0 <= j < sends ==> env(j).Sent? && !env(j).connectionError)
    ensures !closed ==> forall j :: 0 <= j < sends && (j < sends - 1 || calls[0].NotConnected?) ==> GoesOn(env, j)
  {
    calls, sends := [], 0;
    if closed {
      return [ChannelClosed], 0;
    }
    var connectFailed := false;
    var attemptsCnt := 0;
    while true
      invariant calls == [] && sends == attemptsCnt && attemptsCnt <= bound
      invariant connectFailed == Failed(env, attemptsCnt)
      invariant forall j :: 0 <= j < attemptsCnt ==> !EndsAt(env, j)
      decreases bound - attemptsCnt
    {
      var turn := env(attemptsCnt);
      if turn.NoChannel? {
        assert FirstEnd(env, attemptsCnt) && Ending(env, attemptsCnt) == ([NotConnected], sends);
        TurnsBefore(env, attemptsCnt);
        return [NotConnected], sends;
      }
      attemptsCnt := attemptsCnt + 1;
      sends := sends + 1;
      if turn.connectionError {
        connectFailed := true;
      }
      assert connectFailed == Failed(env, attemptsCnt) by { FailedStep(env, attemptsCnt - 1); }
      if !connectFailed || attemptsCnt == turn.limit {
        calls := calls + [Response(attemptsCnt - 1)];
      }
      if !connectFailed || attemptsCnt == turn.limit {
        assert FirstEnd(env, attemptsCnt - 1) && calls == [Response(attemptsCnt - 1)];
        TurnsBefore(env, attemptsCnt - 1);
        return;
      }
    }
  }

  // Before the turn that ends the loop every turn sends, after a failure and short of its limit.
  lemma TurnsBefore(env: Environment, i: nat)
    requires FirstEnd(env, i)
    ensures forall j :: 0 <= j < i ==> GoesOn(env, j)
    ensures env(i).Sent? ==>
      env(i).limit == i + 1 || forall j :: 0 <= j <= i ==> env(j).Sent? && !env(j).connectionError
  {
    forall j | 0 <= j < i ensures GoesOn(env, j) {
      assert !EndsAt(env, j) && Failed(env, j + 1);
    }
    if env(i).Sent? && env(i).limit != i + 1 {
      forall j | 0 <= j <= i ensures env(j).Sent? && !env(j).connectionError {
        assert !Failed(env, i + 1);
        assert j < i ==> GoesOn(env, j);
      }
    }
  }

  lemma FailedStep(env: Environment, n: nat)
    ensures Failed(env, n + 1) <==> Failed(env, n) || (env(n).Sent? && env(n).connectionError)
  {
  }

  ghost predicate FixedLimit(env: Environment, limit: nat) {
    limit >= 1 && forall i: nat :: env(i).Sent? ==> env(i).limit == limit
  }

  // With a fixed limit the loop ends within that many turns.
  lemma FixedLimitEnds(env: Environment, limit: nat, i: nat)
    requires FixedLimit(env, limit)
    ensures EndsAt(env, limit - 1)
    ensures FirstEnd(env, i) ==> i < limit
  {
  }

  // But not earlier: once the first send has failed to connect, a later success does not end it.
  lemma SuccessDoesNotEnd(env: Environment, limit: nat, i: nat)
    requires FixedLimit(env, limit) && (forall j: nat :: env(j).Sent?) && env(0).connectionError
    ensures FirstEnd(env, i) <==> i == limit - 1
  {
    forall n: nat | n > 0 ensures Failed(env, n) {
      assert env(0).Sent? && env(0).connectionError;
    }
    if i == limit - 1 {
      assert FirstEnd(env, i);
    }
  }

  // Once a send has failed to connect, only a turn without a channel or one that meets its limit
  // exactly ends the loop.
  lemma EndsAfterFailure(env: Environment, k: nat, i: nat)
    requires Failed(env, k) && k <= i + 1
    ensures EndsAt(env, i) <==> env(i).NoChannel? || env(i).limit == i + 1
  {
    assert Failed(env, i + 1);
  }

  // Every turn finds a channel.
  ghost predicate AllSent(env: Environment) {
    forall i: nat :: env(i).Sent?
  }

  ghost predicate Ends(env: Environment) {
    exists i: nat :: EndsAt(env, i)
  }

  // So after a failed first send the loop ends exactly if some turn has no channel or meets its limit.
  lemma EndsExactly(env: Environment)
    requires env(0).Sent? && env(0).connectionError
    ensures Ends(env) <==> exists i: nat :: env(i).NoChannel? || env(i).limit == i + 1
  {
    assert Failed(env, 1);
    if Ends(env) {
      var i: nat :| EndsAt(env, i);
      EndsAfterFailure(env, 1, i);
    }
    if i: nat :| env(i).NoChannel? || env(i).limit == i + 1 {
      EndsAfterFailure(env, 1, i);
      assert EndsAt(env, i);
    }
  }

  // Turn i has attempts left when the limit of turn i + 1 is already used up.
  ghost predicate ShrinksAway(env: Environment, i: nat)
    requires env(i).Sent? && env(i + 1).Sent?
  {
    env(i + 1).limit <= i + 1 < env(i).limit
  }

  // Limits that stay below some bound are met, unless one of them shrinks to no more than the
  // attempts made: the attempts grow one by one and cannot step over a limit by themselves.
  lemma {:induction false} LimitMet(env: Environment, i: nat, max: nat)
    requires AllSent(env) && Failed(env, i + 1)
    requires forall j: nat :: j >= i ==> env(j).limit <= max
    requires forall j: nat :: j >= i ==> !ShrinksAway(env, j)
    requires env(i).limit >= i + 1
    ensures exists j :: i <= j < max && EndsAt(env, j)
    decreases max - i
  {
    if env(i).limit == i + 1 {
      EndsAfterFailure(env, i + 1, i);
    } else {
      assert !ShrinksAway(env, i);
      assert Failed(env, i + 2);
      LimitMet(env, i + 1, max);
    }
  }

  // Limits that never shrink and stay bounded are met within that bound.
  lemma GrowingLimitEnds(env: Environment, max: nat)
    requires AllSent(env) && env(0).limit >= 1
    requires forall j: nat, k: nat :: j < k ==> env(j).limit <= env(k).limit
    requires forall j: nat :: env(j).limit <= max
    ensures exists i :: 0 <= i < max && EndsAt(env, i)
  {
    if env(0).connectionError {
      assert Failed(env, 1);
      forall j: nat ensures !ShrinksAway(env, j) {
        assert env(j).limit <= env(j + 1).limit;
      }
      LimitMet(env, 0, max);
    } else {
      assert EndsAt(env, 0);
    }
  }

  // Limits that stay at or below the attempts already made are never met: the loop goes on although
  // every later send may succeed, and the reader is never called.
  lemma ShrunkLimitNeverMet(env: Environment, k: nat)
    requires AllSent(env) && Failed(env, k)
    requires forall i: nat :: i >= k ==> env(i).limit <= i
    ensures forall i: nat :: i >= k ==> !EndsAt(env, i)
    ensures Ends(env) <==> exists i :: 0 <= i < k && EndsAt(env, i)
  {
    forall i: nat | i >= k ensures !EndsAt(env, i) {
      EndsAfterFailure(env, k, i);
    }
    if Ends(env) {
      var i: nat :| EndsAt(env, i);
      assert i < k;
    }
  }

  // Two addresses, the first send fails, and then one address: no turn ends the loop.
  lemma ShrunkLimitExample()
    ensures var env: Environment := i => if i == 0 then Sent(2, true) else Sent(1, false);
      !Ends(env)
  {
    var env: Environment := i => if i == 0 then Sent(2, true) else Sent(1, false);
    assert env(0).Sent? && env(0).connectionError;
    ShrunkLimitNeverMet(env, 1);
    assert !EndsAt(env, 0);
  }
}
