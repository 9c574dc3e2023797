/** One signal sent to one account of a group, with its fallbacks: the retry loop of every call and
    the cascade over the accounts put together. */
module Dispatch {
  import opened Options
  import opened PlaceOrder
  import Fallback

  // isFallbackError: which errors of PlaceOrder send the order to another account.
  function OutcomeOf(err: Option<Failure>): Fallback.Outcome {
    match err
    case None => Fallback.Success
    case Some(f) =>
      if f in {OrderLimitReached, RetryExhausted, AccountUnavailable}
      then Fallback.FallbackError
      else Fallback.OtherError
  }

  // What happened in one call: the account's type, the replies of its sends, and how it ended. A
  // call that sends nothing was refused before, ended its wait with its context, or had no client.
  datatype Call = Call(taskType: string, attempts: nat -> Attempt, sends: nat, err: Option<Failure>)

  ghost predicate Made(c: Call) {
    if c.sends == 0 then c.err == Some(ClientError) || c.err == Some(Refused)
    else
      && c.sends <= MAX_SENDS && Ends(c.taskType, c.attempts, c.sends, c.err)
      && forall k | 0 <= k < c.sends - 1 :: Classify(c.taskType, c.attempts(k).reply) == Retryable
  }

  // The calls of one dispatch, as ExecuteTaskWithFallback leaves them.
  ghost predicate Cascade(calls: seq<Call>) {
    && 1 <= |calls| <= 1 + Fallback.MAX_FALLBACK_ATTEMPTS
    && (forall k | 0 <= k < |calls| :: Made(calls[k]))
    && (forall k | 0 <= k < |calls| - 1 :: OutcomeOf(calls[k].err) == Fallback.FallbackError)
  }

  predicate AcceptedAt(calls: seq<Call>, k: nat, j: nat) {
    k < |calls| && j < calls[k].sends && Classify(calls[k].taskType, calls[k].attempts(j).reply) == Accepted
  }

  // Within one call a reply was accepted exactly when the call returned nil, and then it is the last.
  lemma AcceptedInCall(c: Call, j: nat)
    requires Made(c) && j < c.sends && Classify(c.taskType, c.attempts(j).reply) == Accepted
    ensures j == c.sends - 1 && c.err == None
  {
    ErrorMeaning(c.taskType, c.attempts, c.sends, c.err);
  }

  // Over a whole dispatch, all its accounts and all their retries, at most one reply accepts the
  // order; it is the last reply of the last call, and it is there exactly when that call returns nil.
  lemma AtMostOneAccepted(calls: seq<Call>, k: nat, j: nat)
    requires Cascade(calls)
    ensures AcceptedAt(calls, k, j) <==>
            k == |calls| - 1 && calls[k].err == None && j == calls[k].sends - 1
  {
    if AcceptedAt(calls, k, j) {
      AcceptedInCall(calls[k], j);
    } else if k == |calls| - 1 && calls[k].err == None && j == calls[k].sends - 1 {
      ErrorMeaning(calls[k].taskType, calls[k].attempts, calls[k].sends, calls[k].err);
    }
  }

  /* ---- Orders the platform placed ---- */

  // Answers that turn an order down are true: the platform placed none for them.
  ghost predicate Honest(c: Call) {
    forall j | 0 <= j < c.sends && Classify(c.taskType, c.attempts(j).reply) in {Retryable, Limit, Unavailable} ::
      !c.attempts(j).executed
  }

  predicate ExecutedAt(calls: seq<Call>, k: nat, j: nat) {
    k < |calls| && j < calls[k].sends && calls[k].attempts(j).executed
  }

  predicate LastExecuted(c: Call) { c.sends > 0 && c.attempts(c.sends - 1).executed }

  // The last send was a retry that ran into its deadline without an answer.
  predicate RetryTimedOut(c: Call) {
    c.sends > 1 && Classify(c.taskType, c.attempts(c.sends - 1).reply) == Unsent(true)
  }

  lemma ExecutedIsLast(calls: seq<Call>, k: nat, j: nat)
    requires Cascade(calls) && ExecutedAt(calls, k, j) && Honest(calls[k])
    ensures j == calls[k].sends - 1 && LastExecuted(calls[k])
    ensures k < |calls| - 1 ==> RetryTimedOut(calls[k])
  {
    hide Classify;
    assert Made(calls[k]);
    if k < |calls| - 1 {
      assert OutcomeOf(calls[k].err) == Fallback.FallbackError;
    }
  }

  ghost predicate ExecutedTwice(calls: seq<Call>) {
    exists k: nat, j: nat, l: nat, m: nat ::
      ExecutedAt(calls, k, j) && ExecutedAt(calls, l, m) && (k, j) != (l, m)
  }

  ghost predicate AllHonest(calls: seq<Call>) { forall k | 0 <= k < |calls| :: Honest(calls[k]) }

  // With a platform whose refusals are true, two orders come from two calls, the earlier of which ended
  // with a retry that got no answer before its deadline.
  lemma ExecutedTwiceIff(calls: seq<Call>)
    requires Cascade(calls) && AllHonest(calls)
    ensures ExecutedTwice(calls) <==>
            exists k, l :: 0 <= k < l < |calls| && RetryTimedOut(calls[k])
                           && LastExecuted(calls[k]) && LastExecuted(calls[l])
  {
    hide Made, Honest, Cascade, RetryTimedOut;
    if k: nat, j: nat, l: nat, m: nat :| ExecutedAt(calls, k, j) && ExecutedAt(calls, l, m) && (k, j) != (l, m) {
      ExecutedIsLast(calls, k, j);
      ExecutedIsLast(calls, l, m);
      assert k != l;
    }
    if k, l :| 0 <= k < l < |calls| && RetryTimedOut(calls[k]) && LastExecuted(calls[k]) && LastExecuted(calls[l]) {
      assert ExecutedAt(calls, k, calls[k].sends - 1) && ExecutedAt(calls, l, calls[l].sends - 1);
    }
  }

  /* ---- What the replies allow ---- */

  // The last reply is no refusal, so the platform may have placed an order for it.
  predicate MayExecute(c: Call) {
    c.sends > 0 && Classify(c.taskType, c.attempts(c.sends - 1).reply) !in {Retryable, Limit, Unavailable}
  }

  // All the program sees of a dispatch.
  ghost predicate SameCall(c: Call, d: Call) {
    && d.taskType == c.taskType && d.sends == c.sends && d.err == c.err
    && forall j: nat :: d.attempts(j).reply == c.attempts(j).reply && d.attempts(j).ctxDone == c.attempts(j).ctxDone
  }

  ghost predicate SameReplies(calls: seq<Call>, others: seq<Call>) {
    |others| == |calls| && forall k | 0 <= k < |calls| :: SameCall(calls[k], others[k])
  }

  lemma MadeByReplies(c: Call, d: Call)
    requires SameCall(c, d) && Made(c)
    ensures Made(d) && RetryTimedOut(d) == RetryTimedOut(c) && MayExecute(d) == MayExecute(c)
  {
    hide Classify;
    if c.sends > 0 {
      assert d.attempts(c.sends - 1).reply == c.attempts(c.sends - 1).reply;
      assert d.attempts(c.sends).ctxDone == c.attempts(c.sends).ctxDone;
    }
  }

  lemma CascadeByReplies(calls: seq<Call>, others: seq<Call>)
    requires SameReplies(calls, others) && Cascade(calls)
    ensures Cascade(others)
  {
    hide Made, OutcomeOf;
    forall k | 0 <= k < |calls|
      ensures Made(others[k]) && others[k].err == calls[k].err
    {
      MadeByReplies(calls[k], others[k]);
    }
  }

  lemma HonestExecution(c: Call)
    requires Honest(c) && LastExecuted(c)
    ensures MayExecute(c)
  {
    hide Classify;
  }

  // The same call, executed exactly in its last send, if that may be.
  function Charged(c: Call): Call {
    c.(attempts := (j: nat) => c.attempts(j).(executed := j + 1 == c.sends && MayExecute(c)))
  }

  lemma ChargedIsHonest(c: Call)
    ensures SameCall(c, Charged(c)) && Honest(Charged(c)) && (MayExecute(c) ==> LastExecuted(Charged(c)))
  {
    hide Classify;
    var d := Charged(c);
    forall j | 0 <= j < d.sends && Classify(d.taskType, d.attempts(j).reply) in {Retryable, Limit, Unavailable}
      ensures !d.attempts(j).executed
    {
      assert d.attempts(j).reply == c.attempts(j).reply;
    }
  }

  // From the replies alone: the platform may have placed two orders for one dispatch if and only if a
  // call ended with a retry unanswered before its deadline and a later one did not end with a refusal.
  lemma MayExecuteTwiceIff(calls: seq<Call>)
    requires Cascade(calls)
    ensures (exists others :: SameReplies(calls, others) && AllHonest(others) && ExecutedTwice(others)) <==>
            exists k, l :: 0 <= k < l < |calls| && RetryTimedOut(calls[k]) && MayExecute(calls[l])
  {
    hide Made, Honest, Cascade, RetryTimedOut, MayExecute, LastExecuted, ExecutedTwice, SameCall, Charged;
    if others :| SameReplies(calls, others) && AllHonest(others) && ExecutedTwice(others) {
      CascadeByReplies(calls, others);
      ExecutedTwiceIff(others);
      var k, l :| 0 <= k < l < |others| && RetryTimedOut(others[k])
                  && LastExecuted(others[k]) && LastExecuted(others[l]);
      HonestExecution(others[l]);
      CallsMade(calls, k);
      CallsMade(calls, l);
      MadeByReplies(calls[k], others[k]);
      MadeByReplies(calls[l], others[l]);
    }
    if k, l :| 0 <= k < l < |calls| && RetryTimedOut(calls[k]) && MayExecute(calls[l]) {
      var others := seq(|calls|, i requires 0 <= i < |calls| => Charged(calls[i]));
      forall i | 0 <= i < |calls|
        ensures SameCall(calls[i], others[i]) && Honest(others[i])
      {
        ChargedIsHonest(calls[i]);
      }
      CascadeByReplies(calls, others);
      ExecutedTwiceIff(others);
      CallsMade(calls, k);
      MadeByReplies(calls[k], others[k]);
      TimedOutMayExecute(calls[k]);
      ChargedIsHonest(calls[k]);
      ChargedIsHonest(calls[l]);
    }
  }

  lemma CallsMade(calls: seq<Call>, k: nat)
    requires Cascade(calls) && k < |calls|
    ensures Made(calls[k])
  {
  }

  lemma TimedOutMayExecute(c: Call)
    requires RetryTimedOut(c)
    ensures MayExecute(c)
  {
  }

  // Such a dispatch exists: TurboFlow asks for a retry, the retry is not answered in time, and the
  // order goes to a second account, which accepts it.
  lemma TwoOrdersForOneSignal() returns (calls: seq<Call>)
    ensures Cascade(calls) && AllHonest(calls) && ExecutedTwice(calls)
  {
    var busy := BizResponse("", false, None, None, false, "1021110", "", "");
    var fine := BizResponse("000000", false, None, None, false, "", "", "");
    var first := Attempt(false, Http(200, Some(busy)), false);
    var lost := Attempt(false, NetError(true), true);
    var accepted := Attempt(false, Http(200, Some(fine)), true);
    var a := Call("turboflow", (j: nat) => if j == 0 then first else lost, 2, Some(RetryExhausted));
    var b := Call("turboflow", (j: nat) => accepted, 1, None);
    calls := [a, b];
    assert Classify("turboflow", first.reply) == Retryable;
    assert Classify("turboflow", accepted.reply) == Accepted;
    assert Made(a) && Made(b);
    assert ExecutedAt(calls, 0, 1) && ExecutedAt(calls, 1, 0);
  }

  function Sends(calls: seq<Call>): nat {
    if calls == [] then 0 else Sends(calls[..|calls| - 1]) + calls[|calls| - 1].sends
  }

  // Another account is only tried after the platform itself said that this one cannot take the order:
  // every call but the last saw a limit, a dead account, or a retryable answer.
  lemma FallbackNeedsAReason(calls: seq<Call>, k: nat)
    requires Cascade(calls) && k < |calls| - 1
    ensures exists j :: 0 <= j < calls[k].sends &&
              Classify(calls[k].taskType, calls[k].attempts(j).reply) in {Limit, Unavailable, Retryable}
  {
    var c := calls[k];
    ErrorMeaning(c.taskType, c.attempts, c.sends, c.err);
    if c.err != Some(RetryExhausted) {
      assert Classify(c.taskType, c.attempts(c.sends - 1).reply) in {Limit, Unavailable, Retryable};
    }
  }

  lemma {:induction false} SendsBounded(calls: seq<Call>, bound: nat)
    requires forall k | 0 <= k < |calls| :: calls[k].sends <= bound
    ensures Sends(calls) <= |calls| * bound
  {
    if calls != [] {
      SendsBounded(calls[..|calls| - 1], bound);
      assert |calls| * bound == (|calls| - 1) * bound + bound;
    }
  }

  // And never more than sixty-six requests leave.
  lemma DispatchSendsAtMost(calls: seq<Call>)
    requires Cascade(calls)
    ensures Sends(calls) <= 66
  {
    hide Sends;
    forall k | 0 <= k < |calls| ensures calls[k].sends <= 11 {
      assert Made(calls[k]);
    }
    SendsBounded(calls, 11);
  }

  /* ---- When another account has to be tried ---- */

  // A last reply that says this account cannot take the order: its order limit, a dead account, or a
  // wish to be asked again after the eleventh send.
  predicate CannotTake(c: Call) {
    c.sends > 0 &&
    match c.attempts(c.sends - 1).reply
    case Http(status, Some(b)) =>
      || (200 <= status <= 299 && b.code == "93420018")
      || (b.code in {"100002001", "93420004"} && (!(200 <= status <= 299) || PlainRefusal(c.taskType, b)))
      || (200 <= status <= 299 && b.code != "93420018" && !Final(c.taskType, b))
    case _ => false
  }

  lemma CannotTakeMeans(c: Call)
    requires Made(c) && CannotTake(c)
    ensures c.err in {Some(OrderLimitReached), Some(RetryExhausted), Some(AccountUnavailable)}
  {
    hide Final, PlainRefusal, Classify, Ends;
    ErrorFromReply(c.taskType, c.attempts, c.sends, c.err);
  }

  lemma ErrorsThatFallBack(err: Option<Failure>)
    ensures OutcomeOf(err) == Fallback.FallbackError <==>
            err in {Some(OrderLimitReached), Some(RetryExhausted), Some(AccountUnavailable)}
    ensures OutcomeOf(err) == Fallback.Success <==> err == None
  {
  }

  /** The cascade is what the fallback loop produces when call k behaves as `world(k)`. It ends early only
      on success or on an error that is none of the three; a reply that says the account cannot take the
      order is followed by a call to the next account of the cycle as long as five of those are not used. */
  method ExecuteTask(primary: string, matched: seq<string>, world: nat -> Call)
    returns (accounts: seq<string>, ghost calls: seq<Call>)
    requires forall k :: Made(world(k))
    ensures Cascade(calls) && |accounts| == |calls| && accounts[0] == primary
    ensures forall k | 0 <= k < |calls| :: calls[k] == world(k)
    ensures matched == [] ==> |calls| == 1
    ensures matched != [] ==> forall k | 1 <= k < |accounts| :: accounts[k] == Fallback.Target(matched, primary, k)
    ensures matched != [] && |calls| < 6 ==>
      calls[|calls| - 1].err !in {Some(OrderLimitReached), Some(RetryExhausted), Some(AccountUnavailable)}
    ensures matched != [] ==> forall k | 0 <= k < |calls| && k < 5 && CannotTake(calls[k]) :: k + 1 < |calls|
    ensures forall k | 0 <= k < |calls| - 1 :: calls[k].err != None
  {
    hide OutcomeOf, Made, CannotTake;
    var outcomes := (k: nat) => OutcomeOf(world(k).err);
    var placed: bool;
    accounts, placed := Fallback.ExecuteTaskWithFallback(primary, matched, outcomes);
    calls := seq(|accounts|, k requires 0 <= k < |accounts| => world(k));
    forall k | 0 <= k < |calls| - 1
      ensures OutcomeOf(calls[k].err) == Fallback.FallbackError && calls[k].err != None
    {
      assert outcomes(k) == Fallback.FallbackError;
      ErrorsThatFallBack(calls[k].err);
    }
    ghost var last := |calls| - 1;
    assert calls[last] == world(last) && outcomes(last) == OutcomeOf(calls[last].err);
    ErrorsThatFallBack(calls[last].err);
    if CannotTake(calls[last]) {
      CannotTakeMeans(calls[last]);
    }
  }
}
