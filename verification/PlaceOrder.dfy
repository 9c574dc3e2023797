/** Sending one order: classify the platform's response, retry the retryable ones, and keep the order
    record up to date. The network is a sequence of replies. */
module PlaceOrder {
  import opened Options
  import opened Text
  import R = OrderRing
  import S = OrderStore
  import Runs = OrderRuns

  datatype BizResponse = BizResponse(code: string, ok: bool, queued: Option<bool>, duplicate: Option<bool>,
                                     success: bool, errno: string, msg: string, message: string)

  // A body that is not a JSON business response has no biz.
  datatype Reply = NetError(deadline: bool) | Http(status: int, biz: Option<BizResponse>)

  // `ctxDone`: the context ended during the wait before this send. `executed`: the platform placed an
  // order for it, whatever it answered; nothing of the program depends on it.
  datatype Attempt = Attempt(ctxDone: bool, reply: Reply, executed: bool)

  datatype Failure = ClientError | OrderLimitReached | RetryExhausted | AccountUnavailable | HttpError | Refused

  const MAX_SENDS := 11

  /* ---- Classifying a response ---- */

  // "ok" does not help an order that was neither queued nor a duplicate of an accepted one.
  predicate IsSuccess(b: BizResponse) {
    if b.ok then b.queued != Some(false) || b.duplicate == Some(true)
    else b.code == "000000" || b.success || b.errno == "200" || EqualFold(TrimSpace(b.msg), "success")
  }

  predicate IsHIBTHoldingLimit(b: BizResponse) {
    var msg := ToLower(TrimSpace(b.message));
    Contains(msg, "最多允许持有") || Contains(msg, "持仓数量限制") || Contains(msg, "holding limit")
  }

  predicate IsHIBTDuplicateOperation(b: BizResponse) {
    var msg := ToLower(TrimSpace(b.message));
    Contains(msg, "请勿重复操作") || Contains(msg, "重复操作") || Contains(msg, "duplicate operation")
  }

  predicate IsAccountUnavailableCode(code: string) { code == "100002001" || code == "93420004" }

  predicate IsRetryable(taskType: string, b: BizResponse) {
    b.errno == "1021110" || (taskType == "hibt" && (IsHIBTHoldingLimit(b) || IsHIBTDuplicateOperation(b)))
  }

  datatype Verdict = Accepted | Retryable | Limit | Unavailable | Rejected | Unsent(deadline: bool)

  function Classify(taskType: string, reply: Reply): Verdict {
    match reply
    case NetError(deadline) => Unsent(deadline)
    case Http(status, biz) =>
      if 200 <= status < 300 then
        match biz
        case Some(b) =>
          if b.code == "93420018" then Limit
          else if IsRetryable(taskType, b) then Retryable
          else if IsSuccess(b) then Accepted
          else if IsAccountUnavailableCode(b.code) then Unavailable
          else Rejected
        case None => if taskType == "raw" then Accepted else Rejected
      else if biz.Some? && IsAccountUnavailableCode(biz.value.code) then Unavailable
      else Rejected
  }

  // Only a 2xx answer can be taken for an accepted order, and outside raw tasks only a business
  // response that says so, is not a limit and does not ask for a retry.
  lemma AcceptedMeans(taskType: string, reply: Reply)
    ensures Classify(taskType, reply) == Accepted <==>
            reply.Http? && 200 <= reply.status < 300 &&
            (if reply.biz.Some?
             then && IsSuccess(reply.biz.value) && reply.biz.value.code != "93420018"
                  && !IsRetryable(taskType, reply.biz.value)
             else taskType == "raw")
  {
  }

  /* ---- The send loop ---- */

  function ErrorText(f: Failure): string {
    match f
    case ClientError => "http client error"
    case OrderLimitReached => "order number limit reached for this account"
    case RetryExhausted => "retryable order error exhausted after retries"
    case AccountUnavailable => "account unavailable or expired"
    case HttpError => "http error"
    case Refused => "order refused"
  }

  // The store after a list of updates to one record; the i-th happens at clock(i).
  function Patched(s: R.Ring, id: int, patches: seq<R.Patch>, clock: nat -> R.Time): R.Ring {
    if patches == [] then s
    else
      var n := |patches| - 1;
      R.Update(Patched(s, id, patches[..n], clock), id, patches[n], clock(n))
  }

  // What the record shows after its updates.
  function Shown(patches: seq<R.Patch>): Runs.Progress { Runs.Fold(patches, Runs.Progress(R.Pending, 0)) }

  // The record as an order creates it.
  function OrderFields(details: R.Details, taskId: string, period: string, amount: Option<real>): R.Record {
    R.Record(0, 0, 0, 0, details, taskId, period, amount, R.Pending, 0, "", "", "", 0, R.Unset, 0.0, None)
  }

  // The updates one reply causes.
  function ReplyPatches(taskType: string, reply: Reply): seq<R.Patch> {
    match reply
    case NetError(_) => []
    case Http(status, biz) =>
      [R.SetHttpStatus(status)]
      + (match biz
         case Some(b) => [R.SetReply(b.code, if b.msg == "" then b.message else b.msg)]
         case None => [])
      + if Classify(taskType, reply) == Retryable then [R.SetRetrying] else []
  }

  // The updates of the first sends.
  function SendPatches(taskType: string, attempts: nat -> Attempt, sends: nat): seq<R.Patch> {
    if sends == 0 then []
    else
      SendPatches(taskType, attempts, sends - 1) + [R.SetAttempts(sends)]
      + ReplyPatches(taskType, attempts(sends - 1).reply)
  }

  // All updates of one order, the deferred final one included.
  function Log(taskType: string, attempts: nat -> Attempt, sends: nat, err: Option<Failure>): seq<R.Patch> {
    SendPatches(taskType, attempts, sends) + [R.Finish(if err == None then None else Some(ErrorText(err.value)))]
  }

  lemma {:induction false} ShownSnoc(patches: seq<R.Patch>, p: R.Patch)
    ensures Shown(patches + [p]) == Runs.Advance(p, Shown(patches))
  {
    assert (patches + [p])[..|patches|] == patches;
  }

  lemma ShownQuiet(patches: seq<R.Patch>, p: R.Patch)
    requires p.SetHttpStatus? || p.SetReply?
    ensures Shown(patches + [p]) == Shown(patches)
  {
    hide Shown;
    ShownSnoc(patches, p);
  }

  lemma ReplyShape(taskType: string, reply: Reply) returns (quiet: seq<R.Patch>)
    ensures |quiet| <= 2 && forall i | 0 <= i < |quiet| :: quiet[i].SetHttpStatus? || quiet[i].SetReply?
    ensures ReplyPatches(taskType, reply) ==
            quiet + if Classify(taskType, reply) == Retryable then [R.SetRetrying] else []
  {
    assert reply.NetError? ==> Classify(taskType, reply) != Retryable;
    hide Classify;
    match reply
    case NetError(_) => quiet := [];
    case Http(status, None) => quiet := [R.SetHttpStatus(status)];
    case Http(status, Some(b)) =>
      quiet := [R.SetHttpStatus(status), R.SetReply(b.code, if b.msg == "" then b.message else b.msg)];
  }

  lemma {:induction false} ShownAllQuiet(patches: seq<R.Patch>, quiet: seq<R.Patch>)
    requires forall i | 0 <= i < |quiet| :: quiet[i].SetHttpStatus? || quiet[i].SetReply?
    ensures Shown(patches + quiet) == Shown(patches)
  {
    hide Shown;
    if quiet == [] {
      assert patches + quiet == patches;
    } else {
      var n := |quiet| - 1;
      ShownAllQuiet(patches, quiet[..n]);
      ShownQuiet(patches + quiet[..n], quiet[n]);
      assert patches + quiet == patches + quiet[..n] + [quiet[n]];
    }
  }

  lemma ShownReply(patches: seq<R.Patch>, taskType: string, reply: Reply)
    ensures Shown(patches + ReplyPatches(taskType, reply)) ==
            if Classify(taskType, reply) == Retryable then Shown(patches).(status := R.Retrying) else Shown(patches)
  {
    hide Classify, Shown, ReplyPatches;
    var quiet := ReplyShape(taskType, reply);
    ShownAllQuiet(patches, quiet);
    if Classify(taskType, reply) == Retryable {
      ShownSnoc(patches + quiet, R.SetRetrying);
      assert patches + ReplyPatches(taskType, reply) == patches + quiet + [R.SetRetrying];
    } else {
      assert patches + ReplyPatches(taskType, reply) == patches + quiet;
    }
  }

  lemma {:induction false} ShownSends(taskType: string, attempts: nat -> Attempt, sends: nat)
    ensures Shown(SendPatches(taskType, attempts, sends)).attempts == sends
    ensures Shown(SendPatches(taskType, attempts, sends)).status ==
            if exists k :: 0 <= k < sends && Classify(taskType, attempts(k).reply) == Retryable
            then R.Retrying else R.Pending
  {
    hide Classify, Shown, ReplyPatches;
    if sends == 0 {
      assert Shown([]) == Runs.Progress(R.Pending, 0) by { NothingShown(); }
    } else {
      var before := SendPatches(taskType, attempts, sends - 1);
      ShownSends(taskType, attempts, sends - 1);
      ShownSnoc(before, R.SetAttempts(sends));
      ShownReply(before + [R.SetAttempts(sends)], taskType, attempts(sends - 1).reply);
    }
  }

  lemma NothingShown()
    ensures Shown([]) == Runs.Progress(R.Pending, 0)
  {
  }

  // Folded, the updates of an order show the number of its sends and whether it failed.
  lemma ShownLog(taskType: string, attempts: nat -> Attempt, sends: nat, err: Option<Failure>)
    ensures Shown(Log(taskType, attempts, sends, err)) ==
            Runs.Progress(if err == None then R.Success else R.Failed, sends)
  {
    hide Shown, SendPatches;
    ShownSends(taskType, attempts, sends);
    var failure := if err == None then None else Some(ErrorText(err.value));
    ShownSnoc(SendPatches(taskType, attempts, sends), R.Finish(failure));
  }

  // How a run of sends must end, given the verdict of its last reply.
  predicate Ends(taskType: string, attempts: nat -> Attempt, sends: nat, err: Option<Failure>)
    requires sends >= 1
  {
    match Classify(taskType, attempts(sends - 1).reply)
    case Accepted => err == None
    case Limit => err == Some(OrderLimitReached)
    case Unavailable => err == Some(AccountUnavailable)
    case Rejected => err == Some(Refused)
    case Unsent(deadline) => err == Some(if deadline && sends > 1 then RetryExhausted else HttpError)
    case Retryable => err == Some(RetryExhausted) && (sends == MAX_SENDS || attempts(sends).ctxDone)
  }

  class Client {
    const recorder: S.Store

    constructor (recorder: S.Store)
      ensures this.recorder == recorder
    {
      this.recorder := recorder;
    }

    // One update of the order's record, appended to the log.
    method Note(id: int, p: R.Patch, clock: nat -> R.Time, ghost start: R.Ring, patches: seq<R.Patch>)
      returns (patches': seq<R.Patch>)
      requires recorder.View() == Patched(start, id, patches, clock)
      modifies recorder
      ensures patches' == patches + [p] && recorder.View() == Patched(start, id, patches', clock)
    {
      hide R.Update;
      recorder.Update(id, p, clock(|patches|));
      patches' := patches + [p];
      assert patches'[..|patches|] == patches;
    }

    /** Sends until the last reply settles the matter, `MAX_SENDS` are used up, or the context ends
        during a wait. `patches` is the log of record updates. */
    method SendLoop(id: int, taskType: string, attempts: nat -> Attempt, clock: nat -> R.Time, ghost start: R.Ring)
      returns (err: Option<Failure>, sends: nat, patches: seq<R.Patch>)
      requires recorder.View() == start
      modifies recorder
      ensures recorder.View() == Patched(start, id, patches, clock)
      ensures 1 <= sends <= MAX_SENDS
      ensures forall k | 0 <= k < sends - 1 :: Classify(taskType, attempts(k).reply) == Retryable
      ensures forall k | 1 <= k < sends :: !attempts(k).ctxDone
      ensures Ends(taskType, attempts, sends, err)
      ensures patches == SendPatches(taskType, attempts, sends)
    {
      hide Classify, R.Update, Ends, Patched, ReplyPatches;
      var sawRetryable := false;
      patches, sends := [], 0;
      NothingPatched(start, id, clock);
      while sends < MAX_SENDS
        invariant sends <= MAX_SENDS && (sawRetryable <==> sends > 0)
        invariant recorder.View() == Patched(start, id, patches, clock)
        invariant forall k | 0 <= k < sends :: Classify(taskType, attempts(k).reply) == Retryable
        invariant forall k | 1 <= k < sends :: !attempts(k).ctxDone
        invariant patches == SendPatches(taskType, attempts, sends)
      {
        if sends > 0 && attempts(sends).ctxDone {
          EndsRetrying(taskType, attempts, sends);
          return Some(RetryExhausted), sends, patches;
        }
        patches := Note(id, R.SetAttempts(sends + 1), clock, start, patches);
        sends := sends + 1;
        var reply := attempts(sends - 1).reply;
        var more: bool;
        more, err, patches := Handle(id, taskType, reply, sawRetryable, clock, start, patches);
        if !more {
          EndsAt(taskType, attempts, sends, err);
          return err, sends, patches;
        }
        sawRetryable := true;
      }
      EndsRetrying(taskType, attempts, sends);
      return Some(RetryExhausted), sends, patches;
    }

    // Everything after one send: record the response, then return or go round again.
    method Handle(id: int, taskType: string, reply: Reply, sawRetryable: bool, clock: nat -> R.Time,
                  ghost start: R.Ring, patches: seq<R.Patch>)
      returns (more: bool, err: Option<Failure>, patches': seq<R.Patch>)
      requires recorder.View() == Patched(start, id, patches, clock)
      modifies recorder
      ensures recorder.View() == Patched(start, id, patches', clock)
      ensures patches' == patches + ReplyPatches(taskType, reply)
      ensures more <==> Classify(taskType, reply) == Retryable
      ensures !more ==> err == Outcome(Classify(taskType, reply), sawRetryable)
    {
      hide IsRetryable, IsSuccess, IsAccountUnavailableCode, R.Update, Patched;
      patches' := patches;
      if reply.NetError? {
        return false, Some(if sawRetryable && reply.deadline then RetryExhausted else HttpError), patches';
      }
      patches' := Note(id, R.SetHttpStatus(reply.status), clock, start, patches');
      if reply.biz.Some? {
        var b := reply.biz.value;
        patches' := Note(id, R.SetReply(b.code, if b.msg == "" then b.message else b.msg), clock, start, patches');
      }
      if 200 <= reply.status < 300 {
        if reply.biz == None {
          return false, if taskType == "raw" then None else Some(Refused), patches';
        }
        var b := reply.biz.value;
        if b.code == "93420018" {
          return false, Some(OrderLimitReached), patches';
        }
        if IsRetryable(taskType, b) {
          patches' := Note(id, R.SetRetrying, clock, start, patches');
          return true, None, patches';
        }
        if IsSuccess(b) {
          return false, None, patches';
        }
        if IsAccountUnavailableCode(b.code) {
          return false, Some(AccountUnavailable), patches';
        }
        return false, Some(Refused), patches';
      }
      if reply.biz.Some? && IsAccountUnavailableCode(reply.biz.value.code) {
        return false, Some(AccountUnavailable), patches';
      }
      return false, Some(Refused), patches';
    }

    /** The recorded part of PlaceOrder: a record under a new id, at most eleven sends, and exactly the
        updates of `Log` on that record. `clientError`: no HTTP client could be made. */
    method PlaceOrder(details: R.Details, taskId: string, period: string, amount: Option<real>, taskType: string,
                      clientError: bool, attempts: nat -> Attempt, clock: nat -> R.Time, now: R.Time)
      returns (err: Option<Failure>, sends: nat, patches: seq<R.Patch>)
      modifies recorder
      ensures recorder.View() ==
              Patched(R.Begin(old(recorder.View()), OrderFields(details, taskId, period, amount), now),
                      old(recorder.last) + 1, patches, clock)
      ensures sends <= MAX_SENDS && (sends == 0 <==> clientError)
      ensures forall k | 0 <= k < sends - 1 :: Classify(taskType, attempts(k).reply) == Retryable
      ensures forall k | 1 <= k < sends :: !attempts(k).ctxDone
      ensures if clientError then err == Some(ClientError) else Ends(taskType, attempts, sends, err)
      ensures patches == Log(taskType, attempts, sends, err)
    {
      hide Ends, Classify, R.Update, Patched;
      var id := recorder.Begin(OrderFields(details, taskId, period, amount), now);
      ghost var start := recorder.View();
      NothingPatched(start, id, clock);
      if clientError {
        err, sends, patches := Some(ClientError), 0, [];
      } else {
        err, sends, patches := SendLoop(id, taskType, attempts, clock, start);
      }
      var failure := if err == None then None else Some(ErrorText(err.value));
      patches := Note(id, R.Finish(failure), clock, start, patches);
    }
  }

  function Outcome(v: Verdict, sawRetryable: bool): Option<Failure> {
    match v
    case Accepted => None
    case Limit => Some(OrderLimitReached)
    case Unavailable => Some(AccountUnavailable)
    case Rejected => Some(Refused)
    case Unsent(deadline) => Some(if sawRetryable && deadline then RetryExhausted else HttpError)
    case Retryable => None
  }

  lemma EndsAt(taskType: string, attempts: nat -> Attempt, sends: nat, err: Option<Failure>)
    requires sends >= 1 && Classify(taskType, attempts(sends - 1).reply) != Retryable
    requires err == Outcome(Classify(taskType, attempts(sends - 1).reply), sends > 1)
    ensures Ends(taskType, attempts, sends, err)
  {
  }

  lemma EndsRetrying(taskType: string, attempts: nat -> Attempt, sends: nat)
    requires sends >= 1 && Classify(taskType, attempts(sends - 1).reply) == Retryable
    requires sends == MAX_SENDS || attempts(sends).ctxDone
    ensures Ends(taskType, attempts, sends, Some(RetryExhausted))
  {
  }

  lemma NothingPatched(s: R.Ring, id: int, clock: nat -> R.Time)
    ensures Patched(s, id, [], clock) == s
  {
  }

  // ErrRetryExhausted is only reported after a retryable response, and a nil error only for a last reply
  // that is a 2xx answer and, outside raw accounts, a business response that reports success; so a
  // fallback account is never used for an order whose acceptance was answered.
  lemma ErrorMeaning(taskType: string, attempts: nat -> Attempt, sends: nat, err: Option<Failure>)
    requires 1 <= sends && Ends(taskType, attempts, sends, err)
    requires forall k | 0 <= k < sends - 1 :: Classify(taskType, attempts(k).reply) == Retryable
    ensures err == None <==> Classify(taskType, attempts(sends - 1).reply) == Accepted
    ensures err == None ==>
      var reply := attempts(sends - 1).reply;
      && reply.Http? && 200 <= reply.status < 300
      && (if reply.biz.Some? then IsSuccess(reply.biz.value) else taskType == "raw")
    ensures err == Some(RetryExhausted) ==>
              exists k :: 0 <= k < sends && Classify(taskType, attempts(k).reply) == Retryable
    ensures err != None ==> forall k | 0 <= k < sends :: Classify(taskType, attempts(k).reply) != Accepted
  {
    AcceptedMeans(taskType, attempts(sends - 1).reply);
    hide Classify, IsSuccess, IsRetryable;
    if err == Some(RetryExhausted) && Classify(taskType, attempts(sends - 1).reply) != Retryable {
      assert Classify(taskType, attempts(0).reply) == Retryable;
    }
  }

  /* ---- What the platforms' answers lead to ---- */

  const HIBT_RETRY_TEXTS := {
    "最多允许持有", "持仓数量限制", "holding limit", "请勿重复操作", "重复操作", "duplicate operation"}

  // An answer that does not wish to be asked again.
  predicate Final(taskType: string, b: BizResponse) {
    b.errno != "1021110" &&
    (taskType == "hibt" ==> forall t | t in HIBT_RETRY_TEXTS :: !Contains(ToLower(TrimSpace(b.message)), t))
  }

  lemma FinalIsNotRetryable(taskType: string, b: BizResponse)
    ensures IsRetryable(taskType, b) <==> !Final(taskType, b)
  {
    hide TrimSpace, ToLower, Contains;
  }

  // An answer of that kind that does not report success.
  predicate PlainRefusal(taskType: string, b: BizResponse) {
    && Final(taskType, b) && b.errno != "200"
    && !b.ok && !b.success && !EqualFold(TrimSpace(b.msg), "success")
  }

  // How an order ends, read off the last reply as it came: the order limit and the two dead-account
  // codes each have their error, TurboFlow's code for orders sent too often uses up all eleven sends
  // unless the context ends before, and only a business response is believed outside raw accounts.
  lemma ErrorFromReply(taskType: string, attempts: nat -> Attempt, sends: nat, err: Option<Failure>)
    requires sends >= 1 && Ends(taskType, attempts, sends, err)
    ensures var reply := attempts(sends - 1).reply;
      match reply
      case NetError(deadline) => err == Some(if deadline && sends >= 2 then RetryExhausted else HttpError)
      case Http(status, None) =>
        err == if 200 <= status <= 299 && taskType == "raw" then None else Some(Refused)
      case Http(status, Some(b)) =>
        && (200 <= status <= 299 && b.code == "93420018" ==> err == Some(OrderLimitReached))
        && (b.code in {"100002001", "93420004"} && (!(200 <= status <= 299) || PlainRefusal(taskType, b)) ==>
              err == Some(AccountUnavailable))
        && (!(200 <= status <= 299) && b.code !in {"100002001", "93420004"} ==> err == Some(Refused))
        && (200 <= status <= 299 && b.code != "93420018" && !Final(taskType, b) ==>
              err == Some(RetryExhausted) && (sends == 11 || attempts(sends).ctxDone))
        && (200 <= status <= 299 && b.code != "93420018" && Final(taskType, b) && b.ok ==>
              (err == None <==> b.queued != Some(false) || b.duplicate == Some(true)))
        && (200 <= status <= 299 && b.code != "93420018" && Final(taskType, b) && !b.ok ==>
              (b.code == "000000" || b.success || b.errno == "200" || EqualFold(TrimSpace(b.msg), "success") ==>
                 err == None))
        && (200 <= status <= 299 && PlainRefusal(taskType, b) ==>
              (b.code !in {"000000", "93420018", "100002001", "93420004"} ==> err == Some(Refused)))
  {
    var reply := attempts(sends - 1).reply;
    if reply.Http? && reply.biz.Some? {
      FinalIsNotRetryable(taskType, reply.biz.value);
    }
    hide IsRetryable, Final, TrimSpace, EqualFold;
  }

  // A HiBT answer that contains one of these texts, in whatever case and surroundings, asks for a retry.
  lemma HibtAsksAgain(b: BizResponse, before: string, part: string, after: string)
    requires ToLower(part) in HIBT_RETRY_TEXTS && b.message == before + part + after
    ensures IsRetryable("hibt", b)
  {
    PartHasEnds(part);
    hide IsSpace, LowerChar;
    ContainsPart(before, part, after);
  }

  lemma PartHasEnds(part: string)
    requires ToLower(part) in HIBT_RETRY_TEXTS
    ensures part != "" && !IsSpace(part[0]) && !IsSpace(part[|part| - 1])
  {
    var text := ToLower(part);
    assert |text| == |part| && |text| > 0;
    assert text[0] == LowerChar(part[0]) && text[|part| - 1] == LowerChar(part[|part| - 1]);
    assert !IsSpace(text[0]) && !IsSpace(text[|part| - 1]);
  }

  // On the table itself, from the creation of the record on: whatever other orders, evictions and
  // settlements happen in between, once all updates of the order are made its record, if still there,
  // shows the number of sends, and success exactly if the last reply was accepted.
  lemma RecordShowsOutcome(t: Runs.Table, details: R.Details, taskId: string, period: string, amount: Option<real>,
                           now: R.Time, acts: seq<Runs.Action>,
                           taskType: string, attempts: nat -> Attempt, sends: nat, err: Option<Failure>)
    requires Runs.Inv(t)
    requires Runs.Runs(Runs.Apply(t, Runs.Begin(OrderFields(details, taskId, period, amount), now)), acts)
    requires Runs.PatchesOf(acts, t.ring.last + 1) == Log(taskType, attempts, sends, err)
    requires if sends == 0 then err == Some(ClientError) else Ends(taskType, attempts, sends, err)
    ensures var u := Runs.Apply(t, Runs.Begin(OrderFields(details, taskId, period, amount), now));
            var accepted := sends > 0 && Classify(taskType, attempts(sends - 1).reply) == Accepted;
            forall r | r in Runs.Exec(u, acts).ring.recs && r.id == t.ring.last + 1 ::
              r.attempts == sends && r.status == if accepted then R.Success else R.Failed
  {
    hide Classify, Log, Runs.Apply;
    var fields := OrderFields(details, taskId, period, amount);
    Runs.BeginShows(t, fields, now);
    ShownLog(taskType, attempts, sends, err);
    var u := Runs.Apply(t, Runs.Begin(fields, now));
    Runs.RecordFollowsItsUpdates(u, acts, t.ring.last + 1, Runs.Progress(R.Pending, 0));
  }

  // Until then, while the order waits for its next send, the record says so and counts the sends so far.
  lemma RecordShowsRetrying(t: Runs.Table, fields: R.Record, now: R.Time, acts: seq<Runs.Action>,
                            taskType: string, attempts: nat -> Attempt, sends: nat)
    requires Runs.Inv(t) && Runs.Runs(Runs.Apply(t, Runs.Begin(fields, now)), acts) && fields.attempts == 0
    requires Runs.PatchesOf(acts, t.ring.last + 1) == SendPatches(taskType, attempts, sends)
    requires sends > 0 && Classify(taskType, attempts(sends - 1).reply) == Retryable
    ensures var u := Runs.Apply(t, Runs.Begin(fields, now));
            forall r | r in Runs.Exec(u, acts).ring.recs && r.id == t.ring.last + 1 ::
              r.status == R.Retrying && r.attempts == sends
  {
    hide Classify, SendPatches, Runs.Apply;
    Runs.BeginShows(t, fields, now);
    ShownSends(taskType, attempts, sends);
    var u := Runs.Apply(t, Runs.Begin(fields, now));
    Runs.RecordFollowsItsUpdates(u, acts, t.ring.last + 1, Runs.Progress(R.Pending, 0));
  }

  lemma LastOfAppend(ps: seq<R.Patch>, qs: seq<R.Patch>, http: int, code: string, message: string, error: string)
    ensures Runs.LastHttpStatus(ps + qs, http) == Runs.LastHttpStatus(qs, Runs.LastHttpStatus(ps, http))
    ensures Runs.LastCode(ps + qs, code) == Runs.LastCode(qs, Runs.LastCode(ps, code))
    ensures Runs.LastMessage(ps + qs, message) == Runs.LastMessage(qs, Runs.LastMessage(ps, message))
    ensures Runs.LastError(ps + qs, error) == Runs.LastError(qs, Runs.LastError(ps, error))
    decreases |qs|
  {
    if qs == [] {
      assert ps + qs == ps;
    } else {
      var n := |qs| - 1;
      LastOfAppend(ps, qs[..n], http, code, message, error);
      assert (ps + qs)[..|ps| + n] == ps + qs[..n];
    }
  }

  lemma LastOfOne(p: R.Patch, http: int, code: string, message: string, error: string)
    ensures Runs.LastHttpStatus([p], http) == match p case SetHttpStatus(n) => n case _ => http
    ensures Runs.LastCode([p], code) == match p case SetReply(c, _) => c case _ => code
    ensures Runs.LastMessage([p], message) == match p case SetReply(_, m) => m case _ => message
    ensures Runs.LastError([p], error) == match p case Finish(Some(e)) => e case _ => error
  {
    assert [p][..0] == [];
  }

  lemma LastOfNone(http: int, code: string, message: string, error: string)
    ensures Runs.LastHttpStatus([], http) == http && Runs.LastCode([], code) == code
    ensures Runs.LastMessage([], message) == message && Runs.LastError([], error) == error
  {
  }

  // The fields a reply leaves, whatever they were.
  lemma LastOfReply(taskType: string, status: int, b: BizResponse,
                    http: int, code: string, message: string, error: string)
    ensures var ps := ReplyPatches(taskType, Http(status, Some(b)));
            && Runs.LastHttpStatus(ps, http) == status && Runs.LastCode(ps, code) == b.code
            && Runs.LastMessage(ps, message) == (if b.msg == "" then b.message else b.msg)
            && Runs.LastError(ps, error) == error
  {
    hide Classify, Runs.LastHttpStatus, Runs.LastCode, Runs.LastMessage, Runs.LastError;
    var text := if b.msg == "" then b.message else b.msg;
    var first, second := R.SetHttpStatus(status), R.SetReply(b.code, text);
    var more := if Classify(taskType, Http(status, Some(b))) == Retryable then [R.SetRetrying] else [];
    assert ReplyPatches(taskType, Http(status, Some(b))) == [first] + [second] + more;
    LastOfOne(first, http, code, message, error);
    LastOfOne(second, status, code, message, error);
    LastOfAppend([first], [second], http, code, message, error);
    LastOfAppend([first] + [second], more, http, code, message, error);
    LastOfOne(R.SetRetrying, status, b.code, text, error);
    LastOfNone(status, b.code, text, error);
  }

  lemma {:induction false} SendsSetNoError(taskType: string, attempts: nat -> Attempt, sends: nat, error: string)
    ensures Runs.LastError(SendPatches(taskType, attempts, sends), error) == error
  {
    hide ReplyPatches, Runs.LastError;
    if sends == 0 {
      LastOfNone(0, "", "", error);
    } else {
      var before := SendPatches(taskType, attempts, sends - 1);
      var ps := ReplyPatches(taskType, attempts(sends - 1).reply);
      SendsSetNoError(taskType, attempts, sends - 1, error);
      LastOfOne(R.SetAttempts(sends), 0, "", "", error);
      LastOfAppend(before, [R.SetAttempts(sends)], 0, "", "", error);
      LastOfAppend(before + [R.SetAttempts(sends)], ps, 0, "", "", error);
      NoErrorInReply(taskType, attempts(sends - 1).reply, error);
    }
  }

  lemma NoErrorInReply(taskType: string, reply: Reply, error: string)
    ensures Runs.LastError(ReplyPatches(taskType, reply), error) == error
  {
    hide Classify, Runs.LastError;
    match reply
    case NetError(_) => LastOfNone(0, "", "", error);
    case Http(status, Some(b)) => LastOfReply(taskType, status, b, 0, "", "", error);
    case Http(status, None) =>
      var more := if Classify(taskType, reply) == Retryable then [R.SetRetrying] else [];
      assert ReplyPatches(taskType, reply) == [R.SetHttpStatus(status)] + more;
      LastOfOne(R.SetHttpStatus(status), 0, "", "", error);
      LastOfAppend([R.SetHttpStatus(status)], more, 0, "", "", error);
      LastOfOne(R.SetRetrying, 0, "", "", error);
      LastOfNone(0, "", "", error);
  }

  // What an order's updates leave in the record's answer fields: the last reply's own, and an error
  // exactly when it failed.
  lemma LastOfLog(taskType: string, attempts: nat -> Attempt, sends: nat, err: Option<Failure>)
    ensures Runs.LastError(Log(taskType, attempts, sends, err), "") ==
            if err == None then "" else ErrorText(err.value)
    ensures sends > 0 && attempts(sends - 1).reply.Http? && attempts(sends - 1).reply.biz.Some? ==>
      var reply := attempts(sends - 1).reply; var b := reply.biz.value; var log := Log(taskType, attempts, sends, err);
      && Runs.LastHttpStatus(log, 0) == reply.status && Runs.LastCode(log, "") == b.code
      && Runs.LastMessage(log, "") == (if b.msg == "" then b.message else b.msg)
  {
    hide Classify, ReplyPatches, Runs.LastHttpStatus, Runs.LastCode, Runs.LastMessage, Runs.LastError;
    var last := R.Finish(if err == None then None else Some(ErrorText(err.value)));
    var all := SendPatches(taskType, attempts, sends);
    LastOfAppend(all, [last], 0, "", "", "");
    LastOfOne(last, Runs.LastHttpStatus(all, 0), Runs.LastCode(all, ""), Runs.LastMessage(all, ""), "");
    SendsSetNoError(taskType, attempts, sends, "");
    if sends > 0 && attempts(sends - 1).reply.Http? && attempts(sends - 1).reply.biz.Some? {
      var reply := attempts(sends - 1).reply;
      var before := SendPatches(taskType, attempts, sends - 1) + [R.SetAttempts(sends)];
      LastOfAppend(before, ReplyPatches(taskType, reply), 0, "", "", "");
      LastOfReply(taskType, reply.status, reply.biz.value, Runs.LastHttpStatus(before, 0), Runs.LastCode(before, ""),
                  Runs.LastMessage(before, ""), "");
    }
  }

  // The record of a finished order, if it is still in the table: the order's own account, amount, period
  // and time, the last business answer as it came, and an error exactly if the order failed.
  lemma RecordShowsOrderAndAnswer(t: Runs.Table, details: R.Details, taskId: string, period: string,
                                  amount: Option<real>, now: R.Time, acts: seq<Runs.Action>,
                                  taskType: string, attempts: nat -> Attempt, sends: nat, err: Option<Failure>,
                                  r: R.Record)
    requires Runs.Inv(t)
    requires Runs.Runs(Runs.Apply(t, Runs.Begin(OrderFields(details, taskId, period, amount), now)), acts)
    requires Runs.PatchesOf(acts, t.ring.last + 1) == Log(taskType, attempts, sends, err)
    requires r.id == t.ring.last + 1
    requires var u := Runs.Apply(t, Runs.Begin(OrderFields(details, taskId, period, amount), now));
             r in Runs.Exec(u, acts).ring.recs
    ensures r.taskId == taskId && r.amount == amount && r.period == period && r.time == now && r.details == details
    ensures r.error == "" <==> err == None
    ensures sends > 0 && attempts(sends - 1).reply.Http? && attempts(sends - 1).reply.biz.Some? ==>
      var reply := attempts(sends - 1).reply; var b := reply.biz.value;
      r.httpStatus == reply.status && r.code == b.code && r.message == if b.msg == "" then b.message else b.msg
  {
    hide Log, Runs.Apply, Runs.Exec, Runs.Runs, Runs.PatchesOf, Runs.Inv;
    var fields := OrderFields(details, taskId, period, amount);
    var u := Runs.Apply(t, Runs.Begin(fields, now));
    Runs.RecordKeepsItsOrder(t, fields, now, acts);
    Runs.BeginAnswered(t, fields, now);
    Runs.RecordShowsLastAnswer(u, acts, t.ring.last + 1, 0, "", "", "", now);
    LastOfLog(taskType, attempts, sends, err);
    NonEmptyErrors(err);
  }

  lemma NonEmptyErrors(err: Option<Failure>)
    ensures err.Some? ==> ErrorText(err.value) != ""
  {
  }
}
