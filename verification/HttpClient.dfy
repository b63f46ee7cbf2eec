/**
  The resilient fetcher: every attempt takes one token, passes the breaker, is classified, and is
  retried up to four times.  A request is any reply the network may give.
*/
module HttpClient {
  import opened Prelude
  import CB = CircuitBreaker
  import RL = RateLimiter

  /** What `AsyncClient.get` does. */
  datatype Reply = Response(status: int) | TransportError | OtherError

  /** How an attempt ends: a result or the exception that leaves `fetch`. */
  datatype Outcome =
    | Fetched(status: int)
    | RateLimited
    | AuthFailed
    | Unavailable
    | Permanent
    | BreakerOpen
    | BreakerAssertion
    | Unexpected

  function Classify(status: int): Outcome
  {
    if status == 429 then RateLimited
    else if status == 401 || status == 403 then AuthFailed
    else if status >= 500 then Unavailable
    else if status >= 400 then Permanent
    else Fetched(status)
  }

  function End(gate: CB.GateResult, reply: Reply): Outcome
  {
    match gate
    case Rejected => BreakerOpen
    case AssertionFailed => BreakerAssertion
    case Admitted =>
      match reply
      case Response(status) => Classify(status)
      case TransportError => Unavailable
      case OtherError => Unexpected
  }

  /** `BreakerOpen` is a plain `TransientError`, which the retry policy does not name. */
  predicate Retryable(o: Outcome)
  {
    o.Unavailable? || o.RateLimited?
  }

  const MAX_ATTEMPTS: nat := 4

  /** Seconds waited after the k-th attempt: half a second, doubled each time, at most 8. */
  function Backoff(k: nat): real
  {
    if k <= 1 then 0.5 else if 2.0 * Backoff(k - 1) <= 8.0 then 2.0 * Backoff(k - 1) else 8.0
  }

  // ---------- the retry loop, whatever other callers do to bucket and breaker ----------

  /** What an attempt meets at the gate and on the network; other callers may have moved either. */
  datatype Try = Try(gate: CB.GateResult, reply: Reply)

  /** The outcomes of the attempts made, when the i-th attempt would meet `tries[i]`. */
  function Retry(tries: seq<Try>): seq<Outcome>
  {
    if tries == [] then []
    else
      var o := End(tries[0].gate, tries[0].reply);
      if Retryable(o) then [o] + Retry(tries[1..]) else [o]
  }

  /** The replies after which an admitted attempt is retried. */
  predicate Transient(r: Reply)
  {
    r.TransportError? || (r.Response? && (r.status == 429 || r.status >= 500))
  }

  /** The gate let the attempt through and the server answered with a status from `lo` up to but not `hi`. */
  predicate Answered(t: Try, lo: int, hi: int)
  {
    t.gate.Admitted? && t.reply.Response? && lo <= t.reply.status < hi
  }

  /** What `fetch` makes of an attempt, outcome by outcome: each one exactly for the tries listed. */
  predicate EndsAs(t: Try, o: Outcome)
  {
    && (o.Fetched? <==> t.gate.Admitted? && t.reply.Response? && t.reply.status < 400)
    && (o.Fetched? ==> t.reply.Response? && o.status == t.reply.status)
    && (o.RateLimited? <==> Answered(t, 429, 430))
    && (o.AuthFailed? <==> Answered(t, 401, 402) || Answered(t, 403, 404))
    && (o.Permanent? <==> Answered(t, 400, 500) && t.reply.status !in [401, 403, 429])
    && (o.Unavailable? <==>
          t.gate.Admitted? && (t.reply.TransportError? || (t.reply.Response? && t.reply.status >= 500)))
    && (o.Unexpected? <==> t.gate.Admitted? && t.reply.OtherError?)
    && (o.BreakerOpen? <==> t.gate.Rejected?)
    && (o.BreakerAssertion? <==> t.gate.AssertionFailed?)
  }

  lemma EndRetried(t: Try)
    ensures Retryable(End(t.gate, t.reply)) <==> t.gate.Admitted? && Transient(t.reply)
  {
  }

  lemma EndIsTold(t: Try)
    ensures EndsAs(t, End(t.gate, t.reply))
  {
  }

  /**
    Every outcome is that of what its attempt met; all but the last attempt met a transient reply; the loop stops
    early only at an outcome that is not retried.
  */
  lemma {:induction false} RetryDiscipline(tries: seq<Try>)
    requires tries != []
    ensures var os := Retry(tries);
            && 1 <= |os| <= |tries|
            && (forall i :: 0 <= i < |os| ==> EndsAs(tries[i], os[i]))
            && (forall i :: 0 <= i < |os| - 1 ==> tries[i].gate.Admitted? && Transient(tries[i].reply))
            && (|os| < |tries| ==> !tries[|os| - 1].gate.Admitted? || !Transient(tries[|os| - 1].reply))
            && (forall i :: 0 <= i < |os| && !tries[i].gate.Admitted? ==> i == |os| - 1)
  {
    hide EndsAs, End;
    EndIsTold(tries[0]);
    EndRetried(tries[0]);
    if Retryable(End(tries[0].gate, tries[0].reply)) && |tries| > 1 {
      RetryDiscipline(tries[1..]);
    }
  }

  // ---------- one caller with exact sleeps ----------

  datatype Config = Config(rate: RL.Params, breaker: CB.Config)

  /** `ResilientHTTPFetcher(rate_per_minute)`. */
  function ConfigFor(ratePerMinute: nat): Config
    requires ratePerMinute >= 1
  {
    Config(RL.PerMinute(ratePerMinute), CB.Config(5, 30.0))
  }

  datatype Client = Client(bucket: RL.Bucket, breaker: CB.Breaker, now: real)

  /** How late the sleep for a token ends, the reply of the request, and the time the request takes. */
  datatype Net = Net(oversleep: real, reply: Reply, took: real)

  datatype Attempt = Attempt(
    turn: real,
    granted: real,
    gate: CB.GateResult,
    reply: Reply,
    outcome: Outcome,
    after: Client)

  function EndingOf(r: Reply): CB.Ending
  {
    if r.Response? then CB.Returns else CB.Raises
  }

  function AttemptOnce(cfg: Config, c: Client, net: Net): Attempt
  {
    var granted := RL.TurnAt(cfg.rate, c.bucket, c.now, RL.Completes(net.oversleep)).Done();
    var gate := CB.Gate(cfg.breaker, c.breaker, granted).1;
    var done := if gate.Admitted? then granted + net.took else granted;
    Attempt(c.now, granted, gate, net.reply, End(gate, net.reply),
            Client(RL.Acquired(cfg.rate, c.bucket, c.now),
                   CB.CallAlone(cfg.breaker, c.breaker, granted, EndingOf(net.reply), done),
                   done))
  }

  /** The attempts of a fetch that has made `k - 1` attempts and may make `|nets|` more. */
  function Attempts(cfg: Config, c: Client, nets: seq<Net>, k: nat): seq<Attempt>
    decreases |nets|
  {
    if nets == [] then []
    else
      var a := AttemptOnce(cfg, c, nets[0]);
      if Retryable(a.outcome)
      then [a] + Attempts(cfg, a.after.(now := a.after.now + Backoff(k)), nets[1..], k + 1)
      else [a]
  }

  lemma AttemptsUnfold(cfg: Config, c: Client, nets: seq<Net>, k: nat)
    requires 1 <= k <= |nets|
    ensures var a := AttemptOnce(cfg, c, nets[k - 1]);
            Attempts(cfg, c, nets[k - 1..], k) ==
            [a] + (if Retryable(a.outcome) && k < |nets|
                   then Attempts(cfg, a.after.(now := a.after.now + Backoff(k)), nets[k..], k + 1) else [])
  {
    hide AttemptOnce, Retryable, Backoff;
    assert nets[k - 1..][0] == nets[k - 1] && nets[k - 1..][1..] == nets[k..];
  }

  /** What `fetch` leaves behind: the state after its last attempt. */
  function Last(c: Client, log: seq<Attempt>): Client
  {
    if log == [] then c else log[|log| - 1].after
  }

  class ResilientHTTPFetcher {
    const bucket: RL.TokenBucket
    const breaker: CB.AsyncCircuitBreaker

    function Cfg(): Config
    {
      Config(bucket.params, breaker.cfg)
    }

    function At(now: real): Client
      reads bucket, breaker
    {
      Client(bucket.Fields(), breaker.Fields(), now)
    }

    constructor (ratePerMinute: nat, now: real)
      requires ratePerMinute >= 1
      ensures fresh(bucket) && fresh(breaker) && Cfg() == ConfigFor(ratePerMinute)
      ensures Cfg().rate == RL.Params(ratePerMinute as real, ratePerMinute as real / 60.0)
      ensures Cfg().breaker == CB.Config(5, 30.0)
      ensures At(now) == Fresh(ratePerMinute, now)
    {
      bucket := new RL.TokenBucket(ratePerMinute, now);
      breaker := new CB.AsyncCircuitBreaker(5, 30.0);
    }

    /** The body of `fetch`: one attempt. */
    method FetchOnce(now: real, net: Net) returns (a: Attempt)
      modifies bucket, breaker
      ensures a == AttemptOnce(Cfg(), old(At(now)), net)
      ensures At(a.after.now) == a.after
      ensures EndsAs(Try(a.gate, net.reply), a.outcome)
    {
      var grant := bucket.Acquire(now, RL.Completes(net.oversleep));
      var granted := grant.Done();
      var gate := breaker.Enter(granted);
      var done := granted;
      if gate.Admitted? {
        done := granted + net.took;
        if net.reply.Response? {
          breaker.ReportSuccess();
        } else {
          breaker.ReportFailure(done);
        }
      }
      a := Attempt(now, granted, gate, net.reply, End(gate, net.reply), At(done));
    }

    /** `fetch` under its retry decorator; `nets[i]` is what the network does to the i-th request. */
    method Fetch(now: real, nets: seq<Net>) returns (log: seq<Attempt>)
      requires |nets| == MAX_ATTEMPTS
      modifies bucket, breaker
      ensures log == Attempts(Cfg(), old(At(now)), nets, 1) && 1 <= |log| <= 4
      ensures forall i :: 0 <= i < |log| ==> EndsAs(Try(log[i].gate, nets[i].reply), log[i].outcome)
      ensures At(Last(old(At(now)), log).now) == Last(old(At(now)), log)
    {
      hide AttemptOnce, Attempts, Retryable, Backoff, EndsAs;
      log := [];
      var clock, k := now, 1;
      assert nets[0..] == nets;
      while true
        invariant 1 <= k <= |nets| && |log| == k - 1
        invariant forall i :: 0 <= i < |log| ==> EndsAs(Try(log[i].gate, nets[i].reply), log[i].outcome)
        invariant Attempts(Cfg(), old(At(now)), nets, 1) == log + Attempts(Cfg(), At(clock), nets[k - 1..], k)
        decreases |nets| - k
      {
        AttemptsUnfold(Cfg(), At(clock), nets, k);
        var a := FetchOnce(clock, nets[k - 1]);
        ghost var before := log;
        log := log + [a];
        if !Retryable(a.outcome) || k == |nets| {
          assert log + [] == log;
          return;
        }
        clock := a.after.now + Backoff(k);
        assert At(clock) == a.after.(now := clock);
        assert before + ([a] + Attempts(Cfg(), At(clock), nets[k..], k + 1)) ==
               log + Attempts(Cfg(), At(clock), nets[k..], k + 1);
        k := k + 1;
      }
    }
  }

  function Fresh(ratePerMinute: nat, now: real): Client
    requires ratePerMinute >= 1
  {
    Client(RL.Bucket(ratePerMinute as real, now), CB.INITIAL, now)
  }

  function Tries(log: seq<Attempt>): seq<Try>
  {
    seq(|log|, i requires 0 <= i < |log| => Try(log[i].gate, log[i].reply))
  }

  function Grants(log: seq<Attempt>): seq<RL.Turn>
  {
    seq(|log|, i requires 0 <= i < |log| => RL.Turn(log[i].turn, log[i].granted - log[i].turn, true))
  }

  lemma AttemptShape(cfg: Config, c: Client, net: Net)
    ensures var a := AttemptOnce(cfg, c, net);
            a.turn == c.now && a.reply == net.reply && a.outcome == End(a.gate, a.reply)
  {
  }

  /** The single caller's attempts follow the retry loop, so `RetryDiscipline` holds of them. */
  lemma {:induction false} AttemptsFollowRetry(cfg: Config, c: Client, nets: seq<Net>, k: nat)
    ensures var log := Attempts(cfg, c, nets, k);
            && |log| <= |nets|
            && (forall i :: 0 <= i < |log| ==> log[i].reply == nets[i].reply)
            && (forall i :: 0 <= i < |log| ==> EndsAs(Try(log[i].gate, nets[i].reply), log[i].outcome))
            && (|log| < |nets| ==> log != [] && !Retryable(log[|log| - 1].outcome))
            && Retry(Tries(log)) == seq(|log|, i requires 0 <= i < |log| => log[i].outcome)
    decreases |nets|
  {
    hide AttemptOnce, Retryable, Backoff, End, EndsAs;
    if nets != [] {
      AttemptShape(cfg, c, nets[0]);
      EndIsTold(Try(AttemptOnce(cfg, c, nets[0]).gate, nets[0].reply));
      var a := AttemptOnce(cfg, c, nets[0]);
      var log := Attempts(cfg, c, nets, k);
      if Retryable(a.outcome) {
        AttemptsFollowRetry(cfg, a.after.(now := a.after.now + Backoff(k)), nets[1..], k + 1);
      }
      assert Tries(log)[1..] == Tries(log[1..]);
    }
  }

  lemma BackoffPositive(k: nat)
    ensures 0.5 <= Backoff(k) <= 8.0
  {
  }

  /** The waits between the four attempts of a fetch. */
  lemma Waits()
    ensures MAX_ATTEMPTS == 4 && Backoff(1) == 0.5 && Backoff(2) == 1.0 && Backoff(3) == 2.0
  {
  }

  /** A retry comes half a second, one and two seconds after the attempt before it is over. */
  lemma RetriesComeAfter(cfg: Config, c: Client, nets: seq<Net>)
    requires |nets| == MAX_ATTEMPTS
    ensures var log := Attempts(cfg, c, nets, 1);
            && |log| <= 4
            && (|log| > 1 ==> log[1].turn == log[0].after.now + 0.5)
            && (|log| > 2 ==> log[2].turn == log[1].after.now + 1.0)
            && (|log| > 3 ==> log[3].turn == log[2].after.now + 2.0)
  {
    hide Attempts, Backoff;
    Waits();
    TurnsAfterPauses(cfg, c, nets, 1);
  }

  lemma {:induction false} TurnsAfterPauses(cfg: Config, c: Client, nets: seq<Net>, k: nat)
    ensures var log := Attempts(cfg, c, nets, k);
            && |log| <= |nets|
            && (log != [] ==> log[0].turn == c.now)
            && (forall i :: 0 <= i < |log| - 1 ==> log[i + 1].turn == log[i].after.now + Backoff(k + i))
    decreases |nets|
  {
    hide AttemptOnce, Retryable, Backoff;
    if nets != [] {
      AttemptShape(cfg, c, nets[0]);
      var a := AttemptOnce(cfg, c, nets[0]);
      if Retryable(a.outcome) {
        TurnsAfterPauses(cfg, a.after.(now := a.after.now + Backoff(k)), nets[1..], k + 1);
      }
    }
  }

  /** What one caller finds between its attempts. */
  ghost predicate Sane(cfg: Config, c: Client)
  {
    && RL.Inv(cfg.rate, c.bucket, c.now)
    && (c.breaker.state.Closed? <==> c.breaker.openedAt.None?)
    && (c.breaker.openedAt.Some? ==> c.breaker.openedAt.value <= c.now)
  }

  predicate Timed(nets: seq<Net>)
  {
    forall i :: 0 <= i < |nets| ==> nets[i].took >= 0.0 && nets[i].oversleep >= 0.0
  }

  predicate ExactSleeps(nets: seq<Net>)
  {
    forall i :: 0 <= i < |nets| ==> nets[i].oversleep == 0.0
  }

  lemma AttemptKeepsSane(cfg: Config, c: Client, net: Net)
    requires Sane(cfg, c) && net.took >= 0.0 && net.oversleep >= 0.0
    ensures var a := AttemptOnce(cfg, c, net);
            && Sane(cfg, a.after) && c.now == a.turn <= a.granted <= a.after.now
            && a.after.bucket == RL.Acquired(cfg.rate, c.bucket, c.now)
            && !a.gate.AssertionFailed? && !a.outcome.BreakerAssertion?
            && RL.IsTurn(cfg.rate, c.bucket, c.now, RL.Turn(a.turn, a.granted - a.turn, true))
            && (a.gate.Admitted? && a.after.breaker.state.Open? ==> a.after.breaker.openedAt == Some(a.after.now))
  {
    hide RL.Avail, RL.TimeFor;
    var turn := RL.TurnAt(cfg.rate, c.bucket, c.now, RL.Completes(net.oversleep));
    RL.TurnKeepsInv(cfg.rate, c.bucket, c.now, turn);
  }

  /** Every attempt takes exactly one grant from the bucket, in order, and nothing else does. */
  lemma {:induction false} OneGrantPerAttempt(cfg: Config, c: Client, nets: seq<Net>, k: nat)
    requires Sane(cfg, c) && Timed(nets)
    ensures var log := Attempts(cfg, c, nets, k);
            && RL.IsRun(cfg.rate, c.bucket, c.now, Grants(log))
            && RL.After(cfg.rate, c.bucket, c.now, Grants(log)).0 == Last(c, log).bucket
            && Sane(cfg, Last(c, log))
            && forall i :: 0 <= i < |log| ==> !log[i].outcome.BreakerAssertion?
    decreases |nets|
  {
    hide AttemptOnce, RL.Acquired, RL.IsTurn;
    if nets != [] {
      var a := AttemptOnce(cfg, c, nets[0]);
      AttemptKeepsSane(cfg, c, nets[0]);
      var log := Attempts(cfg, c, nets, k);
      if Retryable(a.outcome) {
        BackoffPositive(k);
        var c' := a.after.(now := a.after.now + Backoff(k));
        OneGrantPerAttempt(cfg, c', nets[1..], k + 1);
        FreeEarlier(cfg.rate, c'.bucket, a.granted, c'.now, Grants(log[1..]));
      }
      assert Grants(log)[1..] == Grants(log[1..]);
      assert Grants(log)[0].Done() == a.granted;
    }
  }

  /** Waiting before the next turn does not change what a run of grants is. */
  lemma FreeEarlier(p: RL.Params, b: RL.Bucket, free: real, later: real, gs: seq<RL.Turn>)
    requires free <= later && RL.IsRun(p, b, later, gs)
    ensures RL.IsRun(p, b, free, gs)
    ensures RL.After(p, b, free, gs).0 == RL.After(p, b, later, gs).0
  {
  }

  // ---------- no request once the breaker has opened ----------

  /** After the attempt that leaves the breaker OPEN, no later attempt of the fetch reaches the network. */
  predicate Quiet(log: seq<Attempt>)
  {
    forall i, j :: 0 <= i < j < |log| && log[i].after.breaker.state.Open? ==> !log[j].gate.Admitted?
  }

  /** Wait and sleep overlap: from one attempt to the next grant at most the longer of pause and interval goes by. */
  lemma GapBound(p: RL.Params, b: RL.Bucket, done: real, pause: real)
    requires RL.Inv(p, b, done) && pause >= 0.0
    ensures var gap := pause + RL.SleepFor(p, b, done + pause);
            gap == pause || gap <= RL.TimeFor(p, 1.0)
  {
    hide RL.Refilled, RL.TimeFor;
    var refilled := RL.Refilled(p, pause);
    var missing := 1.0 - RL.Avail(p, b, done + pause);
    if missing > 0.0 {
      RL.RefilledMono(p, pause, done + pause - b.last);
      // The pause refills its own worth, so sleep and pause together refill at most one token.
      RL.TimeForInverse(p, 1.0 - refilled - missing);
      RL.TimeForAdd(p, 1.0 - refilled - missing, missing);
      RL.TimeForAdd(p, 1.0 - refilled, refilled);
      TimeOfRefill(p, pause);
      assert 1.0 - refilled - missing + missing == 1.0 - refilled && 1.0 - refilled + refilled == 1.0;
    }
  }

  lemma TimeOfRefill(p: RL.Params, d: real)
    ensures RL.TimeFor(p, RL.Refilled(p, d)) == d
  {
  }

  lemma IntervalBelowTimeout(rate: nat)
    requires rate >= 3
    ensures RL.TimeFor(RL.PerMinute(rate), 1.0) < 30.0
  {
    var x := rate as real / 60.0;
    assert x >= 0.05;
  }

  lemma NextAttemptRejected(rate: nat, a: Client, k: nat, net: Net)
    requires rate >= 3 && 1 <= k <= 3 && Sane(ConfigFor(rate), a)
    requires a.breaker.state.Open? && a.breaker.openedAt == Some(a.now) && net.oversleep == 0.0
    ensures AttemptOnce(ConfigFor(rate), a.(now := a.now + Backoff(k)), net).gate.Rejected?
  {
    hide RL.Avail, RL.SleepFor, RL.TimeFor;
    BackoffPositive(k);
    GapBound(RL.PerMinute(rate), a.bucket, a.now, Backoff(k));
    IntervalBelowTimeout(rate);
  }

  lemma {:induction false} QuietFrom3(rate: nat, c: Client, nets: seq<Net>, k: nat)
    requires rate >= 3 && 1 <= k && k + |nets| <= 5
    requires Sane(ConfigFor(rate), c) && Timed(nets) && ExactSleeps(nets)
    ensures Quiet(Attempts(ConfigFor(rate), c, nets, k))
    decreases |nets|
  {
    hide AttemptOnce, Retryable, End, Backoff, Sane, RL.Acquired;
    var cfg := ConfigFor(rate);
    if nets != [] {
      var a := AttemptOnce(cfg, c, nets[0]);
      AttemptKeepsSane(cfg, c, nets[0]);
      AttemptShape(cfg, c, nets[0]);
      EndRetried(Try(a.gate, a.reply));
      if Retryable(a.outcome) && |nets| > 1 {
        BackoffPositive(k);
        var c' := a.after.(now := a.after.now + Backoff(k));
        SaneLater(cfg, a.after, Backoff(k));
        QuietFrom3(rate, c', nets[1..], k + 1);
        if a.after.breaker.state.Open? {
          NextAttemptRejected(rate, a.after, k, nets[1]);
          AttemptShape(cfg, c', nets[1]);
          EndRetried(Try(AttemptOnce(cfg, c', nets[1]).gate, nets[1].reply));
          assert Attempts(cfg, c', nets[1..], k + 1) == [AttemptOnce(cfg, c', nets[1])];
        }
      }
    }
  }

  lemma FirstTwoAttempts(cfg: Config, c: Client, nets: seq<Net>)
    requires |nets| >= 2 && Retryable(AttemptOnce(cfg, c, nets[0]).outcome)
    ensures var a := AttemptOnce(cfg, c, nets[0]);
            var log := Attempts(cfg, c, nets, 1);
            && |log| >= 2 && log[0] == a
            && log[1] == AttemptOnce(cfg, a.after.(now := a.after.now + 0.5), nets[1])
  {
    assert nets[1..][0] == nets[1] && Backoff(1) == 0.5;
  }

  // ---------- whole sessions of one caller ----------

  /** A fetch made `idle` seconds after the one before. */
  datatype Job = Job(idle: real, nets: seq<Net>)

  predicate IsJob(j: Job)
  {
    j.idle >= 0.0 && |j.nets| == MAX_ATTEMPTS && Timed(j.nets)
  }

  /** Every attempt of a session, fetch after fetch. */
  function Session(cfg: Config, c: Client, jobs: seq<Job>): seq<Attempt>
    decreases |jobs|
  {
    if jobs == [] then []
    else
      var c' := c.(now := c.now + jobs[0].idle);
      var log := Attempts(cfg, c', jobs[0].nets, 1);
      log + Session(cfg, Last(c', log), jobs[1..])
  }

  predicate AllJobs(jobs: seq<Job>)
  {
    forall i :: 0 <= i < |jobs| ==> IsJob(jobs[i])
  }

  predicate ExactJobs(jobs: seq<Job>)
  {
    forall i :: 0 <= i < |jobs| ==> IsJob(jobs[i]) && ExactSleeps(jobs[i].nets)
  }

  /** In no fetch of the session does a request follow the opening of the breaker. */
  predicate QuietSession(cfg: Config, c: Client, jobs: seq<Job>)
    decreases |jobs|
  {
    jobs == [] ||
    var c' := c.(now := c.now + jobs[0].idle);
    var log := Attempts(cfg, c', jobs[0].nets, 1);
    Quiet(log) && QuietSession(cfg, Last(c', log), jobs[1..])
  }

  lemma {:induction false} QuietSessionFrom3(rate: nat, c: Client, jobs: seq<Job>)
    requires rate >= 3 && Sane(ConfigFor(rate), c) && ExactJobs(jobs)
    ensures QuietSession(ConfigFor(rate), c, jobs)
    decreases |jobs|
  {
    hide Attempts, Quiet;
    if jobs != [] {
      assert IsJob(jobs[0]) && ExactSleeps(jobs[0].nets);
      var cfg, c' := ConfigFor(rate), c.(now := c.now + jobs[0].idle);
      OneGrantPerAttempt(cfg, c', jobs[0].nets, 1);
      QuietFrom3(rate, c', jobs[0].nets, 1);
      QuietSessionFrom3(rate, Last(c', Attempts(cfg, c', jobs[0].nets, 1)), jobs[1..]);
    }
  }

  const REFUSED := Net(0.0, TransportError, 0.0)

  function Refusals(n: nat): seq<Net>
  {
    if n == 0 then [] else [REFUSED] + Refusals(n - 1)
  }

  /** A refused request counts, and right after it a bucket of at most two tokens has at most one on hand. */
  lemma RefusedAttempt(rate: nat, c: Client)
    requires 1 <= rate < 3 && Sane(ConfigFor(rate), c) && c.breaker.state.Closed?
    ensures var a := AttemptOnce(ConfigFor(rate), c, REFUSED);
            && a.outcome.Unavailable? && a.after.now == a.granted
            && a.after.breaker == CB.OnFailure(ConfigFor(rate).breaker, c.breaker, a.granted)
            && Sane(ConfigFor(rate), a.after)
            && RL.Avail(RL.PerMinute(rate), a.after.bucket, a.after.now) <= 1.0
  {
    hide RL.Refilled, RL.TimeFor;
    var p := RL.PerMinute(rate);
    AttemptKeepsSane(ConfigFor(rate), c, REFUSED);
    RL.AvailBounds(p, c.bucket, c.now);
    if RL.Avail(p, c.bucket, c.now) < 1.0 {
      RL.SleptGrant(p, c.bucket, c.now);
    } else {
      RL.InstantGrant(p, c.bucket, c.now);
    }
  }

  lemma {:induction false} RefusedFetch(rate: nat, c: Client, n: nat, k: nat)
    requires 1 <= rate < 3 && 1 <= n && Sane(ConfigFor(rate), c)
    requires c.breaker.state.Closed? && c.breaker.failCount + n < 5
    ensures var last := Last(c, Attempts(ConfigFor(rate), c, Refusals(n), k));
            && last.breaker == CB.Breaker(CB.Closed, c.breaker.failCount + n, None)
            && Sane(ConfigFor(rate), last)
            && RL.Avail(RL.PerMinute(rate), last.bucket, last.now) <= 1.0
    decreases n
  {
    hide AttemptOnce, RL.Avail, Sane;
    var cfg, a := ConfigFor(rate), AttemptOnce(ConfigFor(rate), c, REFUSED);
    RefusedAttempt(rate, c);
    SaneFields(cfg, c);
    assert Refusals(n)[0] == REFUSED && Refusals(n)[1..] == Refusals(n - 1);
    if n > 1 {
      var c' := a.after.(now := a.after.now + Backoff(k));
      BackoffPositive(k);
      SaneLater(cfg, a.after, Backoff(k));
      RefusedFetch(rate, c', n - 1, k + 1);
      var rest := Attempts(cfg, c', Refusals(n - 1), k + 1);
      assert rest != [] && Attempts(cfg, c, Refusals(n), k) == [a] + rest;
    }
  }

  lemma SaneFields(cfg: Config, c: Client)
    requires Sane(cfg, c)
    ensures c.breaker.state.Closed? <==> c.breaker.openedAt.None?
  {
  }

  lemma SaneLater(cfg: Config, c: Client, pause: real)
    requires Sane(cfg, c) && pause >= 0.0
    ensures Sane(cfg, c.(now := c.now + pause))
  {
  }

  /**
    At 1 or 2 requests a minute: the last token buys the failure that opens the breaker, and the retry sleeps
    past the timeout.
  */
  lemma OpeningFetchIsNotQuiet(rate: nat, c: Client)
    requires 1 <= rate < 3 && Sane(ConfigFor(rate), c) && c.breaker == CB.Breaker(CB.Closed, 4, None)
    requires RL.Avail(RL.PerMinute(rate), c.bucket, c.now) == 1.0
    ensures !Quiet(Attempts(ConfigFor(rate), c, Refusals(MAX_ATTEMPTS), 1))
  {
    var cfg, nets := ConfigFor(rate), Refusals(MAX_ATTEMPTS);
    var tripped := Client(RL.Bucket(0.0, c.now), CB.Breaker(CB.Open, 5, Some(c.now)), c.now);
    RefusedAttempt(rate, c);
    assert AttemptOnce(cfg, c, REFUSED).after == tripped;
    SlowRetryIsAdmitted(rate, tripped);
    assert nets == [REFUSED, REFUSED, REFUSED, REFUSED];
    FirstTwoAttempts(cfg, c, nets);
    var log := Attempts(cfg, c, nets, 1);
    assert log[0].after.breaker.state.Open? && log[1].gate.Admitted?;
  }

  lemma SlowRetryIsAdmitted(rate: nat, c: Client)
    requires 1 <= rate < 3
    requires c == Client(RL.Bucket(0.0, c.now), CB.Breaker(CB.Open, 5, Some(c.now)), c.now)
    ensures AttemptOnce(ConfigFor(rate), c.(now := c.now + 0.5), REFUSED).gate.Admitted?
  {
    var p := RL.PerMinute(rate);
    assert c.now + 0.5 - c.now == 0.5;
    assert RL.Avail(p, c.bucket, c.now + 0.5) == 0.5 * p.refill;
    assert 0.5 + RL.SleepFor(p, c.bucket, c.now + 0.5) == 60.0 / rate as real;
  }

  /** A session of two fetches, all requests refused at once, with the right pause between them. */
  lemma SlowSession(rate: nat, now: real) returns (jobs: seq<Job>)
    requires 1 <= rate < 3
    ensures ExactJobs(jobs) && !QuietSession(ConfigFor(rate), Fresh(rate, now), jobs)
  {
    hide Attempts, Quiet, RL.Refilled, RL.TimeFor;
    var cfg, p, nets := ConfigFor(rate), RL.PerMinute(rate), Refusals(MAX_ATTEMPTS);
    var c := Fresh(rate, now);
    assert c.(now := c.now + 0.0) == c;
    RefusedFetch(rate, c, MAX_ATTEMPTS, 1);
    var c1 := Last(c, Attempts(cfg, c, nets, 1));
    var idle := RL.TimeFor(p, 1.0 - RL.Avail(p, c1.bucket, c1.now));
    RL.TimeForInverse(p, 1.0 - RL.Avail(p, c1.bucket, c1.now));
    var c2 := c1.(now := c1.now + idle);
    RL.RefilledSplit(p, c1.bucket.last, c1.now, c2.now);
    assert c2.now - c1.now == idle;
    OpeningFetchIsNotQuiet(rate, c2);
    jobs := [Job(0.0, nets), Job(idle, nets)];
    assert nets == [REFUSED, REFUSED, REFUSED, REFUSED];
    assert jobs[1..][0] == jobs[1] && IsJob(jobs[0]) && IsJob(jobs[1]);
  }

  /**
    With one caller and exact sleeps, in every session from a fresh client no request follows the opening of
    the breaker within a fetch, exactly from 3 requests a minute on.
  */
  lemma QuietExactlyFrom3(rate: nat)
    requires rate >= 1
    ensures rate >= 3 <==>
            forall now, jobs :: ExactJobs(jobs) ==> QuietSession(ConfigFor(rate), Fresh(rate, now), jobs)
  {
    if rate >= 3 {
      forall now, jobs | ExactJobs(jobs)
        ensures QuietSession(ConfigFor(rate), Fresh(rate, now), jobs)
      {
        QuietSessionFrom3(rate, Fresh(rate, now), jobs);
      }
    } else {
      var jobs := SlowSession(rate, 0.0);
    }
  }

  /** One caller never meets the breaker's failing assertion, over any number of fetches. */
  lemma {:induction false} SessionsNeverAssert(cfg: Config, c: Client, jobs: seq<Job>)
    requires Sane(cfg, c) && AllJobs(jobs)
    ensures forall a :: a in Session(cfg, c, jobs) ==> !a.outcome.BreakerAssertion?
    decreases |jobs|
  {
    hide Attempts;
    if jobs != [] {
      assert IsJob(jobs[0]);
      var c' := c.(now := c.now + jobs[0].idle);
      OneGrantPerAttempt(cfg, c', jobs[0].nets, 1);
      SessionsNeverAssert(cfg, Last(c', Attempts(cfg, c', jobs[0].nets, 1)), jobs[1..]);
    }
  }

  predicate AllAnswered(nets: seq<Net>)
  {
    forall i :: 0 <= i < |nets| ==> nets[i].reply.Response?
  }

  lemma {:induction false} AnswersKeepClosed(cfg: Config, c: Client, nets: seq<Net>, k: nat)
    requires !c.breaker.state.Open? && AllAnswered(nets)
    ensures var log := Attempts(cfg, c, nets, k);
            && (forall a :: a in log ==> a.gate.Admitted? && a.after.breaker == CB.INITIAL)
            && !Last(c, log).breaker.state.Open?
    decreases |nets|
  {
    if nets != [] {
      var a := AttemptOnce(cfg, c, nets[0]);
      assert a.gate.Admitted? && a.after.breaker == CB.INITIAL;
      if Retryable(a.outcome) {
        AnswersKeepClosed(cfg, a.after.(now := a.after.now + Backoff(k)), nets[1..], k + 1);
      }
    }
  }

  /** Any HTTP response resets the breaker, 5xx and 429 included: a server that only answers errors never trips it. */
  lemma {:induction false} ErrorResponsesNeverTrip(cfg: Config, c: Client, jobs: seq<Job>)
    requires !c.breaker.state.Open? && forall j :: j in jobs ==> AllAnswered(j.nets)
    ensures forall a :: a in Session(cfg, c, jobs) ==> a.gate.Admitted? && a.after.breaker == CB.INITIAL
    decreases |jobs|
  {
    if jobs != [] {
      var c' := c.(now := c.now + jobs[0].idle);
      AnswersKeepClosed(cfg, c', jobs[0].nets, 1);
      ErrorResponsesNeverTrip(cfg, Last(c', Attempts(cfg, c', jobs[0].nets, 1)), jobs[1..]);
    }
  }

  /** With its breaker CLOSED and enough failures to spare, a fetch cannot trip it, whatever the network does. */
  lemma {:induction false} FetchWithinBudgetNeverTrips(cfg: Config, c: Client, nets: seq<Net>, k: nat)
    requires c.breaker.state.Closed? && c.breaker.failCount + |nets| < cfg.breaker.failMax
    ensures forall a :: a in Attempts(cfg, c, nets, k) ==>
              && a.gate.Admitted? && a.after.breaker.state.Closed?
              && a.after.breaker.failCount <= c.breaker.failCount + |nets|
    decreases |nets|
  {
    hide RL.TurnAt, RL.Acquired, Backoff, Classify;
    if nets != [] {
      var a := AttemptOnce(cfg, c, nets[0]);
      if Retryable(a.outcome) {
        FetchWithinBudgetNeverTrips(cfg, a.after.(now := a.after.now + Backoff(k)), nets[1..], k + 1);
      }
    }
  }

  /** So one fetch of a fresh client, with at most four failures against a limit of five, never opens the breaker. */
  lemma FreshFetchNeverTrips(ratePerMinute: nat, now: real, nets: seq<Net>)
    requires ratePerMinute >= 1 && |nets| == MAX_ATTEMPTS
    ensures forall a :: a in Attempts(ConfigFor(ratePerMinute), Fresh(ratePerMinute, now), nets, 1) ==>
              a.gate.Admitted? && a.after.breaker.state.Closed?
  {
    FetchWithinBudgetNeverTrips(ConfigFor(ratePerMinute), Fresh(ratePerMinute, now), nets, 1);
  }
}
