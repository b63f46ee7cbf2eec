/**
  Any number of fetches on one fetcher.

  They share its bucket, whose lock is held across the sleep for a token, and its breaker, whose lock never
  is. So everything from a grant to the sending of the request, and everything from a reply to the report, is
  one step; between steps anybody may move, and anybody may be cancelled.
*/
module SharedFetcher {
  import opened Prelude
  import opened HttpClient
  import CB = CircuitBreaker
  import RL = RateLimiter
  import RB = RateBounds

  /** Where a fetch is, in its k-th attempt or in the pause after it. `None`: it was cancelled. */
  datatype Phase =
    | Queued(k: nat)
    | Sleeping(k: nat, arrive: real)
    | InFlight(k: nat)
    | Pausing(k: nat, until: real)
    | Ended(outcome: Option<Outcome>)

  datatype Shared = Shared(bucket: RL.Bucket, breaker: CB.Breaker, now: real, callers: map<nat, Phase>)

  datatype Move =
    | Start(c: nat)
    | Turn(c: nat)
    | Wake(c: nat)
    | Answer(c: nat, reply: Reply)
    | Resume(c: nat)
    | Cancel(c: nat)
    | Wait(d: real)

  /** Nobody holds the lock of the bucket. */
  predicate Awake(s: Shared)
  {
    forall c :: c in s.callers ==> !s.callers[c].Sleeping?
  }

  predicate CanMove(cfg: Config, s: Shared, m: Move)
  {
    match m
    case Start(c) => c !in s.callers
    case Turn(c) => c in s.callers && s.callers[c].Queued? && Awake(s)
    case Wake(c) =>
      && c in s.callers && s.callers[c].Sleeping?
      && s.now >= s.callers[c].arrive + RL.TimeFor(cfg.rate, 1.0 - s.bucket.tokens)
    case Answer(c, _) => c in s.callers && s.callers[c].InFlight?
    case Resume(c) => c in s.callers && s.callers[c].Pausing? && s.now >= s.callers[c].until
    case Cancel(c) => c in s.callers && !s.callers[c].Ended?
    case Wait(d) => d >= 0.0
  }

  function GateNow(cfg: Config, s: Shared): CB.GateResult
  {
    CB.Gate(cfg.breaker, s.breaker, s.now).1
  }

  /** How an attempt ends that the gate does not let through. */
  function Refused(gate: CB.GateResult): Outcome
  {
    End(gate, OtherError)
  }

  /** The caller has its token: it goes through the gate at once. */
  function Granted(cfg: Config, s: Shared, c: nat, k: nat, left: RL.Bucket): Shared
  {
    var gate := GateNow(cfg, s);
    Shared(left, CB.Gate(cfg.breaker, s.breaker, s.now).0, s.now,
           s.callers[c := if gate.Admitted? then InFlight(k) else Ended(Some(Refused(gate)))])
  }

  function AfterAnswer(k: nat, o: Outcome, now: real): Phase
  {
    if Retryable(o) && k < MAX_ATTEMPTS then Pausing(k, now + Backoff(k)) else Ended(Some(o))
  }

  function Moved(cfg: Config, s: Shared, m: Move): Shared
    requires CanMove(cfg, s, m)
  {
    match m
    case Start(c) => s.(callers := s.callers[c := Queued(1)])
    case Turn(c) =>
      if RL.Avail(cfg.rate, s.bucket, s.now) >= 1.0
      then Granted(cfg, s, c, s.callers[c].k, RL.Acquired(cfg.rate, s.bucket, s.now))
      else s.(bucket := RL.Bucket(RL.Avail(cfg.rate, s.bucket, s.now), s.now),
              callers := s.callers[c := Sleeping(s.callers[c].k, s.now)])
    case Wake(c) => Granted(cfg, s, c, s.callers[c].k, RL.Bucket(0.0, s.bucket.last))
    case Answer(c, reply) =>
      s.(breaker := if reply.Response? then CB.OnSuccess(s.breaker) else CB.OnFailure(cfg.breaker, s.breaker, s.now),
         callers := s.callers[c := AfterAnswer(s.callers[c].k, End(CB.Admitted, reply), s.now)])
    case Resume(c) => s.(callers := s.callers[c := Queued(s.callers[c].k + 1)])
    case Cancel(c) => s.(callers := s.callers[c := Ended(None)])
    case Wait(d) => s.(now := s.now + d)
  }

  /** The state after a run; a move that is not possible changes nothing. */
  function Run(cfg: Config, s: Shared, ms: seq<Move>): Shared
  {
    if ms == [] then s
    else
      var s' := Run(cfg, s, ms[..|ms| - 1]);
      if CanMove(cfg, s', ms[|ms| - 1]) then Moved(cfg, s', ms[|ms| - 1]) else s'
  }

  predicate IsRun(cfg: Config, s: Shared, ms: seq<Move>)
  {
    ms == [] || (IsRun(cfg, s, ms[..|ms| - 1]) && CanMove(cfg, Run(cfg, s, ms[..|ms| - 1]), ms[|ms| - 1]))
  }

  // ---------- what a run shows ----------

  /** A turn of the bucket that is over at `at`, and what its gate said; `None`: its sleep was cancelled. */
  datatype Made = Made(caller: nat, arrive: real, at: real, gate: Option<CB.GateResult>) {
    function AsTurn(): RL.Turn { RL.Turn(arrive, at - arrive, gate.Some?) }
  }

  function Makes(cfg: Config, s: Shared, m: Move): seq<Made>
    requires CanMove(cfg, s, m)
  {
    match m
    case Turn(c) =>
      if RL.Avail(cfg.rate, s.bucket, s.now) >= 1.0 then [Made(c, s.now, s.now, Some(GateNow(cfg, s)))] else []
    case Wake(c) => [Made(c, s.callers[c].arrive, s.now, Some(GateNow(cfg, s)))]
    case Cancel(c) => if s.callers[c].Sleeping? then [Made(c, s.callers[c].arrive, s.now, None)] else []
    case _ => []
  }

  /** The turns of a run in the order they are over. */
  function Log(cfg: Config, s: Shared, ms: seq<Move>): seq<Made>
    requires IsRun(cfg, s, ms)
  {
    if ms == [] then []
    else
      var pre := ms[..|ms| - 1];
      Log(cfg, s, pre) + Makes(cfg, Run(cfg, s, pre), ms[|ms| - 1])
  }

  function Turns(log: seq<Made>): seq<RL.Turn>
  {
    seq(|log|, i requires 0 <= i < |log| => log[i].AsTurn())
  }

  predicate IsSent(e: Made)
  {
    e.gate == Some(CB.Admitted)
  }

  /** The requests sent in a window of time. */
  function SentIn(log: seq<Made>, lo: real, hi: real): nat
  {
    if log == [] then 0 else (if IsSent(log[0]) && lo <= log[0].at <= hi then 1 else 0) + SentIn(log[1..], lo, hi)
  }

  /** What the breaker sees of a move. */
  function Seen(cfg: Config, s: Shared, m: Move): seq<CB.Event>
    requires CanMove(cfg, s, m)
  {
    match m
    case Turn(c) => if RL.Avail(cfg.rate, s.bucket, s.now) >= 1.0 then [CB.Arrive(c)] else []
    case Wake(c) => [CB.Arrive(c)]
    case Answer(c, reply) => if reply.Response? then [CB.Succeed(c)] else [CB.Fail(c)]
    case Cancel(c) => if s.callers[c].InFlight? then [CB.Cancel(c)] else []
    case Wait(d) => [CB.Advance(d)]
    case _ => []
  }

  function Events(cfg: Config, s: Shared, ms: seq<Move>): seq<CB.Event>
    requires IsRun(cfg, s, ms)
  {
    if ms == [] then []
    else
      var pre := ms[..|ms| - 1];
      Events(cfg, s, pre) + Seen(cfg, Run(cfg, s, pre), ms[|ms| - 1])
  }

  /** The breaker's side of the state. */
  function WorldOf(s: Shared): CB.World
  {
    CB.World(s.breaker, s.now, set c | c in s.callers && s.callers[c].InFlight?)
  }

  // ---------- the bucket's side: the turns are a run of the bucket ----------

  /** Left behind by a run of turns that ended with bucket `b` at `free`, and maybe one caller asleep since. */
  ghost predicate Follows(cfg: Config, s: Shared, b: RL.Bucket, free: real)
  {
    && free <= s.now
    && (Awake(s) ==> s.bucket == b)
    && (forall c :: c in s.callers && s.callers[c].Sleeping? ==> AsleepAfter(cfg, s, b, free, s.callers[c].arrive))
    && (forall c, d :: c in s.callers && d in s.callers && s.callers[c].Sleeping? && s.callers[d].Sleeping? ==> c == d)
  }

  predicate AsleepAfter(cfg: Config, s: Shared, b: RL.Bucket, free: real, arrive: real)
  {
    && free <= arrive <= s.now && RL.Avail(cfg.rate, b, arrive) < 1.0
    && s.bucket == RL.Bucket(RL.Avail(cfg.rate, b, arrive), arrive)
  }

  /** Whoever sleeps goes on sleeping, and nobody falls asleep. */
  ghost predicate SameSleepers(s: Shared, s': Shared)
  {
    && (forall c :: c in s.callers && s.callers[c].Sleeping? ==> c in s'.callers && s'.callers[c] == s.callers[c])
    && (forall c :: c in s'.callers && s'.callers[c].Sleeping? ==> c in s.callers && s.callers[c].Sleeping?)
  }

  lemma SameSleepersFollow(cfg: Config, s: Shared, s': Shared, b: RL.Bucket, free: real)
    requires Follows(cfg, s, b, free) && SameSleepers(s, s') && s'.bucket == s.bucket && s'.now >= s.now
    ensures Follows(cfg, s', b, free)
  {
    hide RL.Avail;
  }

  /** The sleeper's turn is over and nobody else holds the lock. */
  lemma LoneSleeper(cfg: Config, s: Shared, b: RL.Bucket, free: real, c: nat, phase: Phase)
    requires Follows(cfg, s, b, free) && c in s.callers && s.callers[c].Sleeping? && !phase.Sleeping?
    ensures Awake(s.(callers := s.callers[c := phase]))
  {
    hide AsleepAfter;
  }

  lemma FollowsTurn(cfg: Config, s: Shared, c: nat, b: RL.Bucket, free: real)
    requires Follows(cfg, s, b, free) && CanMove(cfg, s, Turn(c))
    ensures var made, s' := Makes(cfg, s, Turn(c)), Moved(cfg, s, Turn(c));
            if made == [] then Follows(cfg, s', b, free)
            else RL.IsTurn(cfg.rate, b, free, made[0].AsTurn())
                 && Follows(cfg, s', RL.AfterTurn(cfg.rate, b, made[0].AsTurn()), made[0].at)
  {
    hide RL.Avail, RL.TimeFor, CB.Gate;
    var s' := Moved(cfg, s, Turn(c));
    assert forall d :: d in s'.callers && s'.callers[d].Sleeping? ==> d == c;
    assert s'.callers[c].Sleeping? ==> !Awake(s');
  }

  lemma FollowsWake(cfg: Config, s: Shared, c: nat, b: RL.Bucket, free: real)
    requires Follows(cfg, s, b, free) && CanMove(cfg, s, Wake(c))
    ensures var made, s' := Makes(cfg, s, Wake(c))[0], Moved(cfg, s, Wake(c));
            && RL.IsTurn(cfg.rate, b, free, made.AsTurn())
            && Follows(cfg, s', RL.AfterTurn(cfg.rate, b, made.AsTurn()), made.at)
  {
    hide RL.Avail, RL.TimeFor, CB.Gate;
    LoneSleeper(cfg, s, b, free, c, Moved(cfg, s, Wake(c)).callers[c]);
  }

  lemma FollowsCancel(cfg: Config, s: Shared, c: nat, b: RL.Bucket, free: real)
    requires Follows(cfg, s, b, free) && CanMove(cfg, s, Cancel(c)) && s.callers[c].Sleeping?
    ensures var made, s' := Makes(cfg, s, Cancel(c))[0], Moved(cfg, s, Cancel(c));
            && RL.IsTurn(cfg.rate, b, free, made.AsTurn())
            && Follows(cfg, s', RL.AfterTurn(cfg.rate, b, made.AsTurn()), made.at)
  {
    hide RL.Avail, RL.TimeFor, CB.Gate;
    LoneSleeper(cfg, s, b, free, c, Ended(None));
  }

  lemma FollowsStep(cfg: Config, s: Shared, m: Move, b: RL.Bucket, free: real)
    requires Follows(cfg, s, b, free) && CanMove(cfg, s, m)
    ensures var made, s' := Makes(cfg, s, m), Moved(cfg, s, m);
            if made == [] then Follows(cfg, s', b, free)
            else
              && |made| == 1 && RL.IsTurn(cfg.rate, b, free, made[0].AsTurn())
              && Follows(cfg, s', RL.AfterTurn(cfg.rate, b, made[0].AsTurn()), made[0].at)
  {
    hide RL.Avail, RL.TimeFor, CB.Gate, Follows, RL.IsTurn, RL.AfterTurn, CB.OnFailure, Retryable;
    if m.Turn? {
      FollowsTurn(cfg, s, m.c, b, free);
    } else if m.Wake? {
      FollowsWake(cfg, s, m.c, b, free);
    } else if m.Cancel? && s.callers[m.c].Sleeping? {
      FollowsCancel(cfg, s, m.c, b, free);
    } else {
      SameSleepersFollow(cfg, s, Moved(cfg, s, m), b, free);
    }
  }

  lemma TurnsSnoc(log: seq<Made>, e: Made)
    ensures Turns(log + [e]) == Turns(log) + [e.AsTurn()]
  {
  }

  /** The turns are a legal run of the bucket, whoever takes them, and the bucket is what they leave. */
  lemma {:induction false} TurnsAreBucketRun(cfg: Config, s: Shared, ms: seq<Move>)
    requires IsRun(cfg, s, ms) && Awake(s)
    ensures var gs := Turns(Log(cfg, s, ms));
            && RL.IsRun(cfg.rate, s.bucket, s.now, gs)
            && var (b, free) := RL.After(cfg.rate, s.bucket, s.now, gs);
               Follows(cfg, Run(cfg, s, ms), b, free)
  {
    hide Moved, Makes, CanMove, Follows, RL.IsTurn, RL.AfterTurn;
    if ms == [] {
      StartFollows(cfg, s);
    } else {
      var pre, m := ms[..|ms| - 1], ms[|ms| - 1];
      TurnsAreBucketRun(cfg, s, pre);
      var p, log, made := cfg.rate, Log(cfg, s, pre), Makes(cfg, Run(cfg, s, pre), m);
      var (b, free) := RL.After(p, s.bucket, s.now, Turns(log));
      FollowsStep(cfg, Run(cfg, s, pre), m, b, free);
      if made == [] {
        assert log + made == log;
      } else {
        TurnsSnoc(log, made[0]);
        assert made == [made[0]];
        var g := made[0].AsTurn();
        assert [g][1..] == [] && g.Done() == made[0].at;
        RL.RunThenRun(p, s.bucket, s.now, Turns(log), [g], 0.0, 0.0);
      }
    }
  }

  lemma StartFollows(cfg: Config, s: Shared)
    requires Awake(s)
    ensures Follows(cfg, s, s.bucket, s.now)
  {
  }

  lemma {:induction false} SentAreGrants(log: seq<Made>, lo: real, hi: real)
    ensures SentIn(log, lo, hi) <= RL.GrantsIn(Turns(log), lo, hi)
  {
    if log != [] {
      SentAreGrants(log[1..], lo, hi);
      assert Turns(log)[1..] == Turns(log[1..]) && Turns(log)[0].Done() == log[0].at;
    }
  }

  /**
    However many fetches share the fetcher, and whatever the network and cancellations do, the requests sent in
    any window of time keep to the bucket's bound.
  */
  lemma RequestsKeepWindowBound(cfg: Config, s: Shared, ms: seq<Move>, lo: real, hi: real)
    requires IsRun(cfg, s, ms) && Awake(s) && RL.Inv(cfg.rate, s.bucket, s.now) && lo <= hi
    ensures var log := Log(cfg, s, ms);
            SentIn(log, lo, hi) as real <=
            cfg.rate.capacity + 2.0 * RL.Refilled(cfg.rate, hi - lo) +
            (if RB.OversleptInto(cfg.rate, Turns(log), lo, hi) then 1.0 else 0.0)
  {
    hide Run, Log, Follows, RB.OversleptInto, RL.Refilled;
    TurnsAreBucketRun(cfg, s, ms);
    SentAreGrants(Log(cfg, s, ms), lo, hi);
    RB.WindowBound(cfg.rate, s.bucket, s.now, Turns(Log(cfg, s, ms)), lo, hi);
  }

  // ---------- the breaker's side: its events are a run of the breaker ----------

  /** How many requests a run sends. */
  function Sent(log: seq<Made>): nat
  {
    if log == [] then 0 else Sent(log[..|log| - 1]) + (if IsSent(log[|log| - 1]) then 1 else 0)
  }

  lemma SentOne(e: Made)
    ensures Sent([e]) == if IsSent(e) then 1 else 0
  {
    assert [e][..0] == [];
  }

  lemma {:induction false} SentConcat(a: seq<Made>, b: seq<Made>)
    ensures Sent(a + b) == Sent(a) + Sent(b)
  {
    if b == [] {
      assert a + b == a;
    } else {
      SentConcat(a, b[..|b| - 1]);
      assert (a + b)[..|a + b| - 1] == a + b[..|b| - 1];
    }
  }

  lemma SeenStep(cfg: Config, s: Shared, m: Move)
    requires CanMove(cfg, s, m)
    ensures var es, w, w' := Seen(cfg, s, m), WorldOf(s), WorldOf(Moved(cfg, s, m));
            && |es| <= 1 && |Makes(cfg, s, m)| <= 1
            && (es == [] ==> w' == w && Sent(Makes(cfg, s, m)) == 0)
            && (es != [] ==> CB.Enabled(w, es[0]) && w' == CB.Apply(cfg.breaker, w, es[0])
                             && Sent(Makes(cfg, s, m)) == if CB.AdmittedBy(cfg.breaker, w, es[0]) then 1 else 0)
  {
    hide RL.Avail, RL.TimeFor;
    var made := Makes(cfg, s, m);
    if made != [] {
      SentOne(made[0]);
      assert made == [made[0]];
    }
    var before, after := WorldOf(s).pending, WorldOf(Moved(cfg, s, m)).pending;
    if m.Answer? || m.Cancel? {
      assert after == before - {m.c};
    } else if (m.Turn? || m.Wake?) && Moved(cfg, s, m).callers[m.c].InFlight? {
      assert after == before + {m.c};
    } else {
      assert after == before;
    }
  }

  lemma NothingSent(cfg: Config, w: CB.World)
    ensures CB.IsRun(cfg.breaker, w, []) && CB.Run(cfg.breaker, w, []) == w
    ensures CB.Admissions(cfg.breaker, w, []) == 0 == Sent([])
  {
  }

  /** What the breaker sees is a legal interleaving of calls, and it lets through exactly the requests sent. */
  lemma {:induction false} EventsAreBreakerRun(cfg: Config, s: Shared, ms: seq<Move>)
    requires IsRun(cfg, s, ms)
    ensures var es := Events(cfg, s, ms);
            && CB.IsRun(cfg.breaker, WorldOf(s), es)
            && CB.Run(cfg.breaker, WorldOf(s), es) == WorldOf(Run(cfg, s, ms))
            && CB.Admissions(cfg.breaker, WorldOf(s), es) == Sent(Log(cfg, s, ms))
  {
    hide Moved, Makes, CanMove, Seen, WorldOf, Sent;
    hide CB.Apply, CB.Enabled, CB.AdmittedBy, CB.Run, CB.IsRun, CB.Admissions;
    NothingSent(cfg, WorldOf(s));
    if ms != [] {
      var pre, m := ms[..|ms| - 1], ms[|ms| - 1];
      EventsAreBreakerRun(cfg, s, pre);
      var s', es := Run(cfg, s, pre), Events(cfg, s, pre);
      SeenStep(cfg, s', m);
      SentConcat(Log(cfg, s, pre), Makes(cfg, s', m));
      if Seen(cfg, s', m) == [] {
        assert es + Seen(cfg, s', m) == es;
      } else {
        assert Seen(cfg, s', m) == [Seen(cfg, s', m)[0]];
        CB.RunSnoc(cfg.breaker, WorldOf(s), es, Seen(cfg, s', m)[0]);
      }
    }
  }

  // ---------- each fetch on its own ----------

  /** The attempt of `c` that the gate ended at once, if there is one among these turns. */
  function TurnedAway(made: seq<Made>, c: nat): seq<Try>
  {
    if made != [] && made[0].caller == c && made[0].gate.Some? && !made[0].gate.value.Admitted?
    then [Try(made[0].gate.value, OtherError)] else []
  }

  /** What the attempts of one fetch met that this move ends. */
  function Met(cfg: Config, s: Shared, m: Move, c: nat): seq<Try>
    requires CanMove(cfg, s, m)
  {
    if m.Answer? then (if m.c == c then [Try(CB.Admitted, m.reply)] else [])
    else TurnedAway(Makes(cfg, s, m), c)
  }

  function TriesOf(cfg: Config, s: Shared, ms: seq<Move>, c: nat): seq<Try>
    requires IsRun(cfg, s, ms)
  {
    if ms == [] then []
    else
      var pre := ms[..|ms| - 1];
      TriesOf(cfg, s, pre, c) + Met(cfg, Run(cfg, s, pre), ms[|ms| - 1], c)
  }

  /** The tokens a caller has been granted. */
  function GrantsOf(log: seq<Made>, c: nat): nat
  {
    if log == [] then 0
    else
      var e := log[|log| - 1];
      GrantsOf(log[..|log| - 1], c) + (if e.caller == c && e.gate.Some? then 1 else 0)
  }

  predicate Retried(t: Try)
  {
    Retryable(End(t.gate, t.reply))
  }

  predicate AllRetried(tries: seq<Try>)
  {
    forall i :: 0 <= i < |tries| ==> Retried(tries[i])
  }

  /** What a fetch has behind it in each phase, and how many tokens it has taken. */
  ghost predicate Record(s: Shared, c: nat, tries: seq<Try>, grants: nat)
  {
    if c !in s.callers then tries == [] && grants == 0
    else
      match s.callers[c]
      case Queued(k) => 1 <= k <= MAX_ATTEMPTS && |tries| == k - 1 == grants && AllRetried(tries)
      case Sleeping(k, _) => 1 <= k <= MAX_ATTEMPTS && |tries| == k - 1 == grants && AllRetried(tries)
      case InFlight(k) => 1 <= k <= MAX_ATTEMPTS && |tries| == k - 1 && grants == k && AllRetried(tries)
      case Pausing(k, _) => 1 <= k < MAX_ATTEMPTS && |tries| == k == grants && AllRetried(tries)
      case Ended(None) => |tries| < MAX_ATTEMPTS && |tries| <= grants <= |tries| + 1 && AllRetried(tries)
      case Ended(Some(o)) =>
        && 1 <= |tries| <= MAX_ATTEMPTS && |tries| == grants && AllRetried(tries[..|tries| - 1])
        && o == End(tries[|tries| - 1].gate, tries[|tries| - 1].reply)
        && (Retryable(o) ==> |tries| == MAX_ATTEMPTS)
  }

  lemma GrantsOfOne(e: Made, c: nat)
    ensures GrantsOf([e], c) == if e.caller == c && e.gate.Some? then 1 else 0
  {
    assert [e][..0] == [];
  }

  /** A grant goes through the gate, or ends the fetch there. */
  lemma RecordGrant(cfg: Config, s: Shared, c: nat, k: nat, left: RL.Bucket, made: Made, tries: seq<Try>)
    requires 1 <= k <= MAX_ATTEMPTS && |tries| == k - 1 && AllRetried(tries)
    requires made.caller == c && made.gate == Some(GateNow(cfg, s))
    ensures Record(Granted(cfg, s, c, k, left), c, tries + TurnedAway([made], c), k)
  {
    hide CB.Gate, Classify;
    assert (tries + TurnedAway([made], c))[..|tries|] == tries;
    assert tries + [] == tries;
  }

  lemma RecordAnswer(cfg: Config, s: Shared, c: nat, reply: Reply, tries: seq<Try>, grants: nat)
    requires CanMove(cfg, s, Answer(c, reply)) && Record(s, c, tries, grants)
    ensures Record(Moved(cfg, s, Answer(c, reply)), c, tries + [Try(CB.Admitted, reply)], grants)
  {
    hide Backoff, Classify, CB.OnFailure, CB.OnSuccess;
    var tries' := tries + [Try(CB.Admitted, reply)];
    assert tries'[..|tries|] == tries;
    assert forall i :: 0 <= i < |tries| ==> tries'[i] == tries[i];
  }

  lemma RecordStep(cfg: Config, s: Shared, m: Move, c: nat, tries: seq<Try>, grants: nat)
    requires CanMove(cfg, s, m) && Record(s, c, tries, grants)
    ensures Record(Moved(cfg, s, m), c, tries + Met(cfg, s, m, c), grants + GrantsOf(Makes(cfg, s, m), c))
  {
    hide RL.Avail, RL.TimeFor, CB.OnFailure, CB.OnSuccess, CB.Gate, RL.Acquired, End, Retryable, Backoff, AllRetried;
    var made := Makes(cfg, s, m);
    if made != [] {
      GrantsOfOne(made[0], c);
      assert made == [made[0]];
    }
    if m.Answer? && m.c == c {
      hide Record;
      RecordAnswer(cfg, s, c, m.reply, tries, grants);
    } else if made != [] && made[0].gate.Some? && made[0].caller == c {
      RecordGrant(cfg, s, c, s.callers[c].k, Moved(cfg, s, m).bucket, made[0], tries);
    } else {
      NothingTried();
      assert tries + [] == tries;
    }
  }

  lemma NothingTried()
    ensures AllRetried([])
  {
  }

  lemma {:induction false} GrantsConcat(a: seq<Made>, b: seq<Made>, c: nat)
    ensures GrantsOf(a + b, c) == GrantsOf(a, c) + GrantsOf(b, c)
  {
    if b == [] {
      assert a + b == a;
    } else {
      GrantsConcat(a, b[..|b| - 1], c);
      assert (a + b)[..|a + b| - 1] == a + b[..|b| - 1];
    }
  }

  lemma {:induction false} RecordsKept(cfg: Config, s: Shared, ms: seq<Move>, c: nat)
    requires IsRun(cfg, s, ms) && s.callers == map[]
    ensures Record(Run(cfg, s, ms), c, TriesOf(cfg, s, ms, c), GrantsOf(Log(cfg, s, ms), c))
  {
    hide Moved, Makes, CanMove, Met, Record, GrantsOf;
    if ms == [] {
      NothingRecorded(s, c);
    } else {
      var pre, m := ms[..|ms| - 1], ms[|ms| - 1];
      RecordsKept(cfg, s, pre, c);
      RecordStep(cfg, Run(cfg, s, pre), m, c, TriesOf(cfg, s, pre, c), GrantsOf(Log(cfg, s, pre), c));
      GrantsConcat(Log(cfg, s, pre), Makes(cfg, Run(cfg, s, pre), m), c);
    }
  }

  lemma NothingRecorded(s: Shared, c: nat)
    requires s.callers == map[]
    ensures Record(s, c, [], GrantsOf([], c))
  {
  }

  lemma {:induction false} RetryOfRetried(tries: seq<Try>)
    requires tries != [] && AllRetried(tries[..|tries| - 1])
    ensures |Retry(tries)| == |tries|
    ensures Retry(tries)[|tries| - 1] == End(tries[|tries| - 1].gate, tries[|tries| - 1].reply)
  {
    hide End, Retryable;
    if |tries| > 1 {
      assert forall i :: 0 <= i < |tries[1..]| - 1 ==> tries[1..][i] == tries[..|tries| - 1][i + 1];
      assert Retried(tries[..|tries| - 1][0]);
      RetryOfRetried(tries[1..]);
    }
  }

  /**
    Whoever interferes, a fetch takes one token for each of its attempts, at most four, and goes through them
    as the retry loop does: all but the last met a transient reply, and it ends with the outcome of the last.
  */
  lemma EachFetchFollowsRetry(cfg: Config, s: Shared, ms: seq<Move>, c: nat)
    requires IsRun(cfg, s, ms) && s.callers == map[]
    ensures var s', tries, grants := Run(cfg, s, ms), TriesOf(cfg, s, ms, c), GrantsOf(Log(cfg, s, ms), c);
            && |tries| <= grants <= 4
            && (c in s'.callers && s'.callers[c].InFlight? ==> grants == |tries| + 1)
            && (c in s'.callers && s'.callers[c].Ended? && s'.callers[c].outcome.Some? ==>
                  var o := s'.callers[c].outcome.value;
                  && grants == |tries| == |Retry(tries)| >= 1 && Retry(tries)[|tries| - 1] == o
                  && EndsAs(tries[|tries| - 1], o)
                  && (forall i :: 0 <= i < |tries| - 1 ==> tries[i].gate.Admitted? && Transient(tries[i].reply))
                  && (o.Unavailable? || o.RateLimited? ==> |tries| == 4))
  {
    hide Run, Log, GrantsOf, TriesOf, IsRun, End, Transient, EndsAs;
    Waits();
    RecordsKept(cfg, s, ms, c);
    var s', tries := Run(cfg, s, ms), TriesOf(cfg, s, ms, c);
    if c in s'.callers && s'.callers[c].Ended? && s'.callers[c].outcome.Some? {
      RetryDiscipline(tries);
      RetryOfRetried(tries);
    }
  }

  /** When the answers to a caller's requests came. */
  function AnswerTimes(cfg: Config, s: Shared, ms: seq<Move>, c: nat): seq<real>
    requires IsRun(cfg, s, ms)
  {
    if ms == [] then []
    else
      var pre, m := ms[..|ms| - 1], ms[|ms| - 1];
      AnswerTimes(cfg, s, pre, c) + (if m.Answer? && m.c == c then [Run(cfg, s, pre).now] else [])
  }

  /** When a caller's turns at the bucket came that ended in a grant. */
  function TurnTimes(log: seq<Made>, c: nat): seq<real>
  {
    if log == [] then []
    else
      var e := log[|log| - 1];
      TurnTimes(log[..|log| - 1], c) + (if e.caller == c && e.gate.Some? then [e.arrive] else [])
  }

  predicate WaitedFor(at: real, answers: seq<real>, k: nat)
  {
    1 <= k <= |answers| && at >= answers[k - 1] + Backoff(k)
  }

  /** Every turn but the first has waited for the pause after the answer before it, and so will the next one. */
  ghost predicate Paced(s: Shared, c: nat, answers: seq<real>, turns: seq<real>)
  {
    && (forall i :: 1 <= i < |turns| ==> WaitedFor(turns[i], answers, i))
    && (c !in s.callers ==> answers == [] && turns == [])
    && (c in s.callers ==>
          match s.callers[c]
          case Queued(k) => |answers| == |turns| == k - 1 && (k >= 2 ==> WaitedFor(s.now, answers, k - 1))
          case Sleeping(k, arrive) => |answers| == |turns| == k - 1 && (k >= 2 ==> WaitedFor(arrive, answers, k - 1))
          case InFlight(k) => |answers| == k - 1 && |turns| == k
          case Pausing(k, until) => |answers| == |turns| == k && k >= 1 && until == answers[k - 1] + Backoff(k)
          case Ended(_) => true)
  }

  lemma PacedAnswer(cfg: Config, s: Shared, c: nat, reply: Reply, answers: seq<real>, turns: seq<real>)
    requires CanMove(cfg, s, Answer(c, reply)) && Paced(s, c, answers, turns)
    ensures Paced(Moved(cfg, s, Answer(c, reply)), c, answers + [s.now], turns)
  {
    hide CB.OnFailure, CB.OnSuccess, End, Retryable, Backoff;
    var answers' := answers + [s.now];
    forall i | 1 <= i < |turns|
      ensures WaitedFor(turns[i], answers', i)
    {
      assert WaitedFor(turns[i], answers, i) && answers'[i - 1] == answers[i - 1];
    }
  }

  /** The turn that is granted has waited, in the queue or since it fell asleep. */
  lemma PacedGrant(cfg: Config, s: Shared, c: nat, k: nat, left: RL.Bucket, at: real,
                   answers: seq<real>, turns: seq<real>)
    requires forall i :: 1 <= i < |turns| ==> WaitedFor(turns[i], answers, i)
    requires |answers| == |turns| == k - 1 && (k >= 2 ==> WaitedFor(at, answers, k - 1))
    ensures Paced(Granted(cfg, s, c, k, left), c, answers, turns + [at])
  {
    hide CB.Gate, WaitedFor;
    assert forall i :: 1 <= i < |turns| ==> (turns + [at])[i] == turns[i];
  }

  /** A later clock does no harm, and a caller in the queue may fall asleep, or come back from its pause. */
  lemma PacedWithoutTurn(cfg: Config, s: Shared, m: Move, c: nat, answers: seq<real>, turns: seq<real>)
    requires CanMove(cfg, s, m) && Paced(s, c, answers, turns) && !(m.Answer? && m.c == c)
    requires TurnTimes(Makes(cfg, s, m), c) == []
    ensures Paced(Moved(cfg, s, m), c, answers, turns)
  {
    hide RL.Avail, RL.TimeFor, CB.OnFailure, CB.OnSuccess, CB.Gate, RL.Acquired, End, Retryable, Backoff;
    if Makes(cfg, s, m) != [] {
      TurnTimesOfOne(Makes(cfg, s, m)[0], c);
      assert Makes(cfg, s, m) == [Makes(cfg, s, m)[0]];
    }
  }

  lemma PacedStep(cfg: Config, s: Shared, m: Move, c: nat, answers: seq<real>, turns: seq<real>)
    requires CanMove(cfg, s, m) && Paced(s, c, answers, turns)
    ensures Paced(Moved(cfg, s, m), c, answers + (if m.Answer? && m.c == c then [s.now] else []),
                  turns + TurnTimes(Makes(cfg, s, m), c))
  {
    hide RL.Avail, RL.TimeFor, CB.OnFailure, CB.OnSuccess, CB.Gate, RL.Acquired, AfterAnswer, WaitedFor, Backoff;
    var made := Makes(cfg, s, m);
    if made != [] {
      TurnTimesOfOne(made[0], c);
      assert made == [made[0]];
    }
    assert answers + [] == answers && turns + [] == turns;
    if m.Answer? && m.c == c {
      PacedAnswer(cfg, s, c, m.reply, answers, turns);
    } else if TurnTimes(made, c) != [] {
      PacedGrant(cfg, s, c, s.callers[c].k, Moved(cfg, s, m).bucket, made[0].arrive, answers, turns);
    } else {
      hide Paced;
      PacedWithoutTurn(cfg, s, m, c, answers, turns);
    }
  }

  lemma TurnTimesOfOne(e: Made, c: nat)
    ensures TurnTimes([e], c) == if e.caller == c && e.gate.Some? then [e.arrive] else []
  {
    assert [e][..0] == [];
  }

  lemma {:induction false} TurnTimesConcat(a: seq<Made>, b: seq<Made>, c: nat)
    ensures TurnTimes(a + b, c) == TurnTimes(a, c) + TurnTimes(b, c)
  {
    if b == [] {
      assert a + b == a;
    } else {
      TurnTimesConcat(a, b[..|b| - 1], c);
      assert (a + b)[..|a + b| - 1] == a + b[..|b| - 1];
    }
  }

  lemma {:induction false} RunsArePaced(cfg: Config, s: Shared, ms: seq<Move>, c: nat)
    requires IsRun(cfg, s, ms) && s.callers == map[]
    ensures Paced(Run(cfg, s, ms), c, AnswerTimes(cfg, s, ms, c), TurnTimes(Log(cfg, s, ms), c))
  {
    hide Moved, Makes, CanMove, Paced, TurnTimes;
    if ms == [] {
      NothingPaced(s, c);
    } else {
      var pre, m := ms[..|ms| - 1], ms[|ms| - 1];
      RunsArePaced(cfg, s, pre, c);
      PacedStep(cfg, Run(cfg, s, pre), m, c, AnswerTimes(cfg, s, pre, c), TurnTimes(Log(cfg, s, pre), c));
      TurnTimesConcat(Log(cfg, s, pre), Makes(cfg, Run(cfg, s, pre), m), c);
    }
  }

  lemma NothingPaced(s: Shared, c: nat)
    requires s.callers == map[]
    ensures Paced(s, c, [], TurnTimes([], c))
  {
  }

  lemma PausesKept(s: Shared, c: nat, answers: seq<real>, turns: seq<real>)
    requires Paced(s, c, answers, turns)
    ensures |turns| > 1 ==> |answers| >= 1 && turns[1] >= answers[0] + 0.5
    ensures |turns| > 2 ==> |answers| >= 2 && turns[2] >= answers[1] + 1.0
    ensures |turns| > 3 ==> |answers| >= 3 && turns[3] >= answers[2] + 2.0
  {
    hide Backoff;
    Waits();
    assert |turns| > 1 ==> WaitedFor(turns[1], answers, 1);
    assert |turns| > 2 ==> WaitedFor(turns[2], answers, 2);
    assert |turns| > 3 ==> WaitedFor(turns[3], answers, 3);
  }

  /** Whoever interferes, a retry takes its turn half a second, one and two seconds after the answer before it. */
  lemma RetriesKeepPauses(cfg: Config, s: Shared, ms: seq<Move>, c: nat)
    requires IsRun(cfg, s, ms) && s.callers == map[]
    ensures var turns, answers := TurnTimes(Log(cfg, s, ms), c), AnswerTimes(cfg, s, ms, c);
            && (|turns| > 1 ==> |answers| >= 1 && turns[1] >= answers[0] + 0.5)
            && (|turns| > 2 ==> |answers| >= 2 && turns[2] >= answers[1] + 1.0)
            && (|turns| > 3 ==> |answers| >= 3 && turns[3] >= answers[2] + 2.0)
  {
    hide Run, Log, IsRun, TurnTimes, AnswerTimes, Paced;
    RunsArePaced(cfg, s, ms, c);
    PausesKept(Run(cfg, s, ms), c, AnswerTimes(cfg, s, ms, c), TurnTimes(Log(cfg, s, ms), c));
  }

  // ---------- runs one after another ----------

  lemma {:induction false} RunConcat(cfg: Config, s: Shared, a: seq<Move>, b: seq<Move>)
    requires IsRun(cfg, s, a) && IsRun(cfg, Run(cfg, s, a), b)
    ensures IsRun(cfg, s, a + b) && Run(cfg, s, a + b) == Run(cfg, Run(cfg, s, a), b)
    ensures Sent(Log(cfg, s, a + b)) == Sent(Log(cfg, s, a)) + Sent(Log(cfg, Run(cfg, s, a), b))
  {
    hide Moved, CanMove, Makes;
    if b == [] {
      assert a + b == a;
    } else {
      var pre := b[..|b| - 1];
      RunConcat(cfg, s, a, pre);
      assert (a + b)[..|a + b| - 1] == a + pre;
      var made := Makes(cfg, Run(cfg, s, a + pre), b[|b| - 1]);
      SentConcat(Log(cfg, s, a + pre), made);
      SentConcat(Log(cfg, Run(cfg, s, a), pre), made);
    }
  }

  lemma RunThenMove(cfg: Config, s: Shared, ms: seq<Move>, m: Move)
    requires IsRun(cfg, s, ms) && CanMove(cfg, Run(cfg, s, ms), m)
    ensures IsRun(cfg, s, ms + [m]) && Run(cfg, s, ms + [m]) == Moved(cfg, Run(cfg, s, ms), m)
    ensures Sent(Log(cfg, s, ms + [m])) == Sent(Log(cfg, s, ms)) + Sent(Makes(cfg, Run(cfg, s, ms), m))
  {
    hide Moved, CanMove, Makes;
    assert (ms + [m])[..|ms|] == ms;
    SentConcat(Log(cfg, s, ms), Makes(cfg, Run(cfg, s, ms), m));
  }

  lemma NoMove(cfg: Config, s: Shared)
    ensures IsRun(cfg, s, []) && Run(cfg, s, []) == s && Sent(Log(cfg, s, [])) == 0
  {
  }

  // ---------- when no request is ever sent again ----------

  /** How long to wait until a breaker that is not dead lets callers through. */
  function Lull(cfg: Config, s: Shared): real
    requires !CB.Dead(WorldOf(s))
  {
    if s.breaker.state.Open? && s.breaker.openedAt.value + cfg.breaker.resetTimeout > s.now
    then s.breaker.openedAt.value + cfg.breaker.resetTimeout - s.now else 0.0
  }

  lemma WakeSends(cfg: Config, s: Shared, c: nat)
    requires !CB.Dead(WorldOf(s)) && Lull(cfg, s) == 0.0 && CanMove(cfg, s, Wake(c))
    ensures Sent(Makes(cfg, s, Wake(c))) == 1
  {
    hide RL.TimeFor;
    assert Makes(cfg, s, Wake(c))[..0] == [];
  }

  /** The sleeper wakes after the lull and is let through. */
  lemma SleeperSends(cfg: Config, s: Shared, c: nat) returns (ms: seq<Move>)
    requires !CB.Dead(WorldOf(s)) && c in s.callers && s.callers[c].Sleeping?
    ensures IsRun(cfg, s, ms) && Sent(Log(cfg, s, ms)) > 0
  {
    hide RL.TimeFor, Run, IsRun, Log, Sent;
    var left := s.callers[c].arrive + RL.TimeFor(cfg.rate, 1.0 - s.bucket.tokens) - s.now;
    var d := Lull(cfg, s) + (if left > 0.0 then left else 0.0);
    NoMove(cfg, s);
    RunThenMove(cfg, s, [], Wait(d));
    var s' := Moved(cfg, s, Wait(d));
    WakeSends(cfg, s', c);
    RunThenMove(cfg, s, [] + [Wait(d)], Wake(c));
    ms := [] + [Wait(d)] + [Wake(c)];
  }

  /** A new caller waits for the lull and for its token, and is let through. */
  lemma NewcomerSends(cfg: Config, s: Shared) returns (ms: seq<Move>)
    requires !CB.Dead(WorldOf(s)) && Awake(s)
    ensures IsRun(cfg, s, ms) && Sent(Log(cfg, s, ms)) > 0
  {
    hide RL.TimeFor, RL.Avail, Run, IsRun, Log, Sent;
    var c := AboveAll(s.callers.Keys);
    assert c !in s.callers;
    var a := [] + [Start(c)];
    NoMove(cfg, s);
    RunThenMove(cfg, s, [], Start(c));
    var s1 := Moved(cfg, s, Start(c));
    var b := a + [Wait(Lull(cfg, s))];
    RunThenMove(cfg, s, a, Wait(Lull(cfg, s)));
    var s2 := Moved(cfg, s1, Wait(Lull(cfg, s)));
    assert Awake(s2);
    RunThenMove(cfg, s, b, Turn(c));
    if RL.Avail(cfg.rate, s2.bucket, s2.now) >= 1.0 {
      SentOne(Made(c, s2.now, s2.now, Some(GateNow(cfg, s2))));
      ms := b + [Turn(c)];
    } else {
      var rest := SleeperSends(cfg, Moved(cfg, s2, Turn(c)), c);
      RunConcat(cfg, s, b + [Turn(c)], rest);
      ms := b + [Turn(c)] + rest;
    }
  }

  lemma LiveSends(cfg: Config, s: Shared) returns (ms: seq<Move>)
    requires !CB.Dead(WorldOf(s))
    ensures IsRun(cfg, s, ms) && Sent(Log(cfg, s, ms)) > 0
  {
    if Awake(s) {
      ms := NewcomerSends(cfg, s);
    } else {
      var c :| c in s.callers && s.callers[c].Sleeping?;
      ms := SleeperSends(cfg, s, c);
    }
  }

  /** Requests in flight fail until the breaker opens afresh. */
  lemma {:induction false} ReopenedSends(cfg: Config, s: Shared) returns (ms: seq<Move>)
    requires CB.Dead(WorldOf(s)) && !CB.CannotReopen(cfg.breaker, WorldOf(s))
    ensures IsRun(cfg, s, ms) && Sent(Log(cfg, s, ms)) > 0
    decreases |WorldOf(s).pending|
  {
    hide Run, IsRun, Log, Sent;
    var c :| c in WorldOf(s).pending;
    var m := Answer(c, TransportError);
    var s' := Moved(cfg, s, m);
    NoMove(cfg, s);
    RunThenMove(cfg, s, [], m);
    SeenStep(cfg, s, m);
    assert WorldOf(s') == CB.Apply(cfg.breaker, WorldOf(s), CB.Fail(c));
    var rest: seq<Move>;
    if CB.Dead(WorldOf(s')) {
      rest := ReopenedSends(cfg, s');
    } else {
      rest := LiveSends(cfg, s');
    }
    RunConcat(cfg, s, [] + [m], rest);
    ms := [] + [m] + rest;
  }

  /**
    In any state, no fetch ever sends a request again exactly if the breaker is dead and the requests in flight
    cannot bring its count to the limit: neither new fetches nor retries nor time help then.
  */
  lemma NobodyEverServedExactly(cfg: Config, s: Shared)
    ensures (forall ms :: IsRun(cfg, s, ms) ==> Sent(Log(cfg, s, ms)) == 0) <==>
            CB.Dead(WorldOf(s)) && CB.CannotReopen(cfg.breaker, WorldOf(s))
  {
    hide Log, Sent, Run, CB.CannotReopen, CB.Run, CB.IsRun, CB.Admissions;
    var w := WorldOf(s);
    if CB.Dead(w) && CB.CannotReopen(cfg.breaker, w) {
      forall ms | IsRun(cfg, s, ms)
        ensures Sent(Log(cfg, s, ms)) == 0
      {
        EventsAreBreakerRun(cfg, s, ms);
        CB.StaysDead(cfg.breaker, w, Events(cfg, s, ms));
      }
    } else if CB.Dead(w) {
      var ms := ReopenedSends(cfg, s);
    } else {
      var ms := LiveSends(cfg, s);
    }
  }

  // ---------- the failing assertion ----------

  lemma {:induction false} PrefixIsRun(cfg: Config, s: Shared, ms: seq<Move>, i: nat)
    requires IsRun(cfg, s, ms) && i <= |ms|
    ensures IsRun(cfg, s, ms[..i])
  {
    hide Run, CanMove;
    if i == |ms| {
      assert ms[..i] == ms;
    } else {
      PrefixIsRun(cfg, s, ms[..|ms| - 1], i);
      assert ms[..|ms| - 1][..i] == ms[..i];
    }
  }

  predicate Asserted(s: Shared, c: nat)
  {
    c in s.callers && s.callers[c] == Ended(Some(BreakerAssertion))
  }

  lemma AssertedStep(cfg: Config, s: Shared, m: Move, c: nat)
    requires CanMove(cfg, s, m) && Asserted(Moved(cfg, s, m), c) && !Asserted(s, c)
    ensures CB.Dead(WorldOf(s))
  {
    hide RL.Avail, RL.TimeFor, RL.Acquired, CB.OnFailure, CB.OnSuccess, Backoff;
  }

  /** The state in which the assertion failed. */
  lemma {:induction false} AssertedWhenDead(cfg: Config, s: Shared, ms: seq<Move>, c: nat) returns (i: nat)
    requires IsRun(cfg, s, ms) && !Asserted(s, c) && Asserted(Run(cfg, s, ms), c)
    ensures i <= |ms| && IsRun(cfg, s, ms[..i]) && CB.Dead(WorldOf(Run(cfg, s, ms[..i])))
  {
    hide Moved, CanMove, WorldOf, Asserted, CB.Dead;
    var pre := ms[..|ms| - 1];
    if Asserted(Run(cfg, s, pre), c) {
      i := AssertedWhenDead(cfg, s, pre, c);
      assert pre[..i] == ms[..i];
    } else {
      AssertedStep(cfg, Run(cfg, s, pre), ms[|ms| - 1], c);
      i := |pre|;
    }
  }

  /** A fetch fails the breaker's assertion only after a request of another succeeded while the breaker was OPEN. */
  lemma AssertionOnlyByLateSuccess(cfg: Config, s: Shared, ms: seq<Move>, c: nat) returns (i: nat)
    requires IsRun(cfg, s, ms) && s.callers == map[] && s.breaker == CB.INITIAL && Asserted(Run(cfg, s, ms), c)
    ensures i <= |ms| && IsRun(cfg, s, ms[..i]) && CB.LateSuccess(cfg.breaker, s.now, Events(cfg, s, ms[..i]))
  {
    hide Run, IsRun, Events, CB.Run, CB.IsRun, CB.Dead;
    i := AssertedWhenDead(cfg, s, ms, c);
    EventsAreBreakerRun(cfg, s, ms[..i]);
    assert WorldOf(s) == CB.Start(s.now);
    CB.DeadOnlyByLateSuccess(cfg.breaker, s.now, Events(cfg, s, ms[..i]));
  }

  // ---------- a fetch that nothing interrupts ----------

  function Single(c: Client, id: nat, phase: Phase): Shared
  {
    Shared(c.bucket, c.breaker, c.now, map[id := phase])
  }

  function GrantMoves(cfg: Config, c: Client, id: nat, net: Net): seq<Move>
  {
    if RL.Avail(cfg.rate, c.bucket, c.now) >= 1.0 then [Turn(id)]
    else [Turn(id)] + [Wait(RL.SleepFor(cfg.rate, c.bucket, c.now) + net.oversleep)] + [Wake(id)]
  }

  function AttemptMoves(cfg: Config, c: Client, id: nat, net: Net): seq<Move>
  {
    GrantMoves(cfg, c, id, net) +
    (if AttemptOnce(cfg, c, net).gate.Admitted? then [Wait(net.took)] + [Answer(id, net.reply)] else [])
  }

  function FetchMoves(cfg: Config, c: Client, id: nat, nets: seq<Net>, k: nat): seq<Move>
    decreases |nets|
  {
    if nets == [] then []
    else
      var a := AttemptOnce(cfg, c, nets[0]);
      AttemptMoves(cfg, c, id, nets[0]) +
      (if Retryable(a.outcome) && |nets| > 1
       then [Wait(Backoff(k))] + [Resume(id)] +
            FetchMoves(cfg, a.after.(now := a.after.now + Backoff(k)), id, nets[1..], k + 1)
       else [])
  }

  /** Moves one after another. */
  lemma OneMove(cfg: Config, s: Shared, m: Move)
    requires CanMove(cfg, s, m)
    ensures IsRun(cfg, s, [m]) && Run(cfg, s, [m]) == Moved(cfg, s, m)
  {
    NoMove(cfg, s);
    RunThenMove(cfg, s, [], m);
    assert [] + [m] == [m];
  }

  lemma TwoMoves(cfg: Config, s: Shared, m: Move, n: Move)
    requires CanMove(cfg, s, m) && CanMove(cfg, Moved(cfg, s, m), n)
    ensures IsRun(cfg, s, [m] + [n]) && Run(cfg, s, [m] + [n]) == Moved(cfg, Moved(cfg, s, m), n)
  {
    OneMove(cfg, s, m);
    RunThenMove(cfg, s, [m], n);
  }

  /** The caller has just been granted its token and gone through the gate. */
  function SingleGranted(cfg: Config, c: Client, id: nat, k: nat, a: Attempt): Shared
  {
    Shared(a.after.bucket, CB.Gate(cfg.breaker, c.breaker, a.granted).0, a.granted,
           map[id := if a.gate.Admitted? then InFlight(k) else Ended(Some(Refused(a.gate)))])
  }

  lemma SleepIsARun(cfg: Config, c: Client, id: nat, k: nat, net: Net)
    requires net.oversleep >= 0.0 && RL.Avail(cfg.rate, c.bucket, c.now) < 1.0
    ensures var s, ms := Single(c, id, Queued(k)), GrantMoves(cfg, c, id, net);
            IsRun(cfg, s, ms) && Run(cfg, s, ms) == SingleGranted(cfg, c, id, k, AttemptOnce(cfg, c, net))
  {
    hide RL.Avail, RL.TimeFor, Run, IsRun, CB.Gate, CB.CallAlone, Sent, Log;
    var s := Single(c, id, Queued(k));
    RL.TimeForInverse(cfg.rate, 1.0 - RL.Avail(cfg.rate, c.bucket, c.now));
    var wait := Wait(RL.SleepFor(cfg.rate, c.bucket, c.now) + net.oversleep);
    TwoMoves(cfg, s, Turn(id), wait);
    RunThenMove(cfg, s, [Turn(id)] + [wait], Wake(id));
  }

  lemma GrantIsARun(cfg: Config, c: Client, id: nat, k: nat, net: Net)
    requires net.oversleep >= 0.0
    ensures var s, ms := Single(c, id, Queued(k)), GrantMoves(cfg, c, id, net);
            IsRun(cfg, s, ms) && Run(cfg, s, ms) == SingleGranted(cfg, c, id, k, AttemptOnce(cfg, c, net))
  {
    hide RL.Avail, RL.TimeFor, Run, IsRun, CB.Gate, CB.CallAlone, Sent, Log;
    if RL.Avail(cfg.rate, c.bucket, c.now) < 1.0 {
      SleepIsARun(cfg, c, id, k, net);
    } else {
      OneMove(cfg, Single(c, id, Queued(k)), Turn(id));
    }
  }

  lemma AttemptIsARun(cfg: Config, c: Client, id: nat, k: nat, net: Net)
    requires net.oversleep >= 0.0 && net.took >= 0.0
    ensures var s, ms, a := Single(c, id, Queued(k)), AttemptMoves(cfg, c, id, net), AttemptOnce(cfg, c, net);
            IsRun(cfg, s, ms) && Run(cfg, s, ms) == Single(a.after, id, AfterAnswer(k, a.outcome, a.after.now))
  {
    hide RL.TurnAt, RL.Acquired, Run, IsRun, GrantMoves, Backoff, Classify;
    var s, grant := Single(c, id, Queued(k)), GrantMoves(cfg, c, id, net);
    GrantIsARun(cfg, c, id, k, net);
    if AttemptOnce(cfg, c, net).gate.Admitted? {
      TwoMoves(cfg, Run(cfg, s, grant), Wait(net.took), Answer(id, net.reply));
      RunConcat(cfg, s, grant, [Wait(net.took)] + [Answer(id, net.reply)]);
    } else {
      assert grant + [] == grant;
    }
  }

  lemma PauseIsARun(cfg: Config, c: Client, id: nat, k: nat)
    ensures var s, ms := Single(c, id, Pausing(k, c.now + Backoff(k))), [Wait(Backoff(k))] + [Resume(id)];
            IsRun(cfg, s, ms) && Run(cfg, s, ms) == Single(c.(now := c.now + Backoff(k)), id, Queued(k + 1))
  {
    hide Backoff, Run, IsRun;
    BackoffPositive(k);
    TwoMoves(cfg, Single(c, id, Pausing(k, c.now + Backoff(k))), Wait(Backoff(k)), Resume(id));
  }

  /** A fetch that nothing interrupts is one of these runs, so all that holds of them holds of it. */
  lemma {:induction false} FetchIsARun(cfg: Config, c: Client, id: nat, nets: seq<Net>, k: nat)
    requires nets != [] && k + |nets| == MAX_ATTEMPTS + 1 && Timed(nets)
    ensures var s, ms, log := Single(c, id, Queued(k)), FetchMoves(cfg, c, id, nets, k), Attempts(cfg, c, nets, k);
            && log != [] && IsRun(cfg, s, ms)
            && Run(cfg, s, ms) == Single(Last(c, log), id, Ended(Some(log[|log| - 1].outcome)))
    decreases |nets|
  {
    hide AttemptOnce, AttemptMoves, Run, IsRun, Retryable, Backoff, Single, Sent, Log;
    var s, a, first := Single(c, id, Queued(k)), AttemptOnce(cfg, c, nets[0]), AttemptMoves(cfg, c, id, nets[0]);
    AttemptIsARun(cfg, c, id, k, nets[0]);
    if Retryable(a.outcome) && |nets| > 1 {
      var c', pause := a.after.(now := a.after.now + Backoff(k)), [Wait(Backoff(k))] + [Resume(id)];
      PauseIsARun(cfg, a.after, id, k);
      assert Run(cfg, s, first) == Single(a.after, id, Pausing(k, a.after.now + Backoff(k)));
      RunConcat(cfg, s, first, pause);
      FetchIsARun(cfg, c', id, nets[1..], k + 1);
      var rest := FetchMoves(cfg, c', id, nets[1..], k + 1);
      RunConcat(cfg, s, first + pause, rest);
      assert first + (pause + rest) == first + pause + rest;
    } else {
      assert first + [] == first;
    }
  }
}
