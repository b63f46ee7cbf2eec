/**
  The three-state circuit breaker.

  `call` takes its lock twice, once at the gate and once to report, and lets it go while the
  request runs.  Every run of the breaker is therefore an interleaving of atomic gate and report
  steps over a set of calls in flight; `World`, `Event` and `Run` say exactly that.
*/
module CircuitBreaker {
  import opened Prelude

  datatype CircuitState = Closed | Open | HalfOpen

  datatype Config = Config(failMax: int, resetTimeout: real)

  /** The three fields that `call`, `_on_success` and `_on_failure` assign. */
  datatype Breaker = Breaker(state: CircuitState, failCount: nat, openedAt: Option<real>)

  /** `AssertionFailed`: the gate asserts that an OPEN breaker has an opening time. */
  datatype GateResult = Admitted | Rejected | AssertionFailed

  const INITIAL := Breaker(Closed, 0, None)

  // ---------- the three atomic steps ----------

  function Gate(cfg: Config, b: Breaker, now: real): (Breaker, GateResult)
  {
    if !b.state.Open? then (b, Admitted)
    else if b.openedAt.None? then (b, AssertionFailed)
    else if now - b.openedAt.value >= cfg.resetTimeout then (b.(state := HalfOpen), Admitted)
    else (b, Rejected)
  }

  function OnSuccess(b: Breaker): Breaker
  {
    Breaker(if b.state.HalfOpen? then Closed else b.state, 0, None)
  }

  function OnFailure(cfg: Config, b: Breaker, now: real): Breaker
  {
    var n := b.failCount + 1;
    if b.state.HalfOpen? || n >= cfg.failMax then Breaker(Open, n, Some(now)) else b.(failCount := n)
  }

  // ---------- the object ----------

  /** How the wrapped coroutine ends. Cancellation is not an `Exception`, so it is never reported. */
  datatype Ending = Returns | Raises | IsCancelled

  class AsyncCircuitBreaker {
    const cfg: Config
    var state: CircuitState
    var failCount: nat
    var openedAt: Option<real>

    function Fields(): Breaker
      reads this
    {
      Breaker(state, failCount, openedAt)
    }

    constructor (failMax: int, resetTimeout: real)
      ensures cfg == Config(failMax, resetTimeout) && Fields() == INITIAL
    {
      cfg := Config(failMax, resetTimeout);
      state, failCount, openedAt := Closed, 0, None;
    }

    /** The first critical section of `call`. */
    method Enter(now: real) returns (r: GateResult)
      modifies this
      ensures (Fields(), r) == Gate(cfg, old(Fields()), now)
    {
      if state == Open {
        if openedAt.None? {
          return AssertionFailed;
        }
        if now - openedAt.value >= cfg.resetTimeout {
          state := HalfOpen;
        } else {
          return Rejected;
        }
      }
      r := Admitted;
    }

    method ReportSuccess()
      modifies this
      ensures Fields() == OnSuccess(old(Fields()))
    {
      if state == HalfOpen {
        state := Closed;
      }
      failCount := 0;
      openedAt := None;
    }

    method ReportFailure(now: real)
      modifies this
      ensures Fields() == OnFailure(cfg, old(Fields()), now)
    {
      failCount := failCount + 1;
      if state == HalfOpen || failCount >= cfg.failMax {
        state := Open;
        openedAt := Some(now);
      }
    }

    /** One whole `call` that no other call overlaps. */
    method Call(now: real, ending: Ending, doneAt: real) returns (r: GateResult)
      modifies this
      ensures r == Gate(cfg, old(Fields()), now).1
      ensures Fields() == CallAlone(cfg, old(Fields()), now, ending, doneAt)
    {
      r := Enter(now);
      if r.Admitted? {
        match ending
        case Returns => ReportSuccess();
        case Raises => ReportFailure(doneAt);
        case IsCancelled =>
      }
    }
  }

  function CallAlone(cfg: Config, b: Breaker, now: real, ending: Ending, doneAt: real): Breaker
  {
    var (b', r) := Gate(cfg, b, now);
    if !r.Admitted? || ending.IsCancelled? then b'
    else if ending.Returns? then OnSuccess(b')
    else OnFailure(cfg, b', doneAt)
  }

  // ---------- interleaved runs ----------

  /** The breaker, the monotonic clock, and the calls admitted but not yet reported. */
  datatype World = World(b: Breaker, now: real, pending: set<nat>)

  datatype Event =
    | Arrive(call: nat)
    | Succeed(call: nat)
    | Fail(call: nat)
    | Cancel(call: nat)
    | Advance(dt: real)

  predicate Enabled(w: World, e: Event)
  {
    match e
    case Arrive(c) => c !in w.pending
    case Advance(dt) => dt >= 0.0
    case _ => e.call in w.pending
  }

  predicate AdmittedBy(cfg: Config, w: World, e: Event)
  {
    e.Arrive? && Gate(cfg, w.b, w.now).1.Admitted?
  }

  function Apply(cfg: Config, w: World, e: Event): World
  {
    match e
    case Arrive(c) =>
      World(Gate(cfg, w.b, w.now).0, w.now, if AdmittedBy(cfg, w, e) then w.pending + {c} else w.pending)
    case Succeed(c) => World(OnSuccess(w.b), w.now, w.pending - {c})
    case Fail(c) => World(OnFailure(cfg, w.b, w.now), w.now, w.pending - {c})
    case Cancel(c) => w.(pending := w.pending - {c})
    case Advance(dt) => w.(now := w.now + dt)
  }

  function Run(cfg: Config, w: World, es: seq<Event>): World
  {
    if es == [] then w else Apply(cfg, Run(cfg, w, es[..|es| - 1]), es[|es| - 1])
  }

  predicate IsRun(cfg: Config, w: World, es: seq<Event>)
  {
    es == [] ||
    (IsRun(cfg, w, es[..|es| - 1]) && Enabled(Run(cfg, w, es[..|es| - 1]), es[|es| - 1]))
  }

  /** How many arrivals of the run are let through. */
  function Admissions(cfg: Config, w: World, es: seq<Event>): nat
  {
    if es == [] then 0
    else
      var pre := es[..|es| - 1];
      Admissions(cfg, w, pre) + (if AdmittedBy(cfg, Run(cfg, w, pre), es[|es| - 1]) then 1 else 0)
  }

  function Start(t0: real): World
  {
    World(INITIAL, t0, {})
  }

  /** The reports of a run in the order they are made: `true` for a success. */
  function Completions(es: seq<Event>): seq<bool>
  {
    if es == [] then []
    else
      var e := es[|es| - 1];
      Completions(es[..|es| - 1]) + (if e.Succeed? then [true] else if e.Fail? then [false] else [])
  }

  lemma {:induction false} RunConcat(cfg: Config, w: World, a: seq<Event>, b: seq<Event>)
    ensures Run(cfg, w, a + b) == Run(cfg, Run(cfg, w, a), b)
    ensures IsRun(cfg, w, a + b) <==> IsRun(cfg, w, a) && IsRun(cfg, Run(cfg, w, a), b)
    ensures Admissions(cfg, w, a + b) == Admissions(cfg, w, a) + Admissions(cfg, Run(cfg, w, a), b)
  {
    if b == [] {
      assert a + b == a;
    } else {
      RunConcat(cfg, w, a, b[..|b| - 1]);
      assert (a + b)[..|a + b| - 1] == a + b[..|b| - 1];
    }
  }

  lemma RunCons(cfg: Config, w: World, e: Event, es: seq<Event>)
    ensures Run(cfg, w, [e] + es) == Run(cfg, Apply(cfg, w, e), es)
    ensures IsRun(cfg, w, [e] + es) <==> Enabled(w, e) && IsRun(cfg, Apply(cfg, w, e), es)
    ensures Admissions(cfg, w, [e] + es) ==
            (if AdmittedBy(cfg, w, e) then 1 else 0) + Admissions(cfg, Apply(cfg, w, e), es)
  {
    assert [e][..0] == [];
    RunConcat(cfg, w, [e], es);
  }

  // ---------- what every interleaving keeps ----------

  ghost predicate Inv(cfg: Config, w: World)
  {
    && (w.b.openedAt.Some? ==> w.b.openedAt.value <= w.now)
    && (w.b.state.Closed? ==> w.b.openedAt.None?)
    && (w.b.state.HalfOpen? ==> w.b.openedAt.Some? && w.now >= w.b.openedAt.value + cfg.resetTimeout)
    && (w.b.openedAt.None? ==> w.b.failCount == 0 || w.b.failCount < cfg.failMax)
  }

  lemma StartKeepsInv(cfg: Config, t0: real)
    ensures Inv(cfg, Start(t0))
  {
  }

  lemma InvStep(cfg: Config, w: World, e: Event)
    requires Inv(cfg, w) && Enabled(w, e)
    ensures Inv(cfg, Apply(cfg, w, e))
  {
  }

  lemma CountStep(cfg: Config, w: World, e: Event)
    ensures Apply(cfg, w, e).b.failCount ==
            if e.Succeed? then 0 else if e.Fail? then w.b.failCount + 1 else w.b.failCount
  {
  }

  /** Whatever the interleaving, the counter is the trailing run of failures in completion order. */
  lemma {:induction false} EveryRunKeepsInv(cfg: Config, t0: real, es: seq<Event>)
    requires IsRun(cfg, Start(t0), es)
    ensures Inv(cfg, Run(cfg, Start(t0), es))
    ensures Run(cfg, Start(t0), es).b.failCount == TrailingFailures(Completions(es))
  {
    if es == [] {
      StartKeepsInv(cfg, t0);
    } else {
      hide Apply, Inv, Enabled, TrailingFailures;
      var pre, e := es[..|es| - 1], es[|es| - 1];
      EveryRunKeepsInv(cfg, t0, pre);
      InvStep(cfg, Run(cfg, Start(t0), pre), e);
      CountStep(cfg, Run(cfg, Start(t0), pre), e);
      TrailingAppend(Completions(pre), e.Succeed?);
      assert Completions(pre) + [] == Completions(pre);
    }
  }

  // ---------- the breaker told from the history alone ----------

  /** The clock after a run that starts at `t0`. */
  function Clock(t0: real, es: seq<Event>): real
  {
    if es == [] then t0
    else
      var e := es[|es| - 1];
      Clock(t0, es[..|es| - 1]) + (if e.Advance? then e.dt else 0.0)
  }

  /** The clock when the last failure was reported. */
  function LastFailAt(t0: real, es: seq<Event>): real
  {
    if es == [] then t0
    else
      var pre := es[..|es| - 1];
      if es[|es| - 1].Fail? then Clock(t0, pre) else LastFailAt(t0, pre)
  }

  /** At least `fail_max` failures, and at least one, came in since the last success. */
  predicate Tripped(cfg: Config, es: seq<Event>)
  {
    var n := TrailingFailures(Completions(es));
    n > 0 && n >= cfg.failMax
  }

  /** Since the last report somebody arrived when the timeout after the last failure was over. */
  predicate Probed(cfg: Config, t0: real, es: seq<Event>)
  {
    es != [] &&
    var pre, e := es[..|es| - 1], es[|es| - 1];
    if e.Succeed? || e.Fail? then false
    else Probed(cfg, t0, pre) || (e.Arrive? && Clock(t0, pre) >= LastFailAt(t0, pre) + cfg.resetTimeout)
  }

  /** A success was reported while OPEN, and too few failures have come in since. */
  predicate Broken(cfg: Config, t0: real, es: seq<Event>)
  {
    es != [] &&
    var pre, e := es[..|es| - 1], es[|es| - 1];
    if e.Succeed? then Broken(cfg, t0, pre) || (Tripped(cfg, pre) && !Probed(cfg, t0, pre))
    else Broken(cfg, t0, pre) && !Tripped(cfg, es)
  }

  ghost predicate Told(cfg: Config, t0: real, es: seq<Event>, w: World)
  {
    && w.now == Clock(t0, es) >= LastFailAt(t0, es)
    && w.b.failCount == TrailingFailures(Completions(es))
    && w.b.openedAt == (if Tripped(cfg, es) then Some(LastFailAt(t0, es)) else None)
    && w.b.state == (if Tripped(cfg, es) then (if Probed(cfg, t0, es) then HalfOpen else Open)
                     else if Broken(cfg, t0, es) then Open else Closed)
    && (Tripped(cfg, es) && Probed(cfg, t0, es) ==> w.now >= LastFailAt(t0, es) + cfg.resetTimeout)
    && (Tripped(cfg, es) ==> !Broken(cfg, t0, es))
  }

  lemma CompletionsSnoc(es: seq<Event>, e: Event)
    ensures TrailingFailures(Completions(es + [e])) ==
            if e.Succeed? then 0
            else TrailingFailures(Completions(es)) + (if e.Fail? then 1 else 0)
  {
    assert (es + [e])[..|es|] == es;
    TrailingAppend(Completions(es), e.Succeed?);
    assert Completions(es) + [] == Completions(es);
  }

  lemma ToldStep(cfg: Config, t0: real, es: seq<Event>, w: World, e: Event)
    requires Told(cfg, t0, es, w) && Enabled(w, e)
    ensures Told(cfg, t0, es + [e], Apply(cfg, w, e))
  {
    hide Completions, TrailingFailures;
    CompletionsSnoc(es, e);
    assert (es + [e])[..|es|] == es;
  }

  /**
    In every interleaving the whole breaker is told by its history: an opening time exactly while the failures
    since the last success reach the limit, and then that of the last failure; HALF_OPEN from the first arrival
    after the timeout until the next report.
  */
  lemma {:induction false} ToldFromHistory(cfg: Config, t0: real, es: seq<Event>)
    requires IsRun(cfg, Start(t0), es)
    ensures Told(cfg, t0, es, Run(cfg, Start(t0), es))
  {
    if es != [] {
      hide Told, Apply, Enabled;
      var pre, e := es[..|es| - 1], es[|es| - 1];
      ToldFromHistory(cfg, t0, pre);
      ToldStep(cfg, t0, pre, Run(cfg, Start(t0), pre), e);
      assert es == pre + [e];
    }
  }

  /**
    So the next arrival is let through exactly if, the limit being reached, the timeout since the last failure is
    over, or, the limit not being reached, no late success has broken the breaker.
  */
  lemma AdmittedExactly(cfg: Config, t0: real, es: seq<Event>, c: nat)
    requires IsRun(cfg, Start(t0), es)
    ensures AdmittedBy(cfg, Run(cfg, Start(t0), es), Arrive(c)) <==>
            if Tripped(cfg, es) then Clock(t0, es) >= LastFailAt(t0, es) + cfg.resetTimeout
            else !Broken(cfg, t0, es)
  {
    hide Tripped, Probed, Broken, Run, Clock, LastFailAt;
    ToldFromHistory(cfg, t0, es);
  }

  // ---------- the dead state ----------

  /** OPEN with no opening time: the gate's assertion fails for every caller. */
  predicate Dead(w: World)
  {
    w.b.state.Open? && w.b.openedAt.None?
  }

  /** The calls still in flight cannot bring the counter to `failMax`. */
  predicate CannotReopen(cfg: Config, w: World)
  {
    w.pending == {} || w.b.failCount + |w.pending| < cfg.failMax
  }

  /** Only a success reported while OPEN kills a live breaker, and it always does. */
  lemma DiesExactlyWhen(cfg: Config, t0: real, es: seq<Event>, e: Event)
    requires IsRun(cfg, Start(t0), es + [e])
    requires !Dead(Run(cfg, Start(t0), es))
    ensures Dead(Run(cfg, Start(t0), es + [e])) <==> e.Succeed? && Run(cfg, Start(t0), es).b.state.Open?
  {
    assert (es + [e])[..|es|] == es;
    EveryRunKeepsInv(cfg, t0, es);
  }

  /** So every dead breaker was killed by a call that was admitted earlier and succeeded late. */
  lemma {:induction false} DeadOnlyByLateSuccess(cfg: Config, t0: real, es: seq<Event>)
    requires IsRun(cfg, Start(t0), es) && Dead(Run(cfg, Start(t0), es))
    ensures exists i :: 0 <= i < |es| && es[i].Succeed? && Run(cfg, Start(t0), es[..i]).b.state.Open?
  {
    var pre := es[..|es| - 1];
    assert es == pre + [es[|pre|]];
    if Dead(Run(cfg, Start(t0), pre)) {
      DeadOnlyByLateSuccess(cfg, t0, pre);
      var i :| 0 <= i < |pre| && pre[i].Succeed? && Run(cfg, Start(t0), pre[..i]).b.state.Open?;
      assert es[..i] == pre[..i] && es[i] == pre[i];
    } else {
      DiesExactlyWhen(cfg, t0, pre, es[|pre|]);
      assert es[|pre|].Succeed? && Run(cfg, Start(t0), es[..|pre|]).b.state.Open?;
    }
  }

  lemma {:induction false} StaysDead(cfg: Config, w: World, es: seq<Event>)
    requires Dead(w) && CannotReopen(cfg, w) && IsRun(cfg, w, es)
    ensures Dead(Run(cfg, w, es)) && CannotReopen(cfg, Run(cfg, w, es))
    ensures Admissions(cfg, w, es) == 0
  {
    if es != [] {
      StaysDead(cfg, w, es[..|es| - 1]);
    }
  }

  /** A continuation that lets a call through: fail calls in flight until the breaker opens afresh, wait, retry. */
  lemma {:induction false} Revive(cfg: Config, w: World) returns (es: seq<Event>)
    requires Dead(w) && !CannotReopen(cfg, w)
    ensures IsRun(cfg, w, es) && Admissions(cfg, w, es) > 0
    decreases |w.pending|
  {
    var c :| c in w.pending;
    var w1 := Apply(cfg, w, Fail(c));
    var rest: seq<Event>;
    if w1.b.openedAt.None? {
      rest := Revive(cfg, w1);
    } else {
      var pause := Advance(if cfg.resetTimeout >= 0.0 then cfg.resetTimeout else 0.0);
      var w2 := Apply(cfg, w1, pause);
      assert AdmittedBy(cfg, w2, Arrive(c));
      RunCons(cfg, w2, Arrive(c), []);
      RunCons(cfg, w1, pause, [Arrive(c)]);
      rest := [pause] + [Arrive(c)];
    }
    RunCons(cfg, w, Fail(c), rest);
    es := [Fail(c)] + rest;
  }

  /** A dead breaker admits nobody, at any time, in any continuation, exactly when it cannot reopen. */
  lemma DeadForever(cfg: Config, w: World)
    requires Dead(w)
    ensures CannotReopen(cfg, w) <==> forall es :: IsRun(cfg, w, es) ==> Admissions(cfg, w, es) == 0
  {
    if CannotReopen(cfg, w) {
      forall es | IsRun(cfg, w, es)
        ensures Admissions(cfg, w, es) == 0
      {
        StaysDead(cfg, w, es);
      }
    } else {
      var es := Revive(cfg, w);
    }
  }

  /** A live breaker lets a call through in some continuation: at once, or after the timeout. */
  lemma LiveAdmitsSomebody(cfg: Config, w: World) returns (es: seq<Event>)
    requires !Dead(w)
    ensures IsRun(cfg, w, es) && Admissions(cfg, w, es) > 0
  {
    var c := AboveAll(w.pending);
    var pause := Advance(if w.b.state.Open? && w.b.openedAt.value + cfg.resetTimeout > w.now
                         then w.b.openedAt.value + cfg.resetTimeout - w.now else 0.0);
    var w' := Apply(cfg, w, pause);
    assert AdmittedBy(cfg, w', Arrive(c));
    RunCons(cfg, w', Arrive(c), []);
    RunCons(cfg, w, pause, [Arrive(c)]);
    es := [pause] + [Arrive(c)];
  }

  /** In any world at all, no continuation lets a call through exactly if the breaker is dead and cannot reopen. */
  lemma NobodyEverAdmittedExactly(cfg: Config, w: World)
    ensures (forall es :: IsRun(cfg, w, es) ==> Admissions(cfg, w, es) == 0) <==> Dead(w) && CannotReopen(cfg, w)
  {
    if Dead(w) {
      DeadForever(cfg, w);
    } else {
      var es := LiveAdmitsSomebody(cfg, w);
    }
  }

  /** The run passes through a dead state. */
  ghost predicate DiesSomewhere(cfg: Config, t0: real, es: seq<Event>)
  {
    exists i :: 0 <= i <= |es| && Dead(Run(cfg, Start(t0), es[..i]))
  }

  /** The run reports a success while OPEN. */
  ghost predicate LateSuccess(cfg: Config, t0: real, es: seq<Event>)
  {
    exists i :: 0 <= i < |es| && es[i].Succeed? && Run(cfg, Start(t0), es[..i]).b.state.Open?
  }

  lemma {:induction false} PrefixIsRun(cfg: Config, w: World, es: seq<Event>, i: nat)
    requires IsRun(cfg, w, es) && i <= |es|
    ensures IsRun(cfg, w, es[..i])
  {
    if i == |es| {
      assert es[..i] == es;
    } else {
      PrefixIsRun(cfg, w, es[..|es| - 1], i);
      assert es[..|es| - 1][..i] == es[..i];
    }
  }

  lemma LateSuccessKills(cfg: Config, t0: real, es: seq<Event>, i: nat)
    requires i < |es| && es[i].Succeed? && Run(cfg, Start(t0), es[..i]).b.state.Open?
    ensures Dead(Run(cfg, Start(t0), es[..i + 1]))
  {
    assert es[..i + 1][..i] == es[..i];
  }

  /** A run dies somewhere exactly if a success is reported while OPEN. */
  lemma DiesExactlyByLateSuccess(cfg: Config, t0: real, es: seq<Event>)
    requires IsRun(cfg, Start(t0), es)
    ensures DiesSomewhere(cfg, t0, es) <==> LateSuccess(cfg, t0, es)
  {
    hide Run, IsRun, Dead;
    if DiesSomewhere(cfg, t0, es) {
      var n :| 0 <= n <= |es| && Dead(Run(cfg, Start(t0), es[..n]));
      PrefixIsRun(cfg, Start(t0), es, n);
      DeadOnlyByLateSuccess(cfg, t0, es[..n]);
      var i :| 0 <= i < n && es[..n][i].Succeed? && Run(cfg, Start(t0), es[..n][..i]).b.state.Open?;
      assert es[..n][..i] == es[..i] && es[i].Succeed?;
    }
    if LateSuccess(cfg, t0, es) {
      var i :| 0 <= i < |es| && es[i].Succeed? && Run(cfg, Start(t0), es[..i]).b.state.Open?;
      LateSuccessKills(cfg, t0, es, i);
    }
  }

  function Arrivals(n: nat): seq<Event>
  {
    if n == 0 then [] else Arrivals(n - 1) + [Arrive(n - 1)]
  }

  function Failures(n: nat): seq<Event>
  {
    if n == 0 then [] else Failures(n - 1) + [Fail(n - 1)]
  }

  lemma {:induction false} ArrivalsRun(cfg: Config, t0: real, n: nat)
    ensures IsRun(cfg, Start(t0), Arrivals(n))
    ensures var w := Run(cfg, Start(t0), Arrivals(n));
            w.b == INITIAL && w.now == t0 && forall c: nat :: c in w.pending <==> c < n
  {
    if n > 0 {
      ArrivalsRun(cfg, t0, n - 1);
      assert Arrivals(n)[..|Arrivals(n)| - 1] == Arrivals(n - 1);
    }
  }

  lemma {:induction false} FailuresRun(cfg: Config, w: World, m: nat, n: nat)
    requires w.b == INITIAL && forall c: nat :: c in w.pending <==> c < n
    requires m < n && (m <= 1 || m <= cfg.failMax)
    ensures IsRun(cfg, w, Failures(m))
    ensures var w' := Run(cfg, w, Failures(m));
            && w'.now == w.now
            && (forall c: nat :: c in w'.pending <==> m <= c < n)
            && w'.b == (if m > 0 && m >= cfg.failMax then Breaker(Open, m, Some(w.now)) else Breaker(Closed, m, None))
  {
    if m > 0 {
      FailuresRun(cfg, w, m - 1, n);
      assert Failures(m)[..|Failures(m)| - 1] == Failures(m - 1);
    }
  }

  /** For every configuration some run from the initial state is dead for good: the docstring's recovery fails. */
  lemma DeadForGoodIsReachable(cfg: Config, t0: real) returns (es: seq<Event>)
    ensures IsRun(cfg, Start(t0), es)
    ensures Dead(Run(cfg, Start(t0), es)) && CannotReopen(cfg, Run(cfg, Start(t0), es))
  {
    hide Run, IsRun, Arrivals, Failures;
    var m: nat := if cfg.failMax >= 1 then cfg.failMax else 1;
    ArrivalsRun(cfg, t0, m + 1);
    FailuresRun(cfg, Run(cfg, Start(t0), Arrivals(m + 1)), m, m + 1);
    var tripped := Arrivals(m + 1) + Failures(m);
    RunConcat(cfg, Start(t0), Arrivals(m + 1), Failures(m));
    es := tripped + [Succeed(m)];
    RunSnoc(cfg, Start(t0), tripped, Succeed(m));
    assert Run(cfg, Start(t0), es).pending == {};
  }

  /** HALF_OPEN is no single probe: it admits every caller that arrives, however many. */
  lemma {:induction false} HalfOpenAdmitsEveryone(cfg: Config, w: World, calls: seq<nat>)
    requires w.b.state.HalfOpen?
    requires forall i :: 0 <= i < |calls| ==> calls[i] !in w.pending
    requires forall i, j :: 0 <= i < j < |calls| ==> calls[i] != calls[j]
    ensures var es := seq(|calls|, i requires 0 <= i < |calls| => Arrive(calls[i]));
            && IsRun(cfg, w, es) && Admissions(cfg, w, es) == |calls|
            && Run(cfg, w, es) == w.(pending := w.pending + set i | 0 <= i < |calls| :: calls[i])
  {
    var es := seq(|calls|, i requires 0 <= i < |calls| => Arrive(calls[i]));
    if calls == [] {
      assert es == [];
    } else {
      var pre := calls[..|calls| - 1];
      HalfOpenAdmitsEveryone(cfg, w, pre);
      var esPre := seq(|pre|, i requires 0 <= i < |pre| => Arrive(pre[i]));
      assert es[..|es| - 1] == esPre;
      assert (set i | 0 <= i < |calls| :: calls[i]) == (set i | 0 <= i < |pre| :: pre[i]) + {calls[|pre|]};
    }
  }

  // ---------- calls that do not overlap ----------

  /** No call arrives while another is in flight. */
  predicate Serial(cfg: Config, w: World, es: seq<Event>)
  {
    es == [] ||
    (Serial(cfg, w, es[..|es| - 1]) && (es[|es| - 1].Arrive? ==> Run(cfg, w, es[..|es| - 1]).pending == {}))
  }

  lemma RunSnoc(cfg: Config, w: World, es: seq<Event>, e: Event)
    ensures Run(cfg, w, es + [e]) == Apply(cfg, Run(cfg, w, es), e)
    ensures IsRun(cfg, w, es + [e]) <==> IsRun(cfg, w, es) && Enabled(Run(cfg, w, es), e)
    ensures Serial(cfg, w, es + [e]) <==> Serial(cfg, w, es) && (e.Arrive? ==> Run(cfg, w, es).pending == {})
    ensures Admissions(cfg, w, es + [e]) ==
            Admissions(cfg, w, es) + (if AdmittedBy(cfg, Run(cfg, w, es), e) then 1 else 0)
  {
    assert (es + [e])[..|es|] == es;
  }

  /** The steps of one call that nothing overlaps. */
  function CallEvents(cfg: Config, w: World, c: nat, ending: Ending, took: real): seq<Event>
  {
    if !AdmittedBy(cfg, w, Arrive(c)) then [Arrive(c)]
    else
      var report := if ending.Returns? then Succeed(c) else if ending.Raises? then Fail(c) else Cancel(c);
      [Arrive(c)] + [Advance(took)] + [report]
  }

  /** `Call` on the object is such a serial run, so everything proved of runs holds of it. */
  lemma CallIsASerialRun(cfg: Config, w: World, c: nat, ending: Ending, took: real)
    requires w.pending == {} && took >= 0.0
    ensures var es := CallEvents(cfg, w, c, ending, took);
            && IsRun(cfg, w, es) && Serial(cfg, w, es)
            && Run(cfg, w, es).pending == {}
            && Run(cfg, w, es).b == CallAlone(cfg, w.b, w.now, ending, w.now + took)
  {
    var es := CallEvents(cfg, w, c, ending, took);
    RunSnoc(cfg, w, [], Arrive(c));
    if AdmittedBy(cfg, w, Arrive(c)) {
      RunSnoc(cfg, w, [Arrive(c)], Advance(took));
      RunSnoc(cfg, w, [Arrive(c)] + [Advance(took)], es[2]);
    }
    assert w.pending + {c} - {c} == {};
  }

  ghost predicate SerialInv(w: World)
  {
    && (w.b.state.Closed? <==> w.b.openedAt.None?)
    && (w.b.state.Open? ==> w.pending == {})
    && |w.pending| <= 1
  }

  /** Without overlap CLOSED means exactly "no opening time", and the gate's assertion never fails. */
  lemma {:induction false} SerialRunsNeverDie(cfg: Config, t0: real, es: seq<Event>)
    requires IsRun(cfg, Start(t0), es) && Serial(cfg, Start(t0), es)
    ensures SerialInv(Run(cfg, Start(t0), es))
    ensures !Dead(Run(cfg, Start(t0), es))
  {
    if es != [] {
      SerialRunsNeverDie(cfg, t0, es[..|es| - 1]);
      var w := Run(cfg, Start(t0), es[..|es| - 1]);
      forall c | c in w.pending
        ensures w.pending - {c} == {}
      {
        assert |w.pending - {c}| == 0;
      }
    }
  }

  predicate OnlyFails(es: seq<Event>)
  {
    forall i :: 0 <= i < |es| ==> !es[i].Succeed? && !es[i].Cancel?
  }

  /** Where a serial run of failures stands once `earliest` is the earliest time of its last admission. */
  predicate Probing(w: World, earliest: real)
  {
    && |w.pending| <= 1
    && (if w.pending == {} then w.b.state.Open? && w.b.openedAt.Some? && w.now >= w.b.openedAt.value >= earliest
        else w.b.state.HalfOpen? && w.now >= earliest)
  }

  lemma ProbingStep(cfg: Config, w: World, e: Event, earliest: real)
    requires Probing(w, earliest) && Enabled(w, e) && !e.Succeed? && !e.Cancel?
    requires e.Arrive? ==> w.pending == {}
    ensures Probing(Apply(cfg, w, e), if AdmittedBy(cfg, w, e) then earliest + cfg.resetTimeout else earliest)
  {
    if e.Fail? {
      assert |w.pending - {e.call}| == 0;
    }
  }

  /** `k` times the timeout, by addition. */
  function Timeouts(cfg: Config, k: nat): (d: real)
    ensures d == k as real * cfg.resetTimeout
  {
    if k == 0 then 0.0 else Timeouts(cfg, k - 1) + cfg.resetTimeout
  }

  /**
    Under continuing failure the k-th call let through after an opening at `o` comes no earlier than
    `o + k * resetTimeout`: take `es` to end with that call's arrival, after which a call is pending.
  */
  lemma {:induction false} ProbePacing(cfg: Config, w: World, es: seq<Event>, o: real)
    requires w.b.state.Open? && w.b.openedAt == Some(o) && w.pending == {} && o <= w.now
    requires IsRun(cfg, w, es) && Serial(cfg, w, es) && OnlyFails(es)
    ensures Probing(Run(cfg, w, es), o + Timeouts(cfg, Admissions(cfg, w, es)))
  {
    if es != [] {
      var pre, e := es[..|es| - 1], es[|es| - 1];
      assert OnlyFails(pre) && !e.Succeed? && !e.Cancel?;
      ProbePacing(cfg, w, pre, o);
      ProbingStep(cfg, Run(cfg, w, pre), e, o + Timeouts(cfg, Admissions(cfg, w, pre)));
    }
  }

  /** How many failures a run reports. */
  function FailReports(es: seq<Event>): nat
  {
    if es == [] then 0 else FailReports(es[..|es| - 1]) + (if es[|es| - 1].Fail? then 1 else 0)
  }

  /**
    From CLOSED with a clear count, in any interleaving that reports no success, the breaker is CLOSED
    exactly while fewer than `failMax` failures are in (and any first failure counts as one).
  */
  lemma {:induction false} ClosedExactlyBelowFailMax(cfg: Config, w: World, es: seq<Event>)
    requires w.b.state.Closed? && w.b.failCount == 0
    requires IsRun(cfg, w, es)
    requires forall i :: 0 <= i < |es| ==> !es[i].Succeed?
    ensures var w' := Run(cfg, w, es);
            && (w'.b.state.Closed? <==> FailReports(es) == 0 || FailReports(es) < cfg.failMax)
            && w'.b.failCount == FailReports(es)
  {
    if es != [] {
      ClosedExactlyBelowFailMax(cfg, w, es[..|es| - 1]);
    }
  }

  /** One success on a probe restores CLOSED with the full budget of failures. */
  lemma ProbeSuccessRestoresBudget(cfg: Config, w: World, probe: nat, es: seq<Event>)
    requires w.b.state.HalfOpen? && probe in w.pending
    requires IsRun(cfg, w, [Succeed(probe)] + es)
    requires forall i :: 0 <= i < |es| ==> !es[i].Succeed?
    ensures Apply(cfg, w, Succeed(probe)).b == INITIAL
    ensures Run(cfg, w, [Succeed(probe)] + es).b.state.Closed? <==>
            FailReports(es) == 0 || FailReports(es) < cfg.failMax
  {
    RunCons(cfg, w, Succeed(probe), es);
    ClosedExactlyBelowFailMax(cfg, Apply(cfg, w, Succeed(probe)), es);
  }
}
