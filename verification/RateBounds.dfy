/**
  How many grants a token bucket gives in a window of time: the bound its documentation suggests, the
  bound it keeps, and exactly when it keeps each.
*/
module RateBounds {
  import opened RateLimiter

  // ---------- the nominal bound: capacity + refill * elapsed ----------

  /** What the documented rate allows up to `hi`: the tokens on hand and the refill to come. */
  function Nominal(p: Params, b: Bucket, t: real, hi: real): real
  {
    Avail(p, b, t) + Refilled(p, hi - t)
  }

  lemma NominalBounds(p: Params, b: Bucket, t: real, lo: real, hi: real)
    requires Inv(p, b, t) && lo <= t <= hi
    ensures 0.0 <= Nominal(p, b, t, hi) <= p.capacity + Refilled(p, hi - lo)
  {
    hide Refilled;
    AvailBounds(p, b, t);
    RefilledZero(p);
    RefilledMono(p, 0.0, hi - t);
    RefilledMono(p, hi - t, hi - lo);
  }

  lemma NominalAfterWait(p: Params, b: Bucket, t: real, turn: real, hi: real)
    requires t <= turn
    ensures Nominal(p, b, turn, hi) <= Nominal(p, b, t, hi)
  {
    hide Refilled;
    RefilledSplit(p, b.last, t, turn);
    RefilledSplit(p, t, turn, hi);
    RefilledZero(p);
    RefilledMono(p, 0.0, turn - t);
  }

  /** A grant is paid for at the documented rate exactly when it finds a token on hand; a sleep is not. */
  lemma NominalCostExactly(p: Params, b: Bucket, t: real, hi: real)
    requires Inv(p, b, t)
    ensures 1.0 + Nominal(p, Acquired(p, b, t), ExactTurn(p, b, t).Done(), hi) <= Nominal(p, b, t, hi)
            <==> Avail(p, b, t) >= 1.0
  {
    hide Refilled, TimeFor, Avail, Acquired, SleepFor;
    AvailBounds(p, b, t);
    if Avail(p, b, t) >= 1.0 {
      InstantGrant(p, b, t);
    } else {
      SleptGrant(p, b, t);
      RefilledSplit(p, t, ExactTurn(p, b, t).Done(), hi);
      TimeForInverse(p, 1.0 - Avail(p, b, t));
      assert ExactTurn(p, b, t).Done() - t == TimeFor(p, 1.0 - Avail(p, b, t));
    }
  }

  /** A turn that does not sleep for its token. */
  predicate Unslept(g: Turn)
  {
    g.granted ==> g.slept == 0.0
  }

  lemma NominalAfterTurn(p: Params, b: Bucket, g: Turn, hi: real)
    requires Inv(p, b, g.arrive) && IsTurn(p, b, g.arrive, g) && Unslept(g)
    ensures (if g.granted then 1.0 else 0.0) + Nominal(p, AfterTurn(p, b, g), g.Done(), hi) <=
            Nominal(p, b, g.arrive, hi)
  {
    hide Refilled, TimeFor;
    var a := Avail(p, b, g.arrive);
    RefilledSplit(p, g.arrive, g.Done(), hi);
    RefilledZero(p);
    SleepIsPositive(p, b, g.arrive);
  }

  lemma SleepIsPositive(p: Params, b: Bucket, t: real)
    ensures Avail(p, b, t) < 1.0 <==> SleepFor(p, b, t) > 0.0
  {
  }

  lemma {:induction false} NominalUpTo(p: Params, b: Bucket, free: real, gs: seq<Turn>, lo: real, hi: real)
    requires Inv(p, b, free) && IsRun(p, b, free, gs) && lo <= free <= hi
    requires forall i :: 0 <= i < |gs| && lo <= gs[i].Done() <= hi ==> Unslept(gs[i])
    ensures GrantsIn(gs, lo, hi) as real <= Nominal(p, b, free, hi)
    decreases |gs|
  {
    hide Nominal, Avail, SleepFor, AfterTurn;
    NominalBounds(p, b, free, free, hi);
    if gs != [] {
      var g := gs[0];
      TurnKeepsInv(p, b, free, g);
      if g.Done() <= hi {
        NominalUpTo(p, AfterTurn(p, b, g), g.Done(), gs[1..], lo, hi);
        NominalAfterWait(p, b, free, g.arrive, hi);
        NominalAfterTurn(p, b, g, hi);
      } else {
        NoGrantsAfter(p, AfterTurn(p, b, g), g.Done(), gs[1..], lo, hi);
      }
    }
  }

  /** Any window whose grants all found a token on hand keeps to the documented `capacity + refill * elapsed`. */
  lemma {:induction false} NominalWindow(p: Params, b: Bucket, free: real, gs: seq<Turn>, lo: real, hi: real)
    requires Inv(p, b, free) && IsRun(p, b, free, gs) && lo <= hi
    requires forall i :: 0 <= i < |gs| && lo <= gs[i].Done() <= hi ==> Unslept(gs[i])
    ensures GrantsIn(gs, lo, hi) as real <= p.capacity + Refilled(p, hi - lo)
    decreases |gs|
  {
    hide Nominal, Avail, SleepFor, AfterTurn, Refilled;
    RefilledZero(p);
    RefilledMono(p, 0.0, hi - lo);
    if gs == [] {
    } else if hi < free {
      NoGrantsAfter(p, b, free, gs, lo, hi);
    } else if gs[0].arrive >= lo {
      var start := if free < lo then lo else free;
      if start <= hi {
        NominalUpTo(p, b, start, gs, lo, hi);
        NominalBounds(p, b, start, lo, hi);
      }
    } else {
      var g, b' := gs[0], AfterTurn(p, b, gs[0]);
      TurnKeepsInv(p, b, free, g);
      NominalWindow(p, b', g.Done(), gs[1..], lo, hi);
      assert lo <= g.Done() <= hi ==> !g.granted;
    }
  }

  lemma {:induction false} SecondSleeperExceeds(p: Params, b: Bucket, t: real, k: nat)
    requires Inv(p, b, t) && k as real > Avail(p, b, t) + 1.0
    ensures GrantsIn(Backlog(p, b, t, k), t, t + TimeFor(p, 1.0)) as real > Avail(p, b, t) + 1.0
    decreases k
  {
    hide Avail, SleepFor, Acquired, TimeFor;
    var g, b' := ExactTurn(p, b, t), Acquired(p, b, t);
    AvailBounds(p, b, t);
    assert Backlog(p, b, t, k)[1..] == Backlog(p, b', g.Done(), k - 1);
    if Avail(p, b, t) >= 1.0 {
      InstantGrant(p, b, t);
      TimeForInverse(p, 1.0);
      SecondSleeperExceeds(p, b', g.Done(), k - 1);
    } else {
      var h := ExactTurn(p, b', g.Done());
      assert Backlog(p, b', g.Done(), k - 1)[0] == h;
      SleptGrant(p, b, t);
      TwoGrantsPerInterval(p, b, t);
      TimeForInverse(p, 1.0 - Avail(p, b, t));
      TurnKeepsInv(p, b', g.Done(), h);
    }
  }

  /** A queue of `k` callers keeps to the documented rate at every moment. */
  ghost predicate QueueWithinNominal(p: Params, b: Bucket, t: real, k: nat)
  {
    forall hi :: t <= hi ==> GrantsIn(Backlog(p, b, t, k), t, hi) as real <= Nominal(p, b, t, hi)
  }

  /** It does so exactly when at most its last caller has to sleep, that is when all the others find a token on hand. */
  lemma QueueWithinNominalExactly(p: Params, b: Bucket, t: real, k: nat)
    requires Inv(p, b, t)
    ensures QueueWithinNominal(p, b, t, k) <==> k as real <= Avail(p, b, t) + 1.0
  {
    hide Avail, Refilled, TimeFor, Backlog;
    AvailBounds(p, b, t);
    if k as real <= Avail(p, b, t) + 1.0 {
      forall hi | t <= hi
        ensures GrantsIn(Backlog(p, b, t, k), t, hi) as real <= Nominal(p, b, t, hi)
      {
        QueueUpTo(p, b, t, k, hi);
      }
    } else {
      var hi := t + TimeFor(p, 1.0);
      SecondSleeperExceeds(p, b, t, k);
      TimeForInverse(p, 1.0);
      assert hi - t == TimeFor(p, 1.0);
      assert GrantsIn(Backlog(p, b, t, k), t, hi) as real > Nominal(p, b, t, hi);
    }
  }

  lemma QueueUpTo(p: Params, b: Bucket, t: real, k: nat, hi: real)
    requires Inv(p, b, t) && k as real <= Avail(p, b, t) + 1.0 && t <= hi
    ensures GrantsIn(Backlog(p, b, t, k), t, hi) as real <= Nominal(p, b, t, hi)
  {
    hide Avail, Refilled, TimeFor, Backlog, Served, GrantsIn;
    var a := Avail(p, b, t);
    AvailBounds(p, b, t);
    BacklogBefore(p, b, t, k, t, hi);
    RefilledZero(p);
    RefilledMono(p, 0.0, hi - t);
    if k as real > a {
      LastInLineWaits(p, b, t, k);
      if hi >= Served(p, b, t, k) {
        TimeForInverse(p, k as real - a);
        RefilledMono(p, TimeFor(p, k as real - a), hi - t);
      }
    }
  }

  // ---------- the bound that holds: capacity + 2 * refill * elapsed ----------

  /** What `n` whole tokens and a fraction `f` are worth when refill counts double: the fraction from a half on. */
  function Worth(n: int, f: real): real
  {
    n as real + (if f > 0.5 then 2.0 * f - 1.0 else 0.0)
  }

  /** What `x` tokens on hand are worth. */
  function Spendable(x: real): real
  {
    Worth(x.Floor, x - x.Floor as real)
  }

  lemma WorthSlope(m: int, e: real, n: int, f: real)
    requires 0.0 <= e < 1.0 && 0.0 <= f < 1.0 && m as real + e <= n as real + f
    ensures Worth(m, e) <= Worth(n, f) <= Worth(m, e) + 2.0 * (n as real + f - (m as real + e))
  {
    assert m <= n;
    assert m < n ==> m as real + 1.0 <= n as real;
  }

  lemma SpendableSlope(x: real, y: real)
    requires x <= y
    ensures Spendable(x) <= Spendable(y) <= Spendable(x) + 2.0 * (y - x)
  {
    WorthSlope(x.Floor, x - x.Floor as real, y.Floor, y - y.Floor as real);
  }

  lemma SpendableOf(x: real)
    ensures Spendable(x) <= x
    ensures Spendable(x - 1.0) == Spendable(x) - 1.0
  {
    assert (x - 1.0).Floor == x.Floor - 1;
  }

  /** A sleep for the missing part of a token pays for the token twice over, once in time and once in refill. */
  lemma SpendableSleep(a: real, after: real, slept: real)
    requires 0.0 <= a < 1.0 && slept >= 1.0 - a && after <= slept
    ensures 1.0 + Spendable(after) <= Spendable(a) + 2.0 * slept
  {
    assert a.Floor == 0;
    SpendableSlope(after, slept);
    SpendableSlope(1.0 - a, slept);
    assert a > 0.0 ==> (1.0 - a).Floor == 0;
  }

  /** A fraction of at most a half short of whole tokens is worth one token less. */
  lemma SpendableBelow(x: real, n: int)
    requires x <= n as real - 0.5
    ensures Spendable(x) <= n as real - 1.0
  {
    SpendableSlope(x, n as real - 0.5);
    assert (n as real - 0.5).Floor == n - 1;
  }

  /** What may still be granted up to `hi` by a bucket free from `t` on: tokens on hand, and twice the refill. */
  function Credit(p: Params, b: Bucket, t: real, hi: real): real
  {
    Spendable(Avail(p, b, t)) + 2.0 * Refilled(p, hi - t)
  }

  lemma CreditBounds(p: Params, b: Bucket, t: real, lo: real, hi: real)
    requires Inv(p, b, t) && lo <= t <= hi
    ensures 0.0 <= Credit(p, b, t, hi) <= Avail(p, b, t) + 2.0 * Refilled(p, hi - lo)
  {
    hide Refilled, Spendable;
    AvailBounds(p, b, t);
    SpendableZero();
    SpendableSlope(0.0, Avail(p, b, t));
    SpendableOf(Avail(p, b, t));
    RefilledZero(p);
    RefilledMono(p, 0.0, hi - t);
    RefilledMono(p, hi - t, hi - lo);
  }

  lemma SpendableZero()
    ensures Spendable(0.0) == 0.0
  {
  }

  /** Waiting for a turn gains no credit. */
  lemma CreditAfterWait(p: Params, b: Bucket, t: real, turn: real, hi: real)
    requires t <= turn
    ensures Credit(p, b, turn, hi) <= Credit(p, b, t, hi)
  {
    hide Refilled, Spendable;
    RefilledSplit(p, b.last, t, turn);
    RefilledSplit(p, t, turn, hi);
    RefilledZero(p);
    RefilledMono(p, 0.0, turn - t);
    SpendableSlope(Avail(p, b, t), Avail(p, b, turn));
  }

  /** A grant costs one token of credit, paid from the bucket or slept for; a cancelled sleep gains none. */
  lemma CreditAfterTurn(p: Params, b: Bucket, g: Turn, hi: real)
    requires Inv(p, b, g.arrive) && IsTurn(p, b, g.arrive, g)
    ensures (if g.granted then 1.0 else 0.0) + Credit(p, AfterTurn(p, b, g), g.Done(), hi) <= Credit(p, b, g.arrive, hi)
  {
    hide Refilled, TimeFor, Spendable;
    var a, b', slept := Avail(p, b, g.arrive), AfterTurn(p, b, g), Refilled(p, g.Done() - g.arrive);
    AvailBounds(p, b, g.arrive);
    RefilledSplit(p, g.arrive, g.Done(), hi);
    RefilledZero(p);
    if a >= 1.0 {
      SpendableOf(a);
      assert g.Done() - b'.last == 0.0;
    } else if g.granted {
      TimeForInverse(p, 1.0 - a);
      RefilledMono(p, TimeFor(p, 1.0 - a), g.Done() - g.arrive);
      SpendableSleep(a, Avail(p, b', g.Done()), slept);
    } else {
      RefilledMono(p, 0.0, g.Done() - g.arrive);
      SpendableSlope(a, Avail(p, b', g.Done()));
    }
  }

  /** From any state, the grants up to a moment are at most the tokens on hand plus twice the refill until then. */
  lemma {:induction false} GrantsUpTo(p: Params, b: Bucket, free: real, gs: seq<Turn>, lo: real, hi: real)
    requires Inv(p, b, free) && IsRun(p, b, free, gs) && free <= hi
    ensures GrantsIn(gs, lo, hi) as real <= Credit(p, b, free, hi)
    decreases |gs|
  {
    hide Credit, Avail, SleepFor, AfterTurn;
    CreditBounds(p, b, free, free, hi);
    if gs != [] {
      var g := gs[0];
      TurnKeepsInv(p, b, free, g);
      if g.Done() <= hi {
        GrantsUpTo(p, AfterTurn(p, b, g), g.Done(), gs[1..], lo, hi);
        CreditAfterWait(p, b, free, g.arrive, hi);
        CreditAfterTurn(p, b, g, hi);
      } else {
        NoGrantsAfter(p, AfterTurn(p, b, g), g.Done(), gs[1..], lo, hi);
      }
    }
  }

  /**
    A call sleeps across the opening of the window, and so long that more than `capacity - 1/2` tokens are
    on hand when it is granted.
  */
  predicate Oversleeps(p: Params, g: Turn, lo: real, hi: real)
  {
    g.granted && g.arrive < lo <= g.Done() <= hi && Refilled(p, g.slept) > p.capacity - 0.5
  }

  predicate OversleptInto(p: Params, gs: seq<Turn>, lo: real, hi: real)
  {
    exists i :: 0 <= i < |gs| && Oversleeps(p, gs[i], lo, hi)
  }

  lemma OversleptTail(p: Params, gs: seq<Turn>, lo: real, hi: real)
    requires gs != [] && OversleptInto(p, gs[1..], lo, hi)
    ensures OversleptInto(p, gs, lo, hi)
  {
    var i :| 0 <= i < |gs[1..]| && Oversleeps(p, gs[1..][i], lo, hi);
    assert gs[i + 1] == gs[1..][i];
  }

  /** The grants of a window that opens during the sleep of `g`. */
  lemma StraddledWindow(p: Params, b: Bucket, free: real, g: Turn, rest: seq<Turn>, lo: real, hi: real)
    requires Inv(p, b, free) && IsTurn(p, b, free, g) && g.arrive < lo <= g.Done() <= hi
    requires IsRun(p, AfterTurn(p, b, g), g.Done(), rest)
    ensures (if g.granted then 1.0 else 0.0) + GrantsIn(rest, lo, hi) as real <=
            p.capacity + 2.0 * Refilled(p, hi - lo) + (if Oversleeps(p, g, lo, hi) then 1.0 else 0.0)
  {
    hide Refilled, TimeFor, Spendable;
    var b' := AfterTurn(p, b, g);
    TurnKeepsInv(p, b, free, g);
    GrantsUpTo(p, b', g.Done(), rest, lo, hi);
    AvailBounds(p, b', g.Done());
    CreditBounds(p, b', g.Done(), lo, hi);
    if g.granted && !Oversleeps(p, g, lo, hi) {
      assert g.Done() - b'.last == g.slept;
      SpendableBelow(Avail(p, b', g.Done()), p.capacity.Floor);
      RefilledMono(p, hi - g.Done(), hi - lo);
    }
  }

  /**
    Between any two moments of any run there are at most `capacity + 2 * refill * elapsed` grants, and
    one more only if some call oversleeps into the window.
  */
  lemma {:induction false} WindowBound(p: Params, b: Bucket, free: real, gs: seq<Turn>, lo: real, hi: real)
    requires Inv(p, b, free) && IsRun(p, b, free, gs) && lo <= hi
    ensures GrantsIn(gs, lo, hi) as real <=
            p.capacity + 2.0 * Refilled(p, hi - lo) + (if OversleptInto(p, gs, lo, hi) then 1.0 else 0.0)
    decreases |gs|
  {
    hide Credit, Avail, SleepFor, AfterTurn, Refilled, Oversleeps;
    RefilledZero(p);
    RefilledMono(p, 0.0, hi - lo);
    if gs == [] {
    } else if hi < free {
      NoGrantsAfter(p, b, free, gs, lo, hi);
    } else if gs[0].arrive >= lo {
      // The lock is free when the window opens: the run might as well have started then.
      var start := if free < lo then lo else free;
      if start <= hi {
        GrantsUpTo(p, b, start, gs, lo, hi);
        CreditBounds(p, b, start, lo, hi);
        AvailBounds(p, b, start);
      }
    } else if lo <= gs[0].Done() <= hi {
      StraddledWindow(p, b, free, gs[0], gs[1..], lo, hi);
      assert Oversleeps(p, gs[0], lo, hi) ==> OversleptInto(p, gs, lo, hi);
    } else {
      TurnKeepsInv(p, b, free, gs[0]);
      WindowBound(p, AfterTurn(p, b, gs[0]), gs[0].Done(), gs[1..], lo, hi);
      if OversleptInto(p, gs[1..], lo, hi) {
        OversleptTail(p, gs, lo, hi);
      }
    }
  }

  // ---------- exactly when it holds in every window of every run ----------

  /** No granted sleep of the run lasts more than `late` seconds longer than asked. */
  predicate Punctual(p: Params, b: Bucket, gs: seq<Turn>, late: real)
    decreases |gs|
  {
    gs == [] ||
    ((gs[0].granted ==> gs[0].slept <= SleepFor(p, b, gs[0].arrive) + late) &&
     Punctual(p, AfterTurn(p, b, gs[0]), gs[1..], late))
  }

  function FreshBucket(p: Params, t: real): Bucket
  {
    Bucket(p.capacity, t)
  }

  /** Every window of every run of a fresh bucket keeps to `capacity + 2 * refill * elapsed`. */
  ghost predicate KeepsDoubleRate(p: Params, late: real)
  {
    forall t, gs, lo, hi ::
      IsRun(p, FreshBucket(p, t), t, gs) && Punctual(p, FreshBucket(p, t), gs, late) && lo <= hi ==>
        GrantsIn(gs, lo, hi) as real <= p.capacity + 2.0 * Refilled(p, hi - lo)
  }

  lemma {:induction false} PunctualRunsSleepLittle(p: Params, b: Bucket, free: real, gs: seq<Turn>, late: real, i: nat)
    requires Inv(p, b, free) && IsRun(p, b, free, gs) && Punctual(p, b, gs, late) && late >= 0.0
    requires i < |gs| && gs[i].granted
    ensures Refilled(p, gs[i].slept) <= 1.0 + Refilled(p, late)
    decreases |gs|
  {
    hide Refilled, TimeFor, Avail, AfterTurn;
    TurnKeepsInv(p, b, free, gs[0]);
    if i > 0 {
      PunctualRunsSleepLittle(p, AfterTurn(p, b, gs[0]), gs[0].Done(), gs[1..], late, i - 1);
    } else {
      var asked := SleepFor(p, b, gs[0].arrive);
      AvailBounds(p, b, gs[0].arrive);
      RefilledZero(p);
      RefilledMono(p, 0.0, late);
      TimeForInverse(p, 1.0 - Avail(p, b, gs[0].arrive));
      RefilledMono(p, gs[0].slept, asked + late);
      RefilledSplit(p, 0.0, asked, asked + late);
      assert asked - 0.0 == asked && asked + late - 0.0 == asked + late && asked + late - asked == late;
    }
  }

  lemma DoubleRateIfOnTime(p: Params, late: real)
    requires late >= 0.0 && Refilled(p, late) <= p.capacity - 1.5
    ensures KeepsDoubleRate(p, late)
  {
    hide Refilled, IsRun, Punctual;
    forall t, gs, lo, hi | IsRun(p, FreshBucket(p, t), t, gs) && Punctual(p, FreshBucket(p, t), gs, late) && lo <= hi
      ensures GrantsIn(gs, lo, hi) as real <= p.capacity + 2.0 * Refilled(p, hi - lo)
    {
      WindowBound(p, FreshBucket(p, t), t, gs, lo, hi);
      if OversleptInto(p, gs, lo, hi) {
        var i :| 0 <= i < |gs| && Oversleeps(p, gs[i], lo, hi);
        PunctualRunsSleepLittle(p, FreshBucket(p, t), t, gs, late, i);
      }
    }
  }

  lemma {:induction false} PunctualThen(p: Params, b: Bucket, free: real, gs: seq<Turn>, hs: seq<Turn>, late: real)
    requires Punctual(p, b, gs, late) && Punctual(p, After(p, b, free, gs).0, hs, late)
    ensures Punctual(p, b, gs + hs, late)
    decreases |gs|
  {
    hide SleepFor, AfterTurn;
    if gs == [] {
      assert gs + hs == hs;
    } else {
      assert (gs + hs)[0] == gs[0] && (gs + hs)[1..] == gs[1..] + hs;
      PunctualThen(p, AfterTurn(p, b, gs[0]), gs[0].Done(), gs[1..], hs, late);
    }
  }

  lemma {:induction false} BacklogIsPunctual(p: Params, b: Bucket, t: real, k: nat, late: real)
    requires late >= 0.0
    ensures Punctual(p, b, Backlog(p, b, t, k), late)
    decreases k
  {
    hide SleepFor, Acquired;
    if k > 0 {
      BacklogIsPunctual(p, Acquired(p, b, t), ExactTurn(p, b, t).Done(), k - 1, late);
    }
  }

  /** A queue of as many callers as there are tokens empties the bucket on the spot. */
  lemma {:induction false} QueueEmptiesBucket(p: Params, n: nat, t: real)
    requires n as real <= p.capacity
    ensures After(p, Bucket(n as real, t), t, Backlog(p, Bucket(n as real, t), t, n)) == (Bucket(0.0, t), t)
  {
    hide Refilled, TimeFor;
    if n > 0 {
      RefilledZero(p);
      var b := Bucket(n as real, t);
      assert t - t == 0.0 && Avail(p, b, t) == n as real;
      assert Acquired(p, b, t) == Bucket((n - 1) as real, t) && ExactTurn(p, b, t) == Turn(t, 0.0, true);
      QueueEmptiesBucket(p, n - 1, t);
    }
  }

  /** The sleeper of a late run: it finds an empty bucket and sleeps `late` seconds too long. */
  function Sleeper(p: Params, t: real, late: real): Turn
  {
    Turn(t, TimeFor(p, 1.0) + late, true)
  }

  /** A fresh bucket's tokens taken at once, one call that oversleeps by `late`, and a queue behind it. */
  function LateRun(rate: nat, t: real, late: real): seq<Turn>
    requires rate >= 1
  {
    var p := PerMinute(rate);
    Backlog(p, FreshBucket(p, t), t, rate) +
    ([Sleeper(p, t, late)] + Backlog(p, Bucket(0.0, t), Sleeper(p, t, late).Done(), rate))
  }

  lemma SleeperTurn(p: Params, t: real, late: real)
    requires late >= 0.0
    ensures var b, g := Bucket(0.0, t), Sleeper(p, t, late);
            && IsTurn(p, b, t, g) && AfterTurn(p, b, g) == b && g.slept <= SleepFor(p, b, t) + late
            && g.Done() > t && Inv(p, b, g.Done())
            && Refilled(p, g.Done() - t) == 1.0 + Refilled(p, late)
  {
    hide Refilled, TimeFor;
    var b, g := Bucket(0.0, t), Sleeper(p, t, late);
    RefilledZero(p);
    TimeForInverse(p, 1.0);
    RefilledSplit(p, 0.0, TimeFor(p, 1.0), g.slept);
    assert t - t == 0.0 && Avail(p, b, t) == 0.0;
    assert TimeFor(p, 1.0) - 0.0 == TimeFor(p, 1.0) && g.slept - 0.0 == g.slept && g.slept - TimeFor(p, 1.0) == late;
    assert g.Done() - t == g.slept;
    assert g.slept != 0.0;
  }

  lemma LateRunIsRun(rate: nat, t: real, late: real, lo: real, hi: real)
    requires rate >= 1 && late >= 0.0
    ensures var p, gs := PerMinute(rate), LateRun(rate, t, late);
            && IsRun(p, FreshBucket(p, t), t, gs) && Punctual(p, FreshBucket(p, t), gs, late)
            && GrantsIn(gs, lo, hi) >=
               GrantsIn([Sleeper(p, t, late)] + Backlog(p, Bucket(0.0, t), Sleeper(p, t, late).Done(), rate), lo, hi)
  {
    hide Backlog, TimeFor, Refilled, Inv;
    var p, b := PerMinute(rate), Bucket(0.0, t);
    var fresh', g := FreshBucket(p, t), Sleeper(p, t, late);
    var drain, queue := Backlog(p, fresh', t, rate), Backlog(p, b, g.Done(), rate);
    SleeperTurn(p, t, late);
    assert Inv(p, fresh', t) by {
      FreshIsSound(p, t);
    }
    BacklogIsRun(p, fresh', t, rate);
    BacklogIsRun(p, b, g.Done(), rate);
    BacklogIsPunctual(p, fresh', t, rate, late);
    BacklogIsPunctual(p, b, g.Done(), rate, late);
    QueueEmptiesBucket(p, rate, t);
    assert ([g] + queue)[0] == g && ([g] + queue)[1..] == queue;
    RunThenRun(p, fresh', t, drain, [g] + queue, lo, hi);
    PunctualThen(p, fresh', t, drain, [g] + queue, late);
  }

  lemma FreshIsSound(p: Params, t: real)
    ensures Inv(p, FreshBucket(p, t), t)
  {
  }

  /** The sleeper and the queue behind it all fit between its grant and the last one's. */
  lemma SleeperAndQueue(p: Params, t: real, late: real, n: nat) returns (hi: real)
    requires late >= 0.0 && n >= 1 && p.capacity == n as real && Refilled(p, late) > p.capacity - 1.5
    ensures var g := Sleeper(p, t, late);
            && hi >= g.Done() && 2.0 * Refilled(p, hi - g.Done()) < 1.0
            && GrantsIn([g] + Backlog(p, Bucket(0.0, t), g.Done(), n), g.Done(), hi) == n + 1
  {
    hide Refilled, TimeFor, Backlog, Served;
    var g, b := Sleeper(p, t, late), Bucket(0.0, t);
    SleeperTurn(p, t, late);
    var a := Avail(p, b, g.Done());
    assert (n - 1) as real <= a <= n as real;
    LastInLineWaits(p, b, g.Done(), n);
    hi := Served(p, b, g.Done(), n);
    TimeForInverse(p, n as real - a);
    assert hi - g.Done() == TimeFor(p, n as real - a);
    BacklogInWindow(p, b, g.Done(), n, g.Done(), hi);
    assert ([g] + Backlog(p, b, g.Done(), n))[1..] == Backlog(p, b, g.Done(), n);
  }

  /**
    The bound holds in every window of every run of a fresh bucket exactly if no sleep is late by more than
    the time in which all but one and a half of the tokens are refilled.
  */
  lemma DoubleRateExactly(rate: nat, late: real)
    requires rate >= 1 && late >= 0.0
    ensures KeepsDoubleRate(PerMinute(rate), late) <==> Refilled(PerMinute(rate), late) <= rate as real - 1.5
  {
    hide Refilled;
    var p := PerMinute(rate);
    if Refilled(p, late) <= rate as real - 1.5 {
      DoubleRateIfOnTime(p, late);
    } else {
      var hi := SleeperAndQueue(p, 0.0, late, rate);
      var lo := Sleeper(p, 0.0, late).Done();
      LateRunIsRun(rate, 0.0, late, lo, hi);
      assert GrantsIn(LateRun(rate, 0.0, late), lo, hi) as real > p.capacity + 2.0 * Refilled(p, hi - lo);
    }
  }

  /** With exact sleeps that is every rate but one a minute. */
  lemma ExactSleepsExactly(rate: nat)
    requires rate >= 1
    ensures KeepsDoubleRate(PerMinute(rate), 0.0) <==> rate >= 2
  {
    hide Refilled;
    RefilledZero(PerMinute(rate));
    DoubleRateExactly(rate, 0.0);
  }

  /**
    The bound is met, so `capacity + refill * elapsed` is not a bound of this code: for every rate and
    every m, a queue at a fresh bucket gets exactly `capacity + 2 * refill * elapsed` grants in m intervals.
  */
  lemma BoundIsAttained(rate: nat, t: real, m: nat)
    requires rate >= 1
    ensures var p := PerMinute(rate);
            var gs := Backlog(p, FreshBucket(p, t), t, rate + 2 * m);
            var refilled := Refilled(p, Intervals(p, m));
            var got := GrantsIn(gs, t, t + Intervals(p, m)) as real;
            && IsRun(p, FreshBucket(p, t), t, gs)
            && got == p.capacity + 2.0 * refilled
            && (m > 0 ==> got > p.capacity + refilled)
  {
    hide Refilled, TimeFor, SleepFor, Acquired;
    var p := PerMinute(rate);
    var b := FreshBucket(p, t);
    RefilledZero(p);
    assert t - t == 0.0 && Avail(p, b, t) == rate as real;
    BacklogIsRun(p, b, t, rate + 2 * m);
    DrainThenBacklog(p, b, t, rate, m);
    BacklogInWindow(p, b, t, rate + 2 * m, t, t + Intervals(p, m));
    TimeForInverse(p, m as real);
  }

  /** The extra grant is real: after a sleep late by a minute, `capacity + 1` grants fall on a single instant. */
  lemma StraddleIsAttained(rate: nat, t: real)
    requires rate >= 1
    ensures var p, gs := PerMinute(rate), LateRun(rate, t, 60.0);
            var at := Sleeper(p, t, 60.0).Done();
            && IsRun(p, FreshBucket(p, t), t, gs)
            && GrantsIn(gs, at, at) as real >= p.capacity + 1.0
  {
    hide TimeFor, Backlog, Served;
    var p, b, g := PerMinute(rate), Bucket(0.0, t), Sleeper(PerMinute(rate), t, 60.0);
    LateRunIsRun(rate, t, 60.0, g.Done(), g.Done());
    SleeperTurn(p, t, 60.0);
    MinuteRefillsAll(rate);
    LastInLineWaits(p, b, g.Done(), rate);
    TimeForAdd(p, 0.0, 0.0);
    BacklogInWindow(p, b, g.Done(), rate, g.Done(), g.Done());
    assert ([g] + Backlog(p, b, g.Done(), rate))[1..] == Backlog(p, b, g.Done(), rate);
  }

  lemma MinuteRefillsAll(rate: nat)
    requires rate >= 1
    ensures Refilled(PerMinute(rate), 60.0) == rate as real
  {
    var x := rate as real / 60.0;
    assert x * 60.0 == rate as real;
  }
}
