/**
  The token bucket.

  `acquire` holds its lock across the sleep, so grants are serial.  It moves `last` before it sleeps
  and zeroes `tokens` after, so the time slept is credited twice: once by the sleep itself and once
  again as elapsed time at the next call.  What this does to the long-run rate is proved here.
*/
module RateLimiter {
  /** The constants of a bucket: `capacity` tokens, refilled at `refill` tokens a second. */
  datatype RawParams = Params(capacity: real, refill: real)
  type Params = p: RawParams | p.capacity >= 1.0 && p.capacity.Floor as real == p.capacity && p.refill > 0.0
    witness Params(1.0, 1.0)

  /** What the constructor computes. A rate below 1 a minute is out: the source divides by the refill rate. */
  function PerMinute(rate: nat): Params
    requires rate >= 1
  {
    Params(rate as real, rate as real / 60.0)
  }

  /** The two mutable fields. */
  datatype Bucket = Bucket(tokens: real, last: real)

  /** The tokens refilled in `d` seconds. */
  function Refilled(p: Params, d: real): real
  {
    d * p.refill
  }

  /** The seconds it takes to refill `x` tokens. */
  function TimeFor(p: Params, x: real): real
  {
    x / p.refill
  }

  /** The tokens on hand once the time up to `now` has been credited. */
  function Avail(p: Params, b: Bucket, now: real): real
  {
    var t := b.tokens + Refilled(p, now - b.last);
    if t < p.capacity then t else p.capacity
  }

  /** How long a call whose turn comes at `now` asks to sleep. */
  function SleepFor(p: Params, b: Bucket, now: real): real
  {
    if Avail(p, b, now) < 1.0 then TimeFor(p, 1.0 - Avail(p, b, now)) else 0.0
  }

  function Acquired(p: Params, b: Bucket, now: real): Bucket
  {
    if Avail(p, b, now) < 1.0 then Bucket(0.0, now) else Bucket(Avail(p, b, now) - 1.0, now)
  }

  /** One caller's turn with the lock: it comes at `arrive`, sleeps for `slept`, and ends in a grant or is cancelled. */
  datatype Turn = Turn(arrive: real, slept: real, granted: bool) {
    function Done(): real { arrive + slept }
  }

  /** A sleep lasts at least as long as asked, unless its caller is cancelled `after` a while. */
  datatype Sleep = Completes(oversleep: real) | IsCancelled(after: real)

  function TurnAt(p: Params, b: Bucket, now: real, sleep: Sleep): Turn
  {
    if Avail(p, b, now) >= 1.0 then Turn(now, 0.0, true)
    else if sleep.IsCancelled? then Turn(now, sleep.after, false)
    else Turn(now, SleepFor(p, b, now) + sleep.oversleep, true)
  }

  /** A cancelled sleep leaves the refilled tokens where they are. */
  function AfterTurn(p: Params, b: Bucket, g: Turn): Bucket
  {
    if g.granted then Acquired(p, b, g.arrive) else Bucket(Avail(p, b, g.arrive), g.arrive)
  }

  class TokenBucket {
    const params: Params
    var tokens: real
    var last: real

    function Fields(): Bucket
      reads this
    {
      Bucket(tokens, last)
    }

    constructor (ratePerMin: nat, now: real)
      requires ratePerMin >= 1
      ensures params == PerMinute(ratePerMin) == Params(ratePerMin as real, ratePerMin as real / 60.0)
      ensures Fields() == Bucket(ratePerMin as real, now)
    {
      params := PerMinute(ratePerMin);
      tokens, last := ratePerMin as real, now;
    }

    /**
      `now` is read once the lock is held. The grant, or the cancellation, comes when the returned turn is
      done and the lock is released.
    */
    method Acquire(now: real, sleep: Sleep) returns (g: Turn)
      modifies this
      ensures g == TurnAt(params, old(Fields()), now, sleep)
      ensures Fields() == AfterTurn(params, old(Fields()), g)
    {
      var filled := tokens + (now - last) * params.refill;
      tokens := if filled < params.capacity then filled else params.capacity;
      last := now;
      if tokens < 1.0 {
        var sleepFor := (1.0 - tokens) / params.refill;
        if sleep.IsCancelled? {
          return Turn(now, sleep.after, false);
        }
        g := Turn(now, sleepFor + sleep.oversleep, true);
        tokens := 0.0;
      } else {
        g := Turn(now, 0.0, true);
        tokens := tokens - 1.0;
      }
    }
  }

  // ---------- the only facts about products the proofs use ----------

  lemma RefilledSplit(p: Params, a: real, b: real, c: real)
    ensures Refilled(p, c - a) == Refilled(p, b - a) + Refilled(p, c - b)
  {
  }

  lemma RefilledMono(p: Params, d: real, e: real)
    requires d <= e
    ensures Refilled(p, d) <= Refilled(p, e)
  {
  }

  lemma RefilledZero(p: Params)
    ensures Refilled(p, 0.0) == 0.0
  {
  }

  lemma TimeForInverse(p: Params, x: real)
    ensures Refilled(p, TimeFor(p, x)) == x && (x >= 0.0 ==> TimeFor(p, x) >= 0.0)
  {
  }

  lemma TimeForAdd(p: Params, x: real, y: real)
    ensures TimeFor(p, x + y) == TimeFor(p, x) + TimeFor(p, y)
  {
  }

  // ---------- runs ----------

  predicate IsTurn(p: Params, b: Bucket, free: real, g: Turn)
  {
    && g.arrive >= free
    && (if Avail(p, b, g.arrive) >= 1.0 then g.slept == 0.0 && g.granted
        else g.slept >= (if g.granted then SleepFor(p, b, g.arrive) else 0.0))
  }

  /** What `acquire` does is such a turn, and every such turn is one it may do. */
  lemma TurnsAreAcquires(p: Params, b: Bucket, g: Turn)
    ensures IsTurn(p, b, g.arrive, g) <==>
            exists sleep: Sleep :: g == TurnAt(p, b, g.arrive, sleep) &&
              (sleep.Completes? ==> sleep.oversleep >= 0.0) && (sleep.IsCancelled? ==> sleep.after >= 0.0)
  {
    hide Avail, SleepFor;
    if IsTurn(p, b, g.arrive, g) {
      var late := if Avail(p, b, g.arrive) >= 1.0 then 0.0 else g.slept - SleepFor(p, b, g.arrive);
      var sleep := if g.granted then Completes(late) else IsCancelled(g.slept);
      assert g == TurnAt(p, b, g.arrive, sleep);
    }
  }

  /** A run of turns from bucket `b`, the lock being free from `free` on. */
  predicate IsRun(p: Params, b: Bucket, free: real, gs: seq<Turn>)
    decreases |gs|
  {
    gs == [] ||
    (IsTurn(p, b, free, gs[0]) && IsRun(p, AfterTurn(p, b, gs[0]), gs[0].Done(), gs[1..]))
  }

  predicate Inv(p: Params, b: Bucket, free: real)
  {
    0.0 <= b.tokens <= p.capacity && b.last <= free
  }

  /** Bucket and free time after a run. */
  function After(p: Params, b: Bucket, free: real, gs: seq<Turn>): (Bucket, real)
    decreases |gs|
  {
    if gs == [] then (b, free) else After(p, AfterTurn(p, b, gs[0]), gs[0].Done(), gs[1..])
  }

  lemma AvailBounds(p: Params, b: Bucket, t: real)
    requires Inv(p, b, t)
    ensures 0.0 <= Avail(p, b, t) <= p.capacity
  {
    hide Refilled;
    RefilledZero(p);
    RefilledMono(p, 0.0, t - b.last);
  }

  lemma TurnKeepsInv(p: Params, b: Bucket, free: real, g: Turn)
    requires Inv(p, b, free) && IsTurn(p, b, free, g)
    ensures Inv(p, AfterTurn(p, b, g), g.Done()) && g.slept >= 0.0
  {
    hide Refilled, TimeFor;
    AvailBounds(p, b, g.arrive);
    TimeForInverse(p, 1.0 - Avail(p, b, g.arrive));
  }

  /** The turn a queued caller gets at `t` when sleeps are exact. */
  function ExactTurn(p: Params, b: Bucket, t: real): (g: Turn)
    ensures IsTurn(p, b, t, g)
  {
    Turn(t, SleepFor(p, b, t), true)
  }

  /** In every reachable state the bucket holds between 0 and `capacity` tokens. */
  lemma {:induction false} EveryRunKeepsInv(p: Params, b: Bucket, free: real, gs: seq<Turn>)
    requires Inv(p, b, free) && IsRun(p, b, free, gs)
    ensures var (b', free') := After(p, b, free, gs); Inv(p, b', free') && free' >= free
    decreases |gs|
  {
    hide Avail, SleepFor;
    if gs != [] {
      TurnKeepsInv(p, b, free, gs[0]);
      EveryRunKeepsInv(p, AfterTurn(p, b, gs[0]), gs[0].Done(), gs[1..]);
    }
  }

  /** The grants given in the closed window `[lo, hi]`. */
  function GrantsIn(gs: seq<Turn>, lo: real, hi: real): nat
  {
    if gs == [] then 0 else (if gs[0].granted && lo <= gs[0].Done() <= hi then 1 else 0) + GrantsIn(gs[1..], lo, hi)
  }

  lemma {:induction false} NoGrantsAfter(p: Params, b: Bucket, free: real, gs: seq<Turn>, lo: real, hi: real)
    requires Inv(p, b, free) && IsRun(p, b, free, gs) && hi < free
    ensures GrantsIn(gs, lo, hi) == 0
    decreases |gs|
  {
    hide Avail, SleepFor, Acquired, AfterTurn;
    if gs != [] {
      TurnKeepsInv(p, b, free, gs[0]);
      NoGrantsAfter(p, AfterTurn(p, b, gs[0]), gs[0].Done(), gs[1..], lo, hi);
    }
  }

  /** Runs follow one another, and so do their grants. */
  lemma {:induction false} RunThenRun(p: Params, b: Bucket, free: real, gs: seq<Turn>, hs: seq<Turn>,
                                      lo: real, hi: real)
    requires IsRun(p, b, free, gs) && IsRun(p, After(p, b, free, gs).0, After(p, b, free, gs).1, hs)
    ensures IsRun(p, b, free, gs + hs) && GrantsIn(gs + hs, lo, hi) == GrantsIn(gs, lo, hi) + GrantsIn(hs, lo, hi)
    ensures After(p, b, free, gs + hs) == After(p, After(p, b, free, gs).0, After(p, b, free, gs).1, hs)
    decreases |gs|
  {
    hide IsTurn, AfterTurn;
    if gs == [] {
      assert gs + hs == hs;
    } else {
      assert (gs + hs)[0] == gs[0] && (gs + hs)[1..] == gs[1..] + hs;
      RunThenRun(p, AfterTurn(p, b, gs[0]), gs[0].Done(), gs[1..], hs, lo, hi);
    }
  }

  // ---------- a backlog served with exact sleeps ----------

  /** `k` callers queued at `t`, each served as soon as the one before is granted. */
  function Backlog(p: Params, b: Bucket, t: real, k: nat): (gs: seq<Turn>)
    ensures |gs| == k
    decreases k
  {
    if k == 0 then []
    else [ExactTurn(p, b, t)] + Backlog(p, Acquired(p, b, t), ExactTurn(p, b, t).Done(), k - 1)
  }

  /** When the last of `k` callers queued at `t` is granted. */
  function Served(p: Params, b: Bucket, t: real, k: nat): real
    decreases k
  {
    if k == 0 then t else Served(p, Acquired(p, b, t), ExactTurn(p, b, t).Done(), k - 1)
  }

  lemma {:induction false} BacklogIsRun(p: Params, b: Bucket, t: real, k: nat)
    requires Inv(p, b, t)
    ensures IsRun(p, b, t, Backlog(p, b, t, k))
    ensures After(p, b, t, Backlog(p, b, t, k)).1 == Served(p, b, t, k) >= t
    decreases k
  {
    hide Avail, SleepFor, Acquired;
    if k > 0 {
      TurnKeepsInv(p, b, t, ExactTurn(p, b, t));
      BacklogIsRun(p, Acquired(p, b, t), ExactTurn(p, b, t).Done(), k - 1);
    }
  }

  /** Short of a token, the caller is granted once the missing part is refilled, and that part is then on hand. */
  lemma SleptGrant(p: Params, b: Bucket, t: real)
    requires Inv(p, b, t) && Avail(p, b, t) < 1.0
    ensures var a, b', t' := Avail(p, b, t), Acquired(p, b, t), ExactTurn(p, b, t).Done();
            && t' == t + TimeFor(p, 1.0 - a) && Inv(p, b', t') && Avail(p, b', t') == 1.0 - a
  {
    hide Refilled, TimeFor;
    TurnKeepsInv(p, b, t, ExactTurn(p, b, t));
    AvailBounds(p, b, t);
    TimeForInverse(p, 1.0 - Avail(p, b, t));
    var b', t' := Acquired(p, b, t), ExactTurn(p, b, t).Done();
    assert t' - b'.last == TimeFor(p, 1.0 - Avail(p, b, t));
  }

  /** With a token on hand the caller is granted on the spot. */
  lemma InstantGrant(p: Params, b: Bucket, t: real)
    requires Inv(p, b, t) && Avail(p, b, t) >= 1.0
    ensures var b', t' := Acquired(p, b, t), ExactTurn(p, b, t).Done();
            t' == t && Inv(p, b', t') && Avail(p, b', t') == Avail(p, b, t) - 1.0
  {
    hide Refilled, TimeFor;
    TurnKeepsInv(p, b, t, ExactTurn(p, b, t));
    RefilledZero(p);
    assert t - Acquired(p, b, t).last == 0.0;
  }

  /** Short of a token, the next two callers together wait exactly one refill interval and change nothing. */
  lemma TwoGrantsPerInterval(p: Params, b: Bucket, t: real)
    requires Inv(p, b, t) && Avail(p, b, t) < 1.0
    ensures var b1, t1 := Acquired(p, b, t), ExactTurn(p, b, t).Done();
            var b2, t2 := Acquired(p, b1, t1), ExactTurn(p, b1, t1).Done();
            t2 == t + TimeFor(p, 1.0) && Inv(p, b2, t2) && Avail(p, b2, t2) == Avail(p, b, t)
  {
    hide Avail, SleepFor, Acquired, TimeFor, ExactTurn;
    SleptGrant(p, b, t);
    AvailBounds(p, b, t);
    var a, b1, t1 := Avail(p, b, t), Acquired(p, b, t), ExactTurn(p, b, t).Done();
    TimeForAdd(p, 1.0 - a, a);
    assert 1.0 - a + a == 1.0;
    TimeForInverse(p, 0.0);
    if a > 0.0 {
      SleptGrant(p, b1, t1);
      assert 1.0 - (1.0 - a) == a;
    } else {
      InstantGrant(p, b1, t1);
      TimeForAdd(p, 0.0, 0.0);
    }
  }

  /** `m` refill intervals. */
  function Intervals(p: Params, m: nat): real
  {
    TimeFor(p, m as real)
  }

  /** From a bucket short of a token, the exact moment the k-th queued caller is granted: two a refill interval. */
  lemma {:induction false} BacklogSchedule(p: Params, b: Bucket, t: real, k: nat)
    requires Inv(p, b, t) && Avail(p, b, t) < 1.0
    ensures Served(p, b, t, k) ==
            t + Intervals(p, k / 2) + (if k % 2 == 0 then 0.0 else TimeFor(p, 1.0 - Avail(p, b, t)))
    decreases k
  {
    hide Avail, SleepFor, Acquired, TimeFor, ExactTurn;
    TimeForAdd(p, 0.0, 0.0);
    if k == 1 {
      SleptGrant(p, b, t);
      assert Served(p, b, t, 1) == Served(p, Acquired(p, b, t), ExactTurn(p, b, t).Done(), 0);
    } else if k >= 2 {
      TwoGrantsPerInterval(p, b, t);
      var b1, t1 := Acquired(p, b, t), ExactTurn(p, b, t).Done();
      var b2, t2 := Acquired(p, b1, t1), ExactTurn(p, b1, t1).Done();
      assert Served(p, b, t, k) == Served(p, b1, t1, k - 1) == Served(p, b2, t2, k - 2);
      BacklogSchedule(p, b2, t2, k - 2);
      TimeForAdd(p, ((k - 2) / 2) as real, 1.0);
      assert ((k - 2) / 2) as real + 1.0 == (k / 2) as real;
    }
  }

  lemma NobodyToServe(p: Params, b: Bucket, t: real)
    ensures Served(p, b, t, 0) == t
  {
  }

  /**
    The moment the k-th of a queue is granted, for every bucket and every queue: the whole tokens on hand, old
    ones and those refilled since up to the capacity, are granted on the spot, the rest two a refill interval.
  */
  lemma {:induction false} QueueServedExactly(p: Params, b: Bucket, t: real, k: nat)
    requires Inv(p, b, t)
    ensures var filled := b.tokens + (t - b.last) * p.refill;
            var onHand := if filled < p.capacity then filled else p.capacity;
            var whole := onHand.Floor;
            Served(p, b, t, k) ==
            if k <= whole then t
            else t + ((k - whole) / 2) as real / p.refill +
                 (if (k - whole) % 2 == 0 then 0.0 else (1.0 - (onHand - whole as real)) / p.refill)
    decreases k
  {
    var a := Avail(p, b, t);
    AvailIs(p, b, t);
    AvailBounds(p, b, t);
    hide Avail, SleepFor, Acquired, ExactTurn;
    if k == 0 {
      NobodyToServe(p, b, t);
    } else if a < 1.0 {
      BacklogSchedule(p, b, t, k);
      assert a.Floor == 0;
    } else {
      InstantGrant(p, b, t);
      var b' := Acquired(p, b, t);
      QueueServedExactly(p, b', t, k - 1);
      AvailIs(p, b', t);
      assert (a - 1.0).Floor == a.Floor - 1;
      assert Served(p, b, t, k) == Served(p, b', t, k - 1);
    }
  }

  /** What is on hand: the old tokens and those refilled since, up to the capacity. */
  lemma AvailIs(p: Params, b: Bucket, t: real)
    ensures var filled := b.tokens + (t - b.last) * p.refill;
            Avail(p, b, t) == if filled < p.capacity then filled else p.capacity
  {
  }

  /** `k` callers are served on the spot exactly if there are as many tokens, old or refilled, and room for them. */
  lemma ServedAtOnceExactly(p: Params, b: Bucket, t: real, k: nat)
    requires Inv(p, b, t) && k >= 1
    ensures Served(p, b, t, k) == t <==>
            k as real <= p.capacity && k as real <= b.tokens + (t - b.last) * p.refill
  {
    var a := Avail(p, b, t);
    AvailIs(p, b, t);
    AvailBounds(p, b, t);
    QueueServedExactly(p, b, t, k);
    assert k <= a.Floor <==> k as real <= a;
    if k > a.Floor {
      var m := k - a.Floor;
      LaterThan(p, m / 2, 1.0 - (a - a.Floor as real), m % 2 == 1);
    }
  }

  lemma LaterThan(p: Params, intervals: nat, part: real, odd: bool)
    requires part > 0.0 && (intervals > 0 || odd)
    ensures intervals as real / p.refill + (if odd then part / p.refill else 0.0) > 0.0
  {
    assert intervals > 0 ==> intervals as real / p.refill > 0.0;
    assert part / p.refill > 0.0;
  }

  /** A new bucket of `rate` a minute serves that many callers on the spot, and then two in 60 / rate seconds. */
  lemma FreshQueueExactly(rate: nat, t: real, k: nat)
    requires rate >= 1
    ensures Served(PerMinute(rate), Bucket(rate as real, t), t, k) ==
            if k <= rate then t else t + 60.0 * ((k - rate + 1) / 2) as real / rate as real
  {
    hide Served;
    var p, b := PerMinute(rate), Bucket(rate as real, t);
    assert (t - t) * p.refill == 0.0;
    QueueServedExactly(p, b, t, k);
    if k > rate {
      MinutesOf(rate, k - rate);
    }
  }

  lemma MinutesOf(rate: nat, m: nat)
    requires rate >= 1
    ensures var refill := rate as real / 60.0;
            (m / 2) as real / refill + (if m % 2 == 0 then 0.0 else 1.0 / refill) ==
            60.0 * ((m + 1) / 2) as real / rate as real
  {
    var r := rate as real;
    var refill := r / 60.0;
    OverRefill(r, (m / 2) as real);
    OverRefill(r, 1.0);
    if m % 2 == 1 {
      assert ((m + 1) / 2) as real == (m / 2) as real + 1.0;
      assert 60.0 * ((m / 2) as real + 1.0) / r == 60.0 * (m / 2) as real / r + 60.0 * 1.0 / r;
    } else {
      assert (m + 1) / 2 == m / 2;
    }
  }

  lemma OverRefill(r: real, x: real)
    requires r > 0.0
    ensures x / (r / 60.0) == 60.0 * x / r
  {
    var q := r / 60.0;
    assert q * 60.0 == r;
    var y := x / q;
    assert y * q == x;
    assert y * r == 60.0 * x;
  }

  /** Left alone for a minute, any bucket serves a full minute's callers on the spot. */
  lemma IdleMinuteFills(rate: nat, b: Bucket, t: real)
    requires rate >= 1 && Inv(PerMinute(rate), b, t) && t >= b.last + 60.0
    ensures Served(PerMinute(rate), b, t, rate) == t
  {
    var p := PerMinute(rate);
    hide Served;
    RefilledMono(p, 60.0, t - b.last);
    assert Refilled(p, 60.0) == rate as real == p.capacity;
    ServedAtOnceExactly(p, b, t, rate);
    assert (t - b.last) * p.refill == Refilled(p, t - b.last);
  }

  /** A caller that is cancelled in its sleep leaves no trace: whoever queues later is served as if it had not come. */
  lemma CancelledLeavesNoTrace(p: Params, b: Bucket, g: Turn, t: real, k: nat)
    requires Inv(p, b, g.arrive) && IsTurn(p, b, g.arrive, g) && !g.granted && t >= g.Done()
    ensures Served(p, AfterTurn(p, b, g), t, k) == Served(p, b, t, k)
  {
    hide Refilled, TimeFor;
    var b' := AfterTurn(p, b, g);
    RefilledSplit(p, b.last, g.arrive, t);
    assert Avail(p, b', t) == Avail(p, b, t);
    if k > 0 {
      assert Acquired(p, b', t) == Acquired(p, b, t) && ExactTurn(p, b', t) == ExactTurn(p, b, t);
    }
  }

  /** A caller that had to sleep leaves behind what was refilled in its sleep: the time it slept counts again. */
  lemma SleeperLeavesItsSleep(p: Params, b: Bucket, g: Turn, k: nat)
    requires Inv(p, b, g.arrive) && IsTurn(p, b, g.arrive, g) && g.granted && g.slept > 0.0 && k >= 1
    ensures Served(p, AfterTurn(p, b, g), g.Done(), k) == g.Done() <==>
            k as real <= p.capacity && k as real <= g.slept * p.refill
  {
    hide Served, SleepFor;
    TurnKeepsInv(p, b, g.arrive, g);
    var b' := Bucket(0.0, g.arrive);
    SleeperLeavesNone(p, b, g);
    ServedAtOnceExactly(p, b', g.Done(), k);
    assert b'.tokens + (g.Done() - b'.last) * p.refill == g.slept * p.refill;
  }

  lemma SleeperLeavesNone(p: Params, b: Bucket, g: Turn)
    requires IsTurn(p, b, g.arrive, g) && g.granted && g.slept > 0.0
    ensures AfterTurn(p, b, g) == Bucket(0.0, g.arrive)
  {
    hide Avail, SleepFor;
  }

  /** With exact sleeps no queue starves: the k-th caller in line is granted within ceil(k/2) refill intervals. */
  lemma {:induction false} BacklogProgress(p: Params, b: Bucket, t: real, k: nat)
    requires Inv(p, b, t)
    ensures Served(p, b, t, k) <= t + Intervals(p, (k + 1) / 2)
    decreases k
  {
    hide Avail, SleepFor, Acquired, TimeFor, ExactTurn;
    TimeForInverse(p, 0.0);
    if k > 0 {
      AvailBounds(p, b, t);
      if Avail(p, b, t) < 1.0 {
        BacklogSchedule(p, b, t, k);
        var a, h := Avail(p, b, t), (k / 2) as real;
        TimeForInverse(p, a);
        TimeForAdd(p, 1.0 - a, a);
        TimeForAdd(p, h, 1.0);
        assert 1.0 - a + a == 1.0 && (k % 2 == 1 ==> h + 1.0 == ((k + 1) / 2) as real);
      } else {
        InstantGrant(p, b, t);
        BacklogProgress(p, Acquired(p, b, t), t, k - 1);
        var more := ((k + 1) / 2 - k / 2) as real;
        TimeForAdd(p, (k / 2) as real, more);
        TimeForInverse(p, more);
        assert (k / 2) as real + more == ((k + 1) / 2) as real;
      }
    }
  }

  /** All of a backlog is granted between its start and its end. */
  lemma {:induction false} BacklogInWindow(p: Params, b: Bucket, t: real, k: nat, lo: real, hi: real)
    requires Inv(p, b, t) && lo <= t && Served(p, b, t, k) <= hi
    ensures GrantsIn(Backlog(p, b, t, k), lo, hi) == k
    decreases k
  {
    hide Avail, SleepFor, Acquired, IsRun, After;
    if k > 0 {
      var g, b' := ExactTurn(p, b, t), Acquired(p, b, t);
      assert Backlog(p, b, t, k)[1..] == Backlog(p, b', g.Done(), k - 1);
      TurnKeepsInv(p, b, t, g);
      BacklogIsRun(p, b', g.Done(), k - 1);
      BacklogInWindow(p, b', g.Done(), k - 1, lo, hi);
    }
  }

  /** A bucket with `tokens` on hand serves `tokens` callers on the spot and then two an interval. */
  lemma {:induction false} DrainThenBacklog(p: Params, b: Bucket, t: real, tokens: nat, m: nat)
    requires Inv(p, b, t) && Avail(p, b, t) == tokens as real
    ensures Served(p, b, t, tokens + 2 * m) == t + Intervals(p, m)
    decreases tokens
  {
    hide Avail, SleepFor, Acquired, TimeFor, ExactTurn;
    if tokens == 0 {
      BacklogSchedule(p, b, t, 2 * m);
    } else {
      InstantGrant(p, b, t);
      DrainThenBacklog(p, Acquired(p, b, t), t, tokens - 1, m);
    }
  }

  /** A queue of which all but the last find a token on hand waits for the part the last one lacks. */
  lemma {:induction false} LastInLineWaits(p: Params, b: Bucket, t: real, k: nat)
    requires Inv(p, b, t) && 1 <= k && (k - 1) as real <= Avail(p, b, t) <= k as real
    ensures Served(p, b, t, k) == t + TimeFor(p, k as real - Avail(p, b, t))
    ensures Served(p, b, t, k - 1) == t
    decreases k
  {
    hide Avail, SleepFor, Acquired, TimeFor, ExactTurn;
    var b', t' := Acquired(p, b, t), ExactTurn(p, b, t).Done();
    TimeForAdd(p, 0.0, 0.0);
    if Avail(p, b, t) < 1.0 {
      SleptGrant(p, b, t);
      assert Served(p, b, t, 1) == Served(p, b', t', 0);
    } else {
      InstantGrant(p, b, t);
      if k > 1 {
        LastInLineWaits(p, b', t', k - 1);
        assert (k - 1) as real - (Avail(p, b, t) - 1.0) == k as real - Avail(p, b, t);
      } else {
        assert Served(p, b, t, 1) == Served(p, b', t', 0);
      }
    }
  }

  /** Until the last of a queue is granted, at most the others are. */
  lemma {:induction false} BacklogBefore(p: Params, b: Bucket, t: real, k: nat, lo: real, hi: real)
    ensures GrantsIn(Backlog(p, b, t, k), lo, hi) <= k
    ensures k >= 1 && hi < Served(p, b, t, k) ==> GrantsIn(Backlog(p, b, t, k), lo, hi) <= k - 1
    decreases k
  {
    hide Avail, SleepFor, Acquired, IsRun, After;
    if k > 0 {
      var g, b' := ExactTurn(p, b, t), Acquired(p, b, t);
      assert Backlog(p, b, t, k)[1..] == Backlog(p, b', g.Done(), k - 1);
      BacklogBefore(p, b', g.Done(), k - 1, lo, hi);
      if k == 1 {
        assert Served(p, b', g.Done(), 0) == g.Done();
      }
    }
  }
}
