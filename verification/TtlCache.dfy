/**
  The in-process cache with a time to live.

  Expired entries are deleted lazily, when `get` meets them.  `get_or_set` reads once without the
  asyncio lock, waits for it, reads again, and only then runs the factory, still holding the lock.
*/
module TtlCache {
  import opened Prelude

  /** A stored value may itself be Python's `None`. */
  datatype Entry<T> = Entry(value: Option<T>, expireAt: real)

  type Store<T> = map<string, Entry<T>>

  /** What a `get` at `now` answers. */
  function Answer<T>(s: Store<T>, now: real, key: string): Option<T>
  {
    if key in s && s[key].expireAt > now then s[key].value else None
  }

  /** The store after a `get` at `now`: the entry read is dropped if its deadline has come. */
  function AfterGet<T>(s: Store<T>, now: real, key: string): Store<T>
  {
    if key in s && s[key].expireAt <= now then s - {key} else s
  }

  datatype FactoryError = FactoryRaised

  class TTLCache<T> {
    var store: Store<T>

    constructor ()
      ensures store == map[]
    {
      store := map[];
    }

    method Get(now: real, key: string) returns (r: Option<T>)
      modifies this
      ensures r == Answer(old(store), now, key)
      ensures store == AfterGet(old(store), now, key)
      ensures key in store <==> key in old(store) && old(store)[key].expireAt > now
      ensures store - {key} == old(store) - {key} && r == if key in store then store[key].value else None
    {
      if key !in store {
        return None;
      }
      var entry := store[key];
      if entry.expireAt <= now {
        store := store - {key};
        return None;
      }
      r := entry.value;
    }

    method Set(now: real, key: string, value: Option<T>, ttl: real)
      modifies this
      ensures store == old(store)[key := Entry(value, now + ttl)]
    {
      store := store[key := Entry(value, now + ttl)];
    }

    method Invalidate(key: string)
      modifies this
      ensures store == old(store) - {key}
    {
      store := store - {key};
    }

    method Clear()
      modifies this
      ensures store == map[]
    {
      store := map[];
    }

    /** `get_or_set` with no other coroutine in between; `made` is what the factory gives, or raises, at `readyAt`. */
    method GetOrSet(now: real, key: string, ttl: real, made: Result<Option<T>, FactoryError>, readyAt: real)
      returns (r: Result<Option<T>, FactoryError>, ran: bool)
      modifies this
      ensures ran <==> Answer(old(store), now, key).None?
      ensures r == if ran then made else Success(Answer(old(store), now, key))
      ensures store == if ran && made.Success? then old(store)[key := Entry(made.value, readyAt + ttl)]
                       else AfterGet(old(store), now, key)
    {
      ran := false;
      var cached := Get(now, key);
      if cached.None? {
        cached := Get(now, key);
        if cached.None? {
          ran, r := true, made;
          if made.Success? {
            Set(readyAt, key, made.value, ttl);
            assert store == old(store)[key := Entry(made.value, readyAt + ttl)];
          }
          return;
        }
      }
      r := Success(cached);
    }
  }

  // ---------- lazy deletion against eager expiry ----------

  datatype Op<T> =
    | Get(key: string)
    | Set(key: string, value: Option<T>, ttl: real)
    | Invalidate(key: string)
    | Clear
    | Advance(dt: real)

  predicate Monotone<T>(ops: seq<Op<T>>)
  {
    forall i :: 0 <= i < |ops| ==> ops[i].Advance? ==> ops[i].dt >= 0.0
  }

  /** The answers of the cache as written. */
  function LazyAnswers<T>(s: Store<T>, now: real, ops: seq<Op<T>>): seq<Option<T>>
    decreases |ops|
  {
    if ops == [] then []
    else
      match ops[0]
      case Get(k) => [Answer(s, now, k)] + LazyAnswers(AfterGet(s, now, k), now, ops[1..])
      case Set(k, v, ttl) => LazyAnswers(s[k := Entry(v, now + ttl)], now, ops[1..])
      case Invalidate(k) => LazyAnswers(s - {k}, now, ops[1..])
      case Clear => LazyAnswers(map[], now, ops[1..])
      case Advance(dt) => LazyAnswers(s, now + dt, ops[1..])
  }

  /** Drops every entry whose deadline has come. */
  function Purge<T>(s: Store<T>, now: real): Store<T>
  {
    map k | k in s && s[k].expireAt > now :: s[k]
  }

  /** The answers of a plain map from which entries vanish the instant their deadline is reached. */
  function EagerAnswers<T>(m: Store<T>, now: real, ops: seq<Op<T>>): seq<Option<T>>
    decreases |ops|
  {
    if ops == [] then []
    else
      match ops[0]
      case Get(k) => [if k in m then m[k].value else None] + EagerAnswers(m, now, ops[1..])
      case Set(k, v, ttl) => EagerAnswers(Purge(m[k := Entry(v, now + ttl)], now), now, ops[1..])
      case Invalidate(k) => EagerAnswers(m - {k}, now, ops[1..])
      case Clear => EagerAnswers(map[], now, ops[1..])
      case Advance(dt) => EagerAnswers(Purge(m, now + dt), now + dt, ops[1..])
  }

  lemma MonotoneTail<T>(ops: seq<Op<T>>)
    requires ops != [] && Monotone(ops)
    ensures Monotone(ops[1..]) && (ops[0].Advance? ==> ops[0].dt >= 0.0)
  {
  }

  /** Each operation may be done before or after purging. */
  lemma PurgeOfSteps<T>(s: Store<T>, now: real, op: Op<T>)
    requires op.Advance? ==> op.dt >= 0.0
    ensures var m := Purge(s, now);
            match op
            case Get(k) =>
              Purge(AfterGet(s, now, k), now) == m && Answer(s, now, k) == (if k in m then m[k].value else None)
            case Set(k, v, ttl) => Purge(s[k := Entry(v, now + ttl)], now) == Purge(m[k := Entry(v, now + ttl)], now)
            case Invalidate(k) => Purge(s - {k}, now) == m - {k}
            case Clear => Purge<T>(map[], now) == map[]
            case Advance(dt) => Purge(s, now + dt) == Purge(m, now + dt)
  {
  }

  /** Lazy deletion is never observed: every `get` of every run answers as the eager map does. */
  lemma {:induction false} LazyRefinesEager<T>(s: Store<T>, now: real, ops: seq<Op<T>>)
    requires Monotone(ops)
    ensures LazyAnswers(s, now, ops) == EagerAnswers(Purge(s, now), now, ops)
    decreases |ops|
  {
    hide Purge, Monotone;
    if ops != [] {
      MonotoneTail(ops);
      PurgeOfSteps(s, now, ops[0]);
      match ops[0]
      case Get(k) =>
        LazyRefinesEager(AfterGet(s, now, k), now, ops[1..]);
      case Set(k, v, ttl) =>
        LazyRefinesEager(s[k := Entry(v, now + ttl)], now, ops[1..]);
      case Invalidate(k) =>
        LazyRefinesEager(s - {k}, now, ops[1..]);
      case Clear =>
        LazyRefinesEager(map[], now, ops[1..]);
      case Advance(dt) =>
        LazyRefinesEager(s, now + dt, ops[1..]);
    }
  }

  // ---------- get_or_set among coroutines ----------

  /**
    Where a coroutine inside `get_or_set` stands: past its first, missed read and waiting for the lock;
    holding the lock with its factory running; or returned.
  */
  datatype Pc<T> =
    | Waiting(key: string, ttl: real)
    | Running(key: string, ttl: real)
    | Returned(key: string, result: Option<T>)

  datatype World<T> = World(store: Store<T>, now: real, lock: Option<nat>, pcs: map<nat, Pc<T>>)

  /** The steps between awaits; each runs without interruption on the event loop. */
  datatype Event<T> =
    | Call(c: nat, key: string, ttl: real)    // enter get_or_set, first read
    | Proceed(c: nat)                         // take the free lock, second read
    | Fill(c: nat, made: Option<T>)           // the factory is done: set, release, return
    | Abort(c: nat)                           // the factory raises, or the coroutine is cancelled
    | Direct(op: Op<T>)                       // a plain cache call, or time passing

  predicate Enabled<T>(w: World<T>, e: Event<T>)
  {
    match e
    case Call(c, _, _) => c !in w.pcs
    case Proceed(c) => c in w.pcs && w.pcs[c].Waiting? && w.lock.None?
    case Fill(c, _) => c in w.pcs && w.pcs[c].Running?
    case Abort(c) => c in w.pcs && !w.pcs[c].Returned?
    case Direct(op) => op.Advance? ==> op.dt >= 0.0
  }

  function ApplyOp<T>(w: World<T>, op: Op<T>): World<T>
  {
    match op
    case Get(k) => w.(store := AfterGet(w.store, w.now, k))
    case Set(k, v, ttl) => w.(store := w.store[k := Entry(v, w.now + ttl)])
    case Invalidate(k) => w.(store := w.store - {k})
    case Clear => w.(store := map[])
    case Advance(dt) => w.(now := w.now + dt)
  }

  /** An event that is not enabled leaves the world as it is, so every sequence of events is a run. */
  function Apply<T>(w: World<T>, e: Event<T>): World<T>
  {
    if !Enabled(w, e) then w
    else
      match e
      case Call(c, k, ttl) =>
        var hit := Answer(w.store, w.now, k);
        w.(store := AfterGet(w.store, w.now, k),
           pcs := w.pcs[c := if hit.Some? then Returned(k, hit) else Waiting(k, ttl)])
      case Proceed(c) =>
        var k := w.pcs[c].key;
        var hit := Answer(w.store, w.now, k);
        if hit.Some? then w.(pcs := w.pcs[c := Returned(k, hit)])
        else w.(store := AfterGet(w.store, w.now, k), lock := Some(c), pcs := w.pcs[c := Running(k, w.pcs[c].ttl)])
      case Fill(c, made) =>
        var k := w.pcs[c].key;
        World(w.store[k := Entry(made, w.now + w.pcs[c].ttl)], w.now, None, w.pcs[c := Returned(k, made)])
      case Abort(c) =>
        w.(lock := if w.pcs[c].Running? then None else w.lock, pcs := w.pcs - {c})
      case Direct(op) => ApplyOp(w, op)
  }

  function Run<T>(w: World<T>, es: seq<Event<T>>): World<T>
  {
    if es == [] then w else Apply(Run(w, es[..|es| - 1]), es[|es| - 1])
  }

  /** This step starts a factory for `key`. */
  predicate StartsFactory<T>(w: World<T>, e: Event<T>, key: string)
  {
    e.Proceed? && Enabled(w, e) && w.pcs[e.c].key == key && Answer(w.store, w.now, key).None?
  }

  /** How many factories a run starts for `key`. */
  function Starts<T>(w: World<T>, es: seq<Event<T>>, key: string): nat
  {
    if es == [] then 0
    else
      var pre := es[..|es| - 1];
      Starts(w, pre, key) + (if StartsFactory(Run(w, pre), es[|es| - 1], key) then 1 else 0)
  }

  predicate RunningFor<T>(w: World<T>, c: nat, key: string)
  {
    c in w.pcs && w.pcs[c].Running? && w.pcs[c].key == key
  }

  /** A coroutine is running its factory exactly if it holds the lock. */
  ghost predicate LockInv<T>(w: World<T>)
  {
    forall c :: (c in w.pcs && w.pcs[c].Running?) <==> w.lock == Some(c)
  }

  lemma StepKeepsLock<T>(w: World<T>, e: Event<T>)
    requires LockInv(w)
    ensures LockInv(Apply(w, e)) && Apply(w, e).now >= w.now
  {
  }

  /** At most one factory runs at any time, whatever the interleaving and whatever the keys. */
  lemma {:induction false} SingleFlight<T>(w: World<T>, es: seq<Event<T>>, c: nat, d: nat)
    requires LockInv(w)
    ensures LockInv(Run(w, es)) && Run(w, es).now >= w.now
    ensures c in Run(w, es).pcs && d in Run(w, es).pcs && Run(w, es).pcs[c].Running? && Run(w, es).pcs[d].Running?
            ==> c == d
  {
    if es != [] {
      SingleFlight(w, es[..|es| - 1], c, d);
      StepKeepsLock(Run(w, es[..|es| - 1]), es[|es| - 1]);
    }
  }

  // ---------- what the cache answers, told from the history alone ----------

  /** The entry a step writes under `key`. */
  function Written<T>(w: World<T>, e: Event<T>, key: string): Option<Entry<T>>
  {
    if e.Fill? && Enabled(w, e) && w.pcs[e.c].key == key then Some(Entry(e.made, w.now + w.pcs[e.c].ttl))
    else if e.Direct? && e.op.Set? && e.op.key == key then Some(Entry(e.op.value, w.now + e.op.ttl))
    else None
  }

  predicate Erases<T>(e: Event<T>, key: string)
  {
    e.Direct? && (e.op.Clear? || (e.op.Invalidate? && e.op.key == key))
  }

  /** The last entry written under `key`, unless it was invalidated since: deadlines and reads play no part. */
  function LastWrite<T>(w: World<T>, es: seq<Event<T>>, key: string): Option<Entry<T>>
  {
    if es == [] then if key in w.store then Some(w.store[key]) else None
    else
      var pre, e := es[..|es| - 1], es[|es| - 1];
      if Written(Run(w, pre), e, key).Some? then Written(Run(w, pre), e, key)
      else if Erases(e, key) then None
      else LastWrite(w, pre, key)
  }

  ghost predicate Reflects<T>(w: World<T>, last: Option<Entry<T>>, key: string)
  {
    if key in w.store then last == Some(w.store[key]) else last.Some? ==> last.value.expireAt <= w.now
  }

  lemma StepReflects<T>(w: World<T>, e: Event<T>, last: Option<Entry<T>>, key: string)
    requires Reflects(w, last, key)
    ensures var last' := if Written(w, e, key).Some? then Written(w, e, key)
                         else if Erases(e, key) then None else last;
            Reflects(Apply(w, e), last', key)
  {
  }

  lemma {:induction false} StoreReflectsHistory<T>(w: World<T>, es: seq<Event<T>>, key: string)
    ensures Reflects(Run(w, es), LastWrite(w, es, key), key)
  {
    if es != [] {
      StoreReflectsHistory(w, es[..|es| - 1], key);
      StepReflects(Run(w, es[..|es| - 1]), es[|es| - 1], LastWrite(w, es[..|es| - 1], key), key);
    }
  }

  /** Any read, in any interleaving, answers the last value written if its deadline is still ahead, else nothing. */
  lemma ReadsLastLiveWrite<T>(w: World<T>, es: seq<Event<T>>, key: string)
    ensures var last, v := LastWrite(w, es, key), Run(w, es);
            Answer(v.store, v.now, key) ==
            if last.Some? && v.now < last.value.expireAt then last.value.value else None
  {
    StoreReflectsHistory(w, es, key);
  }

  // ---------- one factory run for many callers ----------

  /** A step of someone else that overwrites or removes the entry. */
  predicate Disturbs<T>(e: Event<T>, key: string)
  {
    Erases(e, key) || (e.Direct? && e.op.Set? && e.op.key == key)
  }

  /** `key` holds `v` until `deadline` and nobody is computing it. */
  ghost predicate Filled<T>(w: World<T>, key: string, v: T, deadline: real)
  {
    && key in w.store && w.store[key] == Entry(Some(v), deadline)
    && forall c :: !RunningFor(w, c, key)
  }

  lemma StepKeepsFilled<T>(w: World<T>, e: Event<T>, key: string, v: T, deadline: real)
    requires Filled(w, key, v, deadline) && !Disturbs(e, key) && w.now < deadline
    ensures Filled(Apply(w, e), key, v, deadline) && !StartsFactory(w, e, key)
  {
    assert e.Fill? ==> !RunningFor(w, e.c, key);
    forall c
      ensures !RunningFor(Apply(w, e), c, key)
    {
      assert !RunningFor(w, c, key);
    }
  }

  lemma {:induction false} FilledStaysFilled<T>(w: World<T>, es: seq<Event<T>>, key: string, v: T, deadline: real)
    requires LockInv(w) && Filled(w, key, v, deadline)
    requires forall i :: 0 <= i < |es| ==> !Disturbs(es[i], key)
    requires Run(w, es).now < deadline
    ensures Filled(Run(w, es), key, v, deadline) && Starts(w, es, key) == 0
  {
    if es != [] {
      var pre, e := es[..|es| - 1], es[|es| - 1];
      SingleFlight(w, pre, 0, 0);
      StepKeepsLock(Run(w, pre), e);
      FilledStaysFilled(w, pre, key, v, deadline);
      StepKeepsFilled(Run(w, pre), e, key, v, deadline);
    }
  }

  /**
    After a factory for `key` fills in a value at time t, the next factory for `key` starts only once the
    clock has reached t + ttl or someone invalidated, cleared or overwrote the entry.
  */
  lemma NextFactoryOnlyAfter<T>(w: World<T>, c: nat, v: T, es: seq<Event<T>>, key: string)
    requires LockInv(w) && RunningFor(w, c, key)
    requires Starts(Apply(w, Fill(c, Some(v))), es, key) > 0
    ensures Run(Apply(w, Fill(c, Some(v))), es).now >= w.now + w.pcs[c].ttl
            || exists i :: 0 <= i < |es| && Disturbs(es[i], key)
  {
    var w' := Apply(w, Fill(c, Some(v)));
    StepKeepsLock(w, Fill(c, Some(v)));
    assert w'.lock.None?;
    if Run(w', es).now < w.now + w.pcs[c].ttl && forall i :: 0 <= i < |es| ==> !Disturbs(es[i], key) {
      FilledStaysFilled(w', es, key, v, w.now + w.pcs[c].ttl);
    }
  }

  /** The step leaves alone what is computed for `key`: no disturbance, no abort, no fill with None or due by `end`. */
  ghost predicate Calm<T>(w: World<T>, e: Event<T>, key: string, end: real)
  {
    && !Disturbs(e, key)
    && (e.Abort? ==> !RunningFor(w, e.c, key))
    && (e.Fill? && RunningFor(w, e.c, key) ==> e.made.Some? && w.now + w.pcs[e.c].ttl > end)
  }

  ghost predicate CalmRun<T>(w: World<T>, es: seq<Event<T>>, key: string, end: real)
  {
    es == [] ||
    (CalmRun(w, es[..|es| - 1], key, end) && Calm(Run(w, es[..|es| - 1]), es[|es| - 1], key, end))
  }

  /** Has this coroutine asked for `key` and returned? */
  predicate HasReturned<T>(w: World<T>, c: nat, key: string)
  {
    c in w.pcs && w.pcs[c].Returned? && w.pcs[c].key == key
  }

  /**
    The three phases of a burst of callers: nothing computed yet, one factory running, its value in place.
    The coroutines in `before` had returned when the burst began.
  */
  ghost predicate Phase<T>(w: World<T>, before: set<nat>, starts: nat, key: string, end: real)
  {
    && LockInv(w)
    && starts <= 1
    && (forall c :: c in before ==> c in w.pcs && w.pcs[c].Returned?)
    && (starts == 0 ==> Uncomputed(w, before, key) && forall c :: !RunningFor(w, c, key))
    && (starts == 1 ==> if InFlight(w, key) then Uncomputed(w, before, key) else Computed(w, before, key, end))
  }

  ghost predicate Uncomputed<T>(w: World<T>, before: set<nat>, key: string)
  {
    Answer(w.store, w.now, key).None? && NoneReturned(w, before, key)
  }

  ghost predicate Computed<T>(w: World<T>, before: set<nat>, key: string, end: real)
  {
    && key in w.store && w.store[key].value.Some? && w.store[key].expireAt > end
    && forall c :: HasReturned(w, c, key) && c !in before ==> w.pcs[c].result == w.store[key].value
  }

  predicate InFlight<T>(w: World<T>, key: string)
  {
    w.lock.Some? && RunningFor(w, w.lock.value, key)
  }

  ghost predicate NoneReturned<T>(w: World<T>, before: set<nat>, key: string)
  {
    forall c :: HasReturned(w, c, key) ==> c in before
  }

  lemma StepsOfAll<T>(w: World<T>, e: Event<T>, key: string)
    ensures var w' := Apply(w, e);
            forall c ::
              && (HasReturned(w', c, key) ==> HasReturned(w, c, key) || Returns(w, e, c))
              && (HasReturned(w, c, key) ==> HasReturned(w', c, key) && w'.pcs[c] == w.pcs[c])
              && (RunningFor(w', c, key) ==> RunningFor(w, c, key) || (StartsFactory(w, e, key) && e.c == c))
  {
    forall c
      ensures var w' := Apply(w, e);
              && (HasReturned(w', c, key) ==> HasReturned(w, c, key) || Returns(w, e, c))
              && (HasReturned(w, c, key) ==> HasReturned(w', c, key) && w'.pcs[c] == w.pcs[c])
              && (RunningFor(w', c, key) ==> RunningFor(w, c, key) || (StartsFactory(w, e, key) && e.c == c))
    {
      StepOfOne(w, e, c, key);
    }
  }

  /** While nothing is computed, only the end of the key's own factory can compute it. */
  lemma StepFromUncomputed<T>(w: World<T>, before: set<nat>, e: Event<T>, starts: nat, key: string, end: real)
    requires Phase(w, before, starts, key, end) && Calm(w, e, key, end) && w.now <= end && Uncomputed(w, before, key)
    requires starts == 0 || InFlight(w, key)
    ensures Phase(Apply(w, e), before, starts + (if StartsFactory(w, e, key) then 1 else 0), key, end)
  {
    StepKeepsLock(w, e);
    StepsOfAll(w, e, key);
  }

  /** Once computed, the value outlasts the burst, so that nobody starts a factory. */
  lemma StepFromComputed<T>(w: World<T>, before: set<nat>, e: Event<T>, key: string, end: real)
    requires Phase(w, before, 1, key, end) && Calm(w, e, key, end) && w.now <= end && !InFlight(w, key)
    ensures Phase(Apply(w, e), before, 1, key, end) && !StartsFactory(w, e, key)
  {
    StepKeepsLock(w, e);
    StepsOfAll(w, e, key);
  }

  lemma StepKeepsPhase<T>(w: World<T>, before: set<nat>, e: Event<T>, starts: nat, key: string, end: real)
    requires Phase(w, before, starts, key, end) && Calm(w, e, key, end) && w.now <= end
    ensures Phase(Apply(w, e), before, starts + (if StartsFactory(w, e, key) then 1 else 0), key, end)
  {
    hide Apply, Calm, InFlight, StartsFactory, LockInv, Uncomputed, Computed;
    if starts == 1 && !InFlight(w, key) {
      StepFromComputed(w, before, e, key, end);
    } else {
      StepFromUncomputed(w, before, e, starts, key, end);
    }
  }

  /** A coroutine returns only by its own step, stays returned, and runs a factory only by starting it. */
  lemma StepOfOne<T>(w: World<T>, e: Event<T>, c: nat, key: string)
    ensures var w' := Apply(w, e);
            && (HasReturned(w', c, key) ==> HasReturned(w, c, key) || Returns(w, e, c))
            && (HasReturned(w, c, key) ==> HasReturned(w', c, key) && w'.pcs[c] == w.pcs[c])
            && (RunningFor(w', c, key) ==> RunningFor(w, c, key) || (StartsFactory(w, e, key) && e.c == c))
  {
  }

  /** Can this step make the coroutine return? */
  predicate Returns<T>(w: World<T>, e: Event<T>, c: nat)
  {
    (e.Call? || e.Proceed? || e.Fill?) && e.c == c && Enabled(w, e)
  }

  lemma {:induction false} BurstKeepsPhase<T>(w: World<T>, before: set<nat>, es: seq<Event<T>>, key: string, end: real)
    requires Phase(w, before, 0, key, end) && CalmRun(w, es, key, end) && Run(w, es).now <= end
    ensures Phase(Run(w, es), before, Starts(w, es, key), key, end)
  {
    hide Phase, Calm;
    if es != [] {
      var pre, e := es[..|es| - 1], es[|es| - 1];
      assert LockInv(w) by {
        PhaseHasLock(w, before, 0, key, end);
      }
      SingleFlight(w, pre, 0, 0);
      StepKeepsLock(Run(w, pre), e);
      BurstKeepsPhase(w, before, pre, key, end);
      StepKeepsPhase(Run(w, pre), before, e, Starts(w, pre, key), key, end);
    }
  }

  lemma PhaseHasLock<T>(w: World<T>, before: set<nat>, starts: nat, key: string, end: real)
    requires Phase(w, before, starts, key, end)
    ensures LockInv(w)
  {
  }

  /**
    From any reachable world where `key` has no live value and no factory of its own running, however many
    coroutines ask for it in a calm run, the factory runs at most once, exactly once if any of them
    returns in the run, and all that do get the same value. The lock may be held for another key, coroutines
    may be waiting, and earlier ones may have returned with anything.
  */
  lemma OneFactoryForAll<T>(w: World<T>, es: seq<Event<T>>, key: string, c: nat, d: nat)
    requires LockInv(w) && Answer(w.store, w.now, key).None? && forall i :: !RunningFor(w, i, key)
    requires CalmRun(w, es, key, Run(w, es).now)
    ensures Starts(w, es, key) <= 1
    ensures var pcs := Run(w, es).pcs;
            HasReturned(Run(w, es), c, key) && !HasReturned(w, c, key) ==>
              && Starts(w, es, key) == 1 && pcs[c].result.Some?
              && (HasReturned(Run(w, es), d, key) && !HasReturned(w, d, key) ==> pcs[d].result == pcs[c].result)
  {
    var before := set i | i in w.pcs && w.pcs[i].Returned? && w.pcs[i].key == key;
    BurstKeepsPhase(w, before, es, key, Run(w, es).now);
  }

  // ---------- when a fill shields the factory ----------

  predicate Undisturbed<T>(es: seq<Event<T>>, key: string)
  {
    forall i :: 0 <= i < |es| ==> !Disturbs(es[i], key)
  }

  lemma RunOfTwo<T>(w: World<T>, e: Event<T>, f: Event<T>, key: string)
    ensures Run(w, [e] + [f]) == Apply(Apply(w, e), f)
    ensures Starts(w, [e] + [f], key) ==
            (if StartsFactory(w, e, key) then 1 else 0) + (if StartsFactory(Apply(w, e), f, key) then 1 else 0)
  {
    assert ([e] + [f])[..1] == [e] && [e][..0] == [];
    assert Starts(w, [e], key) == Starts(w, [], key) + (if StartsFactory(Run(w, []), e, key) then 1 else 0);
  }

  /** With no live value and a free lock, the next caller starts a factory at once. */
  lemma MissStartsFactory<T>(w: World<T>, key: string) returns (es: seq<Event<T>>)
    requires w.lock.None? && Answer(w.store, w.now, key).None?
    ensures Undisturbed(es, key) && Run(w, es).now == w.now && Starts(w, es, key) > 0
  {
    var c := AboveAll(w.pcs.Keys);
    assert c !in w.pcs;
    RunOfTwo(w, Call(c, key, 1.0), Proceed(c), key);
    es := [Call(c, key, 1.0)] + [Proceed(c)];
  }

  /** The clock has not reached the deadline of a fill made at `w`, or has not moved at all. */
  predicate StillShielded<T>(w: World<T>, es: seq<Event<T>>, deadline: real)
  {
    Run(w, es).now < deadline || Run(w, es).now == w.now
  }

  /**
    A fill spares every later caller the factory, until its deadline or a disturbance, exactly if the value is
    not None and the time to live is positive. After a fill with None, or with a time to live of zero or
    less, the very next caller runs its factory again, at the same instant.
  */
  lemma FillShieldsExactly<T>(w: World<T>, c: nat, made: Option<T>, key: string)
    requires LockInv(w) && RunningFor(w, c, key)
    ensures made.Some? && w.pcs[c].ttl > 0.0 <==>
            forall es :: Undisturbed(es, key) && StillShielded(Apply(w, Fill(c, made)), es, w.now + w.pcs[c].ttl) ==>
              Starts(Apply(w, Fill(c, made)), es, key) == 0
  {
    var w', deadline := Apply(w, Fill(c, made)), w.now + w.pcs[c].ttl;
    StepKeepsLock(w, Fill(c, made));
    if made.Some? && w.pcs[c].ttl > 0.0 {
      forall es | Undisturbed(es, key) && StillShielded(w', es, deadline)
        ensures Starts(w', es, key) == 0
      {
        FilledStaysFilled(w', es, key, made.value, deadline);
      }
    } else {
      var es := MissStartsFactory(w', key);
      assert StillShielded(w', es, deadline);
    }
  }

  /** The steps of a `get_or_set` that misses and that nothing interrupts. */
  function MissAlone<T>(c: nat, key: string, ttl: real, made: Result<Option<T>, FactoryError>, took: real)
    : seq<Event<T>>
  {
    var last := if made.Success? then Fill(c, made.value) else Abort(c);
    [Call(c, key, ttl)] + [Proceed(c)] + [Direct(Advance(took))] + [last]
  }

  lemma RunSnoc<T>(w: World<T>, es: seq<Event<T>>, e: Event<T>)
    ensures Run(w, es + [e]) == Apply(Run(w, es), e)
  {
    assert (es + [e])[..|es|] == es;
  }

  /** The method `GetOrSet` is this run, so what is proved of runs holds of it. */
  lemma GetOrSetIsARun<T>(w: World<T>, c: nat, key: string, ttl: real,
                          made: Result<Option<T>, FactoryError>, took: real)
    requires w.lock.None? && c !in w.pcs && took >= 0.0 && Answer(w.store, w.now, key).None?
    ensures var w' := Run(w, MissAlone(c, key, ttl, made, took));
            && w'.store == (if made.Success? then w.store[key := Entry(made.value, w.now + took + ttl)]
                            else AfterGet(w.store, w.now, key))
            && w'.now == w.now + took && w'.lock.None?
            && w'.pcs == (if made.Success? then w.pcs[c := Returned(key, made.value)] else w.pcs)
  {
    var es := [Call(c, key, ttl)] + [Proceed(c)] + [Direct(Advance(took))];
    var last := if made.Success? then Fill(c, made.value) else Abort(c);
    MissRunsFactory(w, c, key, ttl, took);
    RunSnoc(w, es, last);
    assert w.pcs[c := Running(key, ttl)] - {c} == w.pcs;
  }

  lemma MissRunsFactory<T>(w: World<T>, c: nat, key: string, ttl: real, took: real)
    requires w.lock.None? && c !in w.pcs && took >= 0.0 && Answer(w.store, w.now, key).None?
    ensures Run(w, [Call(c, key, ttl)] + [Proceed(c)] + [Direct(Advance(took))]) ==
            World(AfterGet(w.store, w.now, key), w.now + took, Some(c), w.pcs[c := Running(key, ttl)])
  {
    var es1 := [Call(c, key, ttl)];
    RunSnoc(w, [], es1[0]);
    RunSnoc(w, es1, Proceed(c));
    RunSnoc(w, es1 + [Proceed(c)], Direct(Advance(took)));
  }
}
