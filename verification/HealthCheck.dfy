/**
  The periodic health check: failing sources gather a stored streak and are paused once it reaches the
  threshold; operators enable, disable and pause sources between ticks.
*/
module HealthCheck {
  import opened Prelude
  import opened Order

  datatype Status = Active | Paused | Disabled

  datatype HealthRow = HealthRow(failStreak: nat, lastMessage: string)

  type Sources = map<string, Status>
  type Health = map<string, HealthRow>

  /** Both tables together. */
  datatype Fleet = Fleet(sources: Sources, health: Health)

  function Streak(h: Health, id: string): nat
  {
    if id in h then h[id].failStreak else 0
  }

  predicate IsActive(f: Fleet, id: string)
  {
    id in f.sources && f.sources[id].Active?
  }

  // ---------- repositories ----------

  class SourceHealthRepository {
    var rows: Health

    constructor ()
      ensures rows == map[]
    {
      rows := map[];
    }

    method Increment(id: string, message: string) returns (streak: nat)
      modifies this
      ensures streak == Streak(old(rows), id) + 1
      ensures rows == old(rows)[id := HealthRow(streak, message)]
    {
      streak := 1;
      if id in rows {
        streak := rows[id].failStreak + 1;
      }
      rows := rows[id := HealthRow(streak, message)];
    }

    /** A source that never failed has no row, and gets none. */
    method Reset(id: string)
      modifies this
      ensures rows == if id in old(rows) then old(rows)[id := HealthRow(0, "ok")] else old(rows)
    {
      if id in rows {
        rows := rows[id := HealthRow(0, "ok")];
      }
    }
  }

  class SourceRegistry {
    var sources: Sources

    constructor (sources: Sources)
      ensures this.sources == sources
    {
      this.sources := sources;
    }

    /** The active sources in whatever order the database lists them. */
    method ListActive() returns (ids: seq<string>)
      ensures Distinct(ids) && forall id :: id in ids <==> id in sources && sources[id].Active?
    {
      var left := set id | id in sources && sources[id].Active?;
      ids := [];
      while left != {}
        invariant Distinct(ids)
        invariant forall id :: id in left ==> id !in ids
        invariant forall id :: id in ids || id in left <==> id in sources && sources[id].Active?
        decreases left
      {
        var id :| id in left;
        left := left - {id};
        ids := ids + [id];
      }
    }

    /** `enable`, `disable` and `pause`: an unknown source is ignored. */
    method SetStatus(id: string, status: Status)
      modifies this
      ensures sources == if id in old(sources) then old(sources)[id := status] else old(sources)
    {
      if id in sources {
        sources := sources[id := status];
      }
    }
  }

  // ---------- one tick ----------

  /** The check of one source: `dead` maps the sources that fail to the message of their failure. */
  function Checked(f: Fleet, threshold: int, dead: map<string, string>, id: string): Fleet
  {
    if id in dead then
      var streak := Streak(f.health, id) + 1;
      Fleet(if streak >= threshold && id in f.sources then f.sources[id := Paused] else f.sources,
            f.health[id := HealthRow(streak, dead[id])])
    else if id in f.health then f.(health := f.health[id := HealthRow(0, "ok")])
    else f
  }

  function CheckEach(f: Fleet, threshold: int, dead: map<string, string>, ids: seq<string>): Fleet
  {
    if ids == [] then f
    else Checked(CheckEach(f, threshold, dead, ids[..|ids| - 1]), threshold, dead, ids[|ids| - 1])
  }

  /** All the given sources checked at once, each on its own row. */
  function Tick(f: Fleet, threshold: int, dead: map<string, string>, ids: set<string>): Fleet
  {
    Fleet(map id | id in f.sources ::
            if id in ids && id in dead && Streak(f.health, id) + 1 >= threshold then Paused else f.sources[id],
          map id | id in f.health.Keys + (ids * dead.Keys) ::
            if id !in ids then f.health[id]
            else if id in dead then HealthRow(Streak(f.health, id) + 1, dead[id])
            else HealthRow(0, "ok"))
  }

  function ActiveIds(f: Fleet): set<string>
  {
    set id | id in f.sources && f.sources[id].Active?
  }

  lemma CheckedIsTick(f: Fleet, threshold: int, dead: map<string, string>, ids: set<string>, id: string)
    requires id !in ids
    ensures Checked(Tick(f, threshold, dead, ids), threshold, dead, id) == Tick(f, threshold, dead, ids + {id})
  {
    CheckedSources(f, threshold, dead, ids, id);
    CheckedHealth(f, threshold, dead, ids, id);
  }

  lemma CheckedSources(f: Fleet, threshold: int, dead: map<string, string>, ids: set<string>, id: string)
    requires id !in ids
    ensures Checked(Tick(f, threshold, dead, ids), threshold, dead, id).sources ==
            Tick(f, threshold, dead, ids + {id}).sources
  {
    assert Streak(Tick(f, threshold, dead, ids).health, id) == Streak(f.health, id);
  }

  lemma CheckedHealth(f: Fleet, threshold: int, dead: map<string, string>, ids: set<string>, id: string)
    requires id !in ids
    ensures Checked(Tick(f, threshold, dead, ids), threshold, dead, id).health ==
            Tick(f, threshold, dead, ids + {id}).health
  {
    assert Streak(Tick(f, threshold, dead, ids).health, id) == Streak(f.health, id);
  }

  lemma TickOfNobody(f: Fleet, threshold: int, dead: map<string, string>)
    ensures Tick(f, threshold, dead, {}) == f
  {
    assert Tick(f, threshold, dead, {}).sources == f.sources;
    assert Tick(f, threshold, dead, {}).health == f.health;
  }

  /** The order in which a tick visits the sources does not matter. */
  lemma {:induction false} OrderDoesNotMatter(f: Fleet, threshold: int, dead: map<string, string>, ids: seq<string>)
    requires Distinct(ids)
    ensures CheckEach(f, threshold, dead, ids) == Tick(f, threshold, dead, Elements(ids))
  {
    hide Tick, Checked;
    if ids == [] {
      TickOfNobody(f, threshold, dead);
      assert Elements(ids) == {};
    } else {
      var pre, id := ids[..|ids| - 1], ids[|ids| - 1];
      OrderDoesNotMatter(f, threshold, dead, pre);
      CheckedIsTick(f, threshold, dead, Elements(pre), id);
      assert ids == pre + [id];
      assert Elements(ids) == Elements(pre) + {id};
    }
  }

  /** `health_check_loop` over the registry and the health table. */
  method HealthCheckLoop(registry: SourceRegistry, healthRepo: SourceHealthRepository,
                         threshold: int, dead: map<string, string>)
    modifies registry, healthRepo
    ensures var f := old(Fleet(registry.sources, healthRepo.rows));
            Fleet(registry.sources, healthRepo.rows) == Tick(f, threshold, dead, ActiveIds(f))
  {
    ghost var f := Fleet(registry.sources, healthRepo.rows);
    var ids := registry.ListActive();
    var i := 0;
    while i < |ids|
      invariant 0 <= i <= |ids|
      invariant Fleet(registry.sources, healthRepo.rows) == CheckEach(f, threshold, dead, ids[..i])
    {
      var id := ids[i];
      if id in dead {
        var streak := healthRepo.Increment(id, dead[id]);
        if streak >= threshold {
          registry.SetStatus(id, Paused);
        }
      } else {
        healthRepo.Reset(id);
      }
      assert ids[..i + 1][..i] == ids[..i];
      i := i + 1;
    }
    assert ids[..i] == ids;
    OrderDoesNotMatter(f, threshold, dead, ids);
    assert Elements(ids) == ActiveIds(f);
  }

  // ---------- whole runs ----------

  datatype Event =
    | Check(dead: map<string, string>)
    | Operate(id: string, status: Status)

  function Step(f: Fleet, threshold: int, e: Event): Fleet
  {
    match e
    case Check(dead) => Tick(f, threshold, dead, ActiveIds(f))
    case Operate(id, status) => if id in f.sources then f.(sources := f.sources[id := status]) else f
  }

  function Run(f: Fleet, threshold: int, es: seq<Event>): Fleet
  {
    if es == [] then f else Step(Run(f, threshold, es[..|es| - 1]), threshold, es[|es| - 1])
  }

  /** The verdicts of the checks that were made of one source in a run: `true` for alive. */
  function History(f: Fleet, threshold: int, es: seq<Event>, id: string): seq<bool>
  {
    if es == [] then []
    else
      var pre, e := es[..|es| - 1], es[|es| - 1];
      History(f, threshold, pre, id) +
      (if e.Check? && IsActive(Run(f, threshold, pre), id) then [id !in e.dead] else [])
  }

  /** The stored streak is always the number of failed checks that end the source's own history. */
  lemma {:induction false} StreakIsTrailingFailures(f: Fleet, threshold: int, es: seq<Event>, id: string)
    requires Streak(f.health, id) == 0
    ensures Streak(Run(f, threshold, es).health, id) == TrailingFailures(History(f, threshold, es, id))
  {
    if es != [] {
      var pre, e := es[..|es| - 1], es[|es| - 1];
      StreakIsTrailingFailures(f, threshold, pre, id);
      var h := History(f, threshold, pre, id);
      if e.Check? {
        TrailingAppend(h, id !in e.dead);
      }
      assert h + [] == h;
    }
  }

  /** The message of the last check that was made of the source. */
  function LastMessage(f: Fleet, threshold: int, es: seq<Event>, id: string): string
  {
    if es == [] then ""
    else
      var pre, e := es[..|es| - 1], es[|es| - 1];
      if e.Check? && IsActive(Run(f, threshold, pre), id) then (if id in e.dead then e.dead[id] else "ok")
      else LastMessage(f, threshold, pre, id)
  }

  /** A source gets its row with its first failed check, and the row holds the message of the last check. */
  lemma {:induction false} RowTellsLastCheck(f: Fleet, threshold: int, es: seq<Event>, id: string)
    requires id !in f.health
    ensures var h := Run(f, threshold, es).health;
            && (id in h <==> false in History(f, threshold, es, id))
            && (id in h ==> h[id].lastMessage == LastMessage(f, threshold, es, id))
  {
    if es != [] {
      RowTellsLastCheck(f, threshold, es[..|es| - 1], id);
    }
  }

  predicate NeverEnabled(es: seq<Event>, id: string)
  {
    forall i :: 0 <= i < |es| ==> !(es[i].Operate? && es[i].id == id && es[i].status.Active?)
  }

  /** A source that is not active is not checked, and keeps its streak, until an operator enables it. */
  lemma {:induction false} RestsUntilEnabled(f: Fleet, threshold: int, es: seq<Event>, id: string)
    requires !IsActive(f, id) && NeverEnabled(es, id)
    ensures History(f, threshold, es, id) == [] && !IsActive(Run(f, threshold, es), id)
    ensures Streak(Run(f, threshold, es).health, id) == Streak(f.health, id)
    ensures id in Run(f, threshold, es).sources <==> id in f.sources
  {
    if es != [] {
      var pre := es[..|es| - 1];
      assert NeverEnabled(pre, id);
      RestsUntilEnabled(f, threshold, pre, id);
    }
  }

  /** A failed check that brings the streak to the threshold is the last check until an operator steps in. */
  lemma ThresholdEndsChecks(f: Fleet, threshold: int, dead: map<string, string>, es: seq<Event>, id: string)
    requires IsActive(f, id) && id in dead && Streak(f.health, id) + 1 >= threshold && NeverEnabled(es, id)
    ensures var f' := Step(f, threshold, Check(dead));
            f'.sources[id].Paused? && History(f', threshold, es, id) == []
  {
    RestsUntilEnabled(Step(f, threshold, Check(dead)), threshold, es, id);
  }

  /** A run that does not check a source leaves its streak alone, whatever operators do in it. */
  lemma {:induction false} UncheckedKeepsStreak(f: Fleet, threshold: int, es: seq<Event>, id: string)
    requires History(f, threshold, es, id) == []
    ensures Streak(Run(f, threshold, es).health, id) == Streak(f.health, id)
  {
    if es != [] {
      var pre := es[..|es| - 1];
      assert History(f, threshold, pre, id) == [];
      UncheckedKeepsStreak(f, threshold, pre, id);
    }
  }

  /**
    Enabling does not clear the streak: a source active again with its streak at the threshold is paused by
    its first failed check, whatever happened in between that was not a check of it.
  */
  lemma RelapsePausesAtOnce(f: Fleet, threshold: int, es: seq<Event>, id: string, dead: map<string, string>)
    requires Streak(f.health, id) >= threshold && History(f, threshold, es, id) == []
    requires IsActive(Run(f, threshold, es), id) && id in dead
    ensures Step(Run(f, threshold, es), threshold, Check(dead)).sources[id].Paused?
  {
    UncheckedKeepsStreak(f, threshold, es, id);
  }

  // ---------- an untouched source ----------

  predicate Untouched(es: seq<Event>, id: string)
  {
    forall i :: 0 <= i < |es| ==> es[i].Operate? ==> es[i].id != id
  }

  /** Some tick of the run finds the source dead with its streak about to reach the threshold. */
  ghost predicate FailsAtThreshold(f: Fleet, threshold: int, es: seq<Event>, id: string)
  {
    exists i :: 0 <= i < |es| && FailsNow(Run(f, threshold, es[..i]), threshold, es[i], id)
  }

  predicate FailsNow(f: Fleet, threshold: int, e: Event, id: string)
  {
    e.Check? && id in e.dead && Streak(f.health, id) + 1 >= threshold
  }

  lemma FailsSnoc(f: Fleet, threshold: int, es: seq<Event>, e: Event, id: string)
    ensures FailsAtThreshold(f, threshold, es + [e], id) <==>
            FailsAtThreshold(f, threshold, es, id) || FailsNow(Run(f, threshold, es), threshold, e, id)
  {
    hide FailsNow, Run;
    var all := es + [e];
    assert all[..|es|] == es;
    assert forall i :: 0 <= i < |es| ==> all[..i] == es[..i] && all[i] == es[i];
  }

  lemma {:induction false} UntouchedStatus(f: Fleet, threshold: int, es: seq<Event>, id: string)
    requires id in f.sources && Untouched(es, id)
    ensures id in Run(f, threshold, es).sources
    ensures Run(f, threshold, es).sources[id] ==
            if f.sources[id].Active? && FailsAtThreshold(f, threshold, es, id) then Paused else f.sources[id]
  {
    hide FailsAtThreshold;
    if es == [] {
      NoFailsAtThreshold(f, threshold, id);
    } else {
      var pre, e := es[..|es| - 1], es[|es| - 1];
      assert Untouched(pre, id);
      UntouchedStatus(f, threshold, pre, id);
      FailsSnoc(f, threshold, pre, e, id);
      assert es == pre + [e];
    }
  }

  lemma NoFailsAtThreshold(f: Fleet, threshold: int, id: string)
    ensures !FailsAtThreshold(f, threshold, [], id)
  {
  }

  lemma {:induction false} RunConcat(f: Fleet, threshold: int, a: seq<Event>, b: seq<Event>)
    ensures Run(f, threshold, a + b) == Run(Run(f, threshold, a), threshold, b)
  {
    if b == [] {
      assert a + b == a;
    } else {
      RunConcat(f, threshold, a, b[..|b| - 1]);
      assert (a + b)[..|a + b| - 1] == a + b[..|b| - 1];
    }
  }

  lemma {:induction false} SameSources(f: Fleet, threshold: int, es: seq<Event>)
    ensures Run(f, threshold, es).sources.Keys == f.sources.Keys
  {
    if es != [] {
      SameSources(f, threshold, es[..|es| - 1]);
    }
  }

  /**
    What an operator sets a known source to, it stays until the next operator touches it, but for an active one
    that a failed check at the threshold pauses: so enabling makes it active, and pausing or disabling lasts.
  */
  lemma OperatorsSetStatus(f: Fleet, threshold: int, pre: seq<Event>, id: string, status: Status, post: seq<Event>)
    requires id in f.sources && Untouched(post, id)
    ensures var set' := Run(f, threshold, pre + [Operate(id, status)]);
            var end := Run(f, threshold, pre + [Operate(id, status)] + post);
            && id in end.sources
            && end.sources[id] ==
               if status.Active? && FailsAtThreshold(set', threshold, post, id) then Paused else status
  {
    hide FailsAtThreshold, Untouched;
    SameSources(f, threshold, pre);
    var all := pre + [Operate(id, status)];
    assert all[..|pre|] == pre;
    RunConcat(f, threshold, all, post);
    UntouchedStatus(Run(f, threshold, all), threshold, post, id);
  }

  /** What a check of the source would find at every tick of the run, made or not. */
  function Verdicts(es: seq<Event>, id: string): seq<bool>
  {
    if es == [] then []
    else
      var e := es[|es| - 1];
      Verdicts(es[..|es| - 1], id) + (if e.Check? then [id !in e.dead] else [])
  }

  /** Somewhere `n` failures follow one another. */
  ghost predicate HasFailRun(vs: seq<bool>, n: nat)
  {
    exists i :: AllFail(vs, i, n)
  }

  predicate AllFail(vs: seq<bool>, i: int, n: nat)
  {
    0 <= i && i + n <= |vs| && forall j :: i <= j < i + n ==> !vs[j]
  }

  lemma {:induction false} TrailingIsFailRun(vs: seq<bool>, n: nat)
    ensures TrailingFailures(vs) >= n <==> n <= |vs| && AllFail(vs, |vs| - n, n)
  {
    if vs != [] && n > 0 {
      var pre := vs[..|vs| - 1];
      TrailingIsFailRun(pre, n - 1);
      if n <= |vs| && !vs[|vs| - 1] {
        assert AllFail(vs, |vs| - n, n) <==> AllFail(pre, |vs| - n, n - 1);
      }
    }
  }

  lemma FailRunSnoc(vs: seq<bool>, v: bool, n: nat)
    requires n >= 1
    ensures HasFailRun(vs + [v], n) <==> HasFailRun(vs, n) || TrailingFailures(vs + [v]) >= n
  {
    var ws := vs + [v];
    TrailingIsFailRun(ws, n);
    if HasFailRun(ws, n) {
      var i :| AllFail(ws, i, n);
      if i + n <= |vs| {
        assert forall j :: i <= j < i + n ==> ws[j] == vs[j];
        assert AllFail(vs, i, n);
      } else {
        assert i == |ws| - n;
      }
    }
    if HasFailRun(vs, n) {
      var i :| AllFail(vs, i, n);
      assert forall j :: i <= j < i + n ==> ws[j] == vs[j];
      assert AllFail(ws, i, n);
    }
  }

  /** A threshold below one acts like one: a source is only looked at after a failed check. */
  function Needed(threshold: int): nat
  {
    if threshold >= 1 then threshold else 1
  }

  lemma {:induction false} UntouchedFollowsVerdicts(f: Fleet, threshold: int, es: seq<Event>, id: string)
    requires IsActive(f, id) && Streak(f.health, id) == 0 && Untouched(es, id)
    ensures var f', vs := Run(f, threshold, es), Verdicts(es, id);
            && id in f'.sources
            && (if HasFailRun(vs, Needed(threshold)) then f'.sources[id].Paused?
                else f'.sources[id].Active? && Streak(f'.health, id) == TrailingFailures(vs))
  {
    var n := Needed(threshold);
    if es == [] {
      assert forall i :: !AllFail([], i, n);
    } else {
      var pre, e := es[..|es| - 1], es[|es| - 1];
      assert Untouched(pre, id);
      UntouchedFollowsVerdicts(f, threshold, pre, id);
      var vs := Verdicts(pre, id);
      if e.Check? {
        FailRunSnoc(vs, id !in e.dead, n);
        TrailingAppend(vs, id !in e.dead);
      } else {
        assert vs + [] == vs;
      }
    }
  }

  /**
    An untouched source is paused in a run exactly when, at some point, as many consecutive ticks as the
    threshold asks found it dead; until then every tick checks it.
  */
  lemma PausedExactlyAfterConsecutiveFailures(f: Fleet, threshold: int, es: seq<Event>, id: string)
    requires IsActive(f, id) && Streak(f.health, id) == 0 && Untouched(es, id)
    ensures id in Run(f, threshold, es).sources
    ensures Run(f, threshold, es).sources[id].Paused? <==> HasFailRun(Verdicts(es, id), Needed(threshold))
    ensures !Run(f, threshold, es).sources[id].Disabled?
  {
    UntouchedFollowsVerdicts(f, threshold, es, id);
  }

  // ---------- operators in the middle of a tick ----------

  /** The tables, and the sources the running tick has listed but not checked yet. */
  datatype Patrol = Patrol(fleet: Fleet, agenda: seq<string>)

  /** The loop gives way to others while it waits for each verdict: `failure` is the message of a failed check. */
  datatype Move =
    | Begin(listed: seq<string>)
    | Verdict(failure: Option<string>)
    | Switch(id: string, status: Status)

  predicate CanMove(p: Patrol, m: Move)
  {
    match m
    case Begin(listed) => p.agenda == [] && Distinct(listed) && forall id :: id in listed ==> IsActive(p.fleet, id)
    case Verdict(_) => p.agenda != []
    case Switch(_, _) => true
  }

  function FailureMap(id: string, failure: Option<string>): map<string, string>
  {
    if failure.Some? then map[id := failure.value] else map[]
  }

  /** The source was copied when the tick began: pausing it writes PAUSED over whatever an operator set since. */
  function Moved(p: Patrol, threshold: int, m: Move): Patrol
  {
    match m
    case Begin(listed) => p.(agenda := listed)
    case Verdict(failure) =>
      if p.agenda == [] then p
      else
        var id := p.agenda[0];
        Patrol(Checked(p.fleet, threshold, FailureMap(id, failure), id), p.agenda[1..])
    case Switch(id, status) => p.(fleet := Step(p.fleet, threshold, Operate(id, status)))
  }

  function PatrolRun(p: Patrol, threshold: int, ms: seq<Move>): Patrol
  {
    if ms == [] then p else Moved(PatrolRun(p, threshold, ms[..|ms| - 1]), threshold, ms[|ms| - 1])
  }

  predicate IsPatrol(p: Patrol, threshold: int, ms: seq<Move>)
  {
    ms == [] ||
    (IsPatrol(p, threshold, ms[..|ms| - 1]) && CanMove(PatrolRun(p, threshold, ms[..|ms| - 1]), ms[|ms| - 1]))
  }

  predicate ChecksNow(p: Patrol, m: Move, id: string)
  {
    m.Verdict? && p.agenda != [] && p.agenda[0] == id
  }

  /** The verdicts given of one source. */
  function PatrolHistory(p: Patrol, threshold: int, ms: seq<Move>, id: string): seq<bool>
  {
    if ms == [] then []
    else
      var pre, m := ms[..|ms| - 1], ms[|ms| - 1];
      PatrolHistory(p, threshold, pre, id) +
      (if ChecksNow(PatrolRun(p, threshold, pre), m, id) then [m.failure.None?] else [])
  }

  lemma MovedStreak(p: Patrol, threshold: int, m: Move, id: string)
    ensures Streak(Moved(p, threshold, m).fleet.health, id) ==
            if !ChecksNow(p, m, id) then Streak(p.fleet.health, id)
            else if m.failure.None? then 0 else Streak(p.fleet.health, id) + 1
  {
  }

  /** The streak counts the trailing failures of the source's own checks whatever operators do, and whenever. */
  lemma {:induction false} PatrolStreakIsTrailingFailures(p: Patrol, threshold: int, ms: seq<Move>, id: string)
    requires Streak(p.fleet.health, id) == 0
    ensures Streak(PatrolRun(p, threshold, ms).fleet.health, id) ==
            TrailingFailures(PatrolHistory(p, threshold, ms, id))
  {
    hide Moved, TrailingFailures;
    if ms != [] {
      var pre, m := ms[..|ms| - 1], ms[|ms| - 1];
      PatrolStreakIsTrailingFailures(p, threshold, pre, id);
      MovedStreak(PatrolRun(p, threshold, pre), threshold, m, id);
      var h := PatrolHistory(p, threshold, pre, id);
      if m.Verdict? {
        TrailingAppend(h, m.failure.None?);
      }
      assert h + [] == h;
    } else {
      NoFailures();
    }
  }

  lemma NoFailures()
    ensures TrailingFailures([]) == 0
  {
  }

  /** The verdicts of a tick nobody interrupts. */
  function VerdictsOf(ids: seq<string>, dead: map<string, string>): seq<Move>
  {
    seq(|ids|, i requires 0 <= i < |ids| => Verdict(if ids[i] in dead then Some(dead[ids[i]]) else None))
  }

  lemma CheckedAlone(f: Fleet, threshold: int, dead: map<string, string>, id: string)
    ensures Checked(f, threshold, FailureMap(id, if id in dead then Some(dead[id]) else None), id) ==
            Checked(f, threshold, dead, id)
  {
  }

  lemma {:induction false} VerdictsRun(f: Fleet, threshold: int, ids: seq<string>, dead: map<string, string>, n: nat)
    requires n <= |ids|
    ensures PatrolRun(Patrol(f, ids), threshold, VerdictsOf(ids, dead)[..n]) ==
            Patrol(CheckEach(f, threshold, dead, ids[..n]), ids[n..])
  {
    hide Checked;
    var ms := VerdictsOf(ids, dead);
    if n > 0 {
      VerdictsRun(f, threshold, ids, dead, n - 1);
      assert ms[..n][..n - 1] == ms[..n - 1] && ids[..n][..n - 1] == ids[..n - 1];
      assert ids[n - 1..][0] == ids[n - 1] && ids[n - 1..][1..] == ids[n..];
      CheckedAlone(CheckEach(f, threshold, dead, ids[..n - 1]), threshold, dead, ids[n - 1]);
    }
  }

  /** A tick nobody interrupts is the atomic tick of the runs above. */
  lemma UninterruptedTickIsTick(f: Fleet, threshold: int, ids: seq<string>, dead: map<string, string>)
    requires Distinct(ids) && Elements(ids) == ActiveIds(f)
    ensures PatrolRun(Patrol(f, ids), threshold, VerdictsOf(ids, dead)) ==
            Patrol(Step(f, threshold, Check(dead)), [])
  {
    VerdictsRun(f, threshold, ids, dead, |ids|);
    assert VerdictsOf(ids, dead)[..|ids|] == VerdictsOf(ids, dead) && ids[..|ids|] == ids;
    OrderDoesNotMatter(f, threshold, dead, ids);
  }

  /** A failed check of the source in the run brings its streak to the threshold. */
  ghost predicate ReachesThreshold(p: Patrol, threshold: int, ms: seq<Move>, id: string)
  {
    exists i :: 0 <= i < |ms| && Reaches(PatrolRun(p, threshold, ms[..i]), threshold, ms[i], id)
  }

  predicate Reaches(p: Patrol, threshold: int, m: Move, id: string)
  {
    ChecksNow(p, m, id) && m.failure.Some? && Streak(p.fleet.health, id) + 1 >= threshold
  }

  predicate NotSwitched(ms: seq<Move>, id: string)
  {
    forall i :: 0 <= i < |ms| ==> ms[i].Switch? ==> ms[i].id != id
  }

  lemma MovedStatus(p: Patrol, threshold: int, m: Move, id: string)
    requires id in p.fleet.sources && (m.Switch? ==> m.id != id)
    ensures var p' := Moved(p, threshold, m);
            && id in p'.fleet.sources
            && p'.fleet.sources[id] == (if Reaches(p, threshold, m, id) then Paused else p.fleet.sources[id])
  {
  }

  lemma NothingReached(p: Patrol, threshold: int, id: string)
    ensures !ReachesThreshold(p, threshold, [], id)
  {
  }

  lemma ReachesSnoc(p: Patrol, threshold: int, ms: seq<Move>, m: Move, id: string)
    ensures ReachesThreshold(p, threshold, ms + [m], id) <==>
            ReachesThreshold(p, threshold, ms, id) || Reaches(PatrolRun(p, threshold, ms), threshold, m, id)
  {
    hide Reaches, PatrolRun;
    var all := ms + [m];
    assert all[..|ms|] == ms;
    assert forall i :: 0 <= i < |ms| ==> all[..i] == ms[..i] && all[i] == ms[i];
  }

  /**
    What an operator sets in the middle of a tick stays exactly until a failed check brings the streak to the
    threshold: then PAUSED is written over it, over DISABLED too.
  */
  lemma {:induction false} SwitchStaysExactly(p: Patrol, threshold: int, ms: seq<Move>, id: string)
    requires id in p.fleet.sources && !p.fleet.sources[id].Paused? && NotSwitched(ms, id)
    ensures id in PatrolRun(p, threshold, ms).fleet.sources
    ensures PatrolRun(p, threshold, ms).fleet.sources[id] ==
            if ReachesThreshold(p, threshold, ms, id) then Paused else p.fleet.sources[id]
  {
    hide Moved, Reaches, ReachesThreshold;
    if ms == [] {
      NothingReached(p, threshold, id);
    } else {
      var pre, m := ms[..|ms| - 1], ms[|ms| - 1];
      assert NotSwitched(pre, id);
      SwitchStaysExactly(p, threshold, pre, id);
      MovedStatus(PatrolRun(p, threshold, pre), threshold, m, id);
      ReachesSnoc(p, threshold, pre, m, id);
      assert ms == pre + [m];
    }
  }

  lemma PatrolSnoc(p: Patrol, threshold: int, ms: seq<Move>, m: Move)
    ensures PatrolRun(p, threshold, ms + [m]) == Moved(PatrolRun(p, threshold, ms), threshold, m)
    ensures IsPatrol(p, threshold, ms + [m]) <==> IsPatrol(p, threshold, ms) && CanMove(PatrolRun(p, threshold, ms), m)
  {
    assert (ms + [m])[..|ms|] == ms;
  }

  /**
    So an operator's DISABLED does not survive the tick it falls into: from any state in which one more failed
    check reaches the threshold, the tick that is checking the source when it is disabled leaves it PAUSED.
  */
  lemma DisabledInTickEndsPaused(f: Fleet, threshold: int, id: string, message: string)
    requires IsActive(f, id) && Streak(f.health, id) + 1 >= threshold
    ensures var p, ms := Patrol(f, []), [Begin([id])] + [Switch(id, Disabled)] + [Verdict(Some(message))];
            && IsPatrol(p, threshold, ms)
            && PatrolRun(p, threshold, ms[..2]).fleet.sources == f.sources[id := Disabled]
            && PatrolRun(p, threshold, ms).fleet.sources == f.sources[id := Paused]
  {
    var p, begun := Patrol(f, []), Patrol(f, [id]);
    var a, b := [Begin([id])], [Begin([id])] + [Switch(id, Disabled)];
    PatrolSnoc(p, threshold, [], Begin([id]));
    assert [] + a == a && Moved(p, threshold, Begin([id])) == begun;
    PatrolSnoc(p, threshold, a, Switch(id, Disabled));
    PatrolSnoc(p, threshold, b, Verdict(Some(message)));
    assert (b + [Verdict(Some(message))])[..2] == b;
  }

  predicate NeverSwitchedOn(ms: seq<Move>, id: string)
  {
    forall i :: 0 <= i < |ms| ==> !(ms[i].Switch? && ms[i].id == id && ms[i].status.Active?)
  }

  lemma DistinctTail(ids: seq<string>)
    requires ids != [] && Distinct(ids)
    ensures Distinct(ids[1..]) && ids[0] !in ids[1..]
  {
    assert forall i :: 0 <= i < |ids[1..]| ==> ids[1..][i] == ids[i + 1];
  }

  /** Of a source that is off, a move can only take the check it still had on the list. */
  lemma MovedOff(p: Patrol, threshold: int, m: Move, id: string)
    requires CanMove(p, m) && Distinct(p.agenda) && !IsActive(p.fleet, id)
    requires !(m.Switch? && m.id == id && m.status.Active?)
    ensures var p' := Moved(p, threshold, m);
            && Distinct(p'.agenda) && !IsActive(p'.fleet, id)
            && (id in p'.agenda ==> id in p.agenda && !ChecksNow(p, m, id))
            && (ChecksNow(p, m, id) ==> id in p.agenda)
  {
    hide Distinct;
    if m.Verdict? {
      DistinctTail(p.agenda);
    }
  }

  /**
    A source switched off in the middle of a tick is checked at most once more, and only if this tick has it
    on its list.
  */
  lemma {:induction false} AtMostOneMoreCheck(p: Patrol, threshold: int, ms: seq<Move>, id: string)
    requires IsPatrol(p, threshold, ms) && Distinct(p.agenda) && !IsActive(p.fleet, id) && NeverSwitchedOn(ms, id)
    ensures var p' := PatrolRun(p, threshold, ms);
            && Distinct(p'.agenda) && !IsActive(p'.fleet, id)
            && |PatrolHistory(p, threshold, ms, id)| + (if id in p'.agenda then 1 else 0) <=
               (if id in p.agenda then 1 else 0)
  {
    hide Moved, CanMove, Distinct, IsActive, ChecksNow;
    if ms != [] {
      var pre, m := ms[..|ms| - 1], ms[|ms| - 1];
      assert NeverSwitchedOn(pre, id);
      AtMostOneMoreCheck(p, threshold, pre, id);
      MovedOff(PatrolRun(p, threshold, pre), threshold, m, id);
    }
  }
}
