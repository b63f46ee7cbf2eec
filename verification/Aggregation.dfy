/** One crawl: fetch, parse, normalise, merge, upsert, and the job record that accounts for it. */
module Aggregation {
  import opened Prelude
  import opened Programs
  import opened Order
  import opened Dedup
  import opened ProgramStore
  import opened Sessions
  import Normalization
  import Text

  datatype JobStatus = RUNNING | SUCCESS | FAILED | PARTIAL_FAILURE

  datatype Job = Job(status: JobStatus, itemsFetched: nat, itemsSaved: nat, failed: bool)

  /** How far the crawl gets before anything is saved. */
  datatype Crawl = NoUrl | FetchRaises | ParseRaises | Parsed(programs: seq<Program>)

  /** The optional session factory: whether its session opens, and whether its final commit goes through. */
  datatype SessionFactory = NoFactory | Factory(opens: bool, commits: bool)

  /**
    The rest of the world: which upserts meet a storage outage, when each one happens, and whether an outage
    also rolls the session back, discarding what was flushed before. A failed insert always does.
  */
  datatype Env = Env(down: nat -> bool, clock: nat -> int, outageDiscards: bool)

  function ApplyNorm(p: Program): Program
  {
    p.(title := Normalization.NormalizeTitle(p.title))
  }

  function NormalizeAll(ps: seq<Program>): seq<Program>
  {
    if ps == [] then [] else NormalizeAll(ps[..|ps| - 1]) + [ApplyNorm(ps[|ps| - 1])]
  }

  /** The upserts from the i-th on, up to the first that fails: the table then, and how many went through. */
  function Save(t: Table, ps: seq<Program>, i: nat, env: Env): (Table, nat)
    requires i <= |ps|
    decreases |ps| - i
  {
    if i == |ps| || env.down(i) then (t, i)
    else
      match Upserted(t, ps[i], env.clock(i))
      case Failure(_) => (t, i)
      case Success(t') => Save(t', ps, i + 1, env)
  }

  /** What the handler writes when anything raises. */
  function Failed(saved: nat): Job
  {
    Job(if saved > 0 then PARTIAL_FAILURE else FAILED, 0, saved, true)
  }

  /** The programs a parsed crawl is about to save. */
  function Batch(programs: seq<Program>): seq<Program>
  {
    Merged(NormalizeAll(programs))
  }

  /** The same upserts through a session of the database. */
  function SaveVia(db: Db, lane: Lane, ps: seq<Program>, i: nat, env: Env): (Db, nat)
    requires i <= |ps|
    decreases |ps| - i
  {
    if i == |ps| then (db, i)
    else if env.down(i) then (if env.outageDiscards then Rollback(db, lane) else db, i)
    else
      match UpsertVia(db, lane, ps[i], env.clock(i))
      case Failure(_) => (Rollback(db, lane), i)
      case Success(db') => SaveVia(db', lane, ps, i + 1, env)
  }

  /**
    Database and job after `run_once`; the job fails exactly when the exception is raised again. The code's
    upserts go through the `Repository` lane, on both paths; `Own` is what its comments describe.
  */
  function Outcome(db: Db, crawl: Crawl, factory: SessionFactory, lane: Lane, env: Env): (Db, Job)
  {
    if !crawl.Parsed? || (factory.Factory? && !factory.opens) then (db, Failed(0))
    else
      var ps := Batch(crawl.programs);
      var (db', saved) := SaveVia(db, lane, ps, 0, env);
      if saved < |ps| || (factory.Factory? && !factory.commits) then
        (if factory.Factory? then Rollback(db', Own) else db', Failed(saved))
      else
        (if factory.Factory? then Commit(db', Own) else db', Job(SUCCESS, |ps|, saved, false))
  }

  class AggregationService {
    const repo: ProgramRepository
    const dedup: DedupService

    constructor (repo: ProgramRepository, dedup: DedupService)
      ensures this.repo == repo && this.dedup == dedup
    {
      this.repo, this.dedup := repo, dedup;
    }

    /** The database as the repository's session and a session with the writes `own` see it. */
    function At(own: Table): Db
      reads repo.session, repo.session.db
    {
      Db(repo.session.db.committed, repo.session.pending, own)
    }

    /** The upsert loop, the same on both paths. */
    method SaveAll(programs: seq<Program>, env: Env) returns (saved: nat)
      modifies repo.session
      ensures (At(map[]), saved) == SaveVia(old(At(map[])), Repository, programs, 0, env) && saved <= |programs|
    {
      saved := 0;
      while saved < |programs|
        invariant 0 <= saved <= |programs|
        invariant SaveVia(old(At(map[])), Repository, programs, 0, env) ==
                  SaveVia(At(map[]), Repository, programs, saved, env)
      {
        if env.down(saved) {
          if env.outageDiscards {
            repo.session.Rollback();
          }
          return;
        }
        var r := repo.Upsert(programs[saved], env.clock(saved));
        if r.Failure? {
          return;
        }
        saved := saved + 1;
      }
    }

    method RunOnce(crawl: Crawl, factory: SessionFactory, env: Env) returns (job: Job)
      modifies repo.session, repo.session.db
      ensures (At(map[]), job) == Outcome(old(At(map[])), crawl, factory, Repository, env)
    {
      hide SaveVia, Merged, NormalizeAll;
      job := Job(RUNNING, 0, 0, false);
      var saved := 0;
      var raised := !crawl.Parsed? || (factory.Factory? && !factory.opens);
      if !raised {
        var programs := NormalizeAll(crawl.programs);
        programs := dedup.Merge(programs);
        var own := new Session(repo.session.db);
        saved := SaveAll(programs, env);
        raised := saved < |programs| || (factory.Factory? && !factory.commits);
        if factory.Factory? {
          if raised {
            own.Rollback();
          } else {
            own.Commit();
          }
        }
        if !raised {
          job := job.(status := SUCCESS, itemsFetched := |programs|, itemsSaved := saved);
        }
      }
      if raised {
        job := job.(status := if saved > 0 then PARTIAL_FAILURE else FAILED, itemsSaved := saved, failed := true);
      }
    }
  }

  // ---------- accounting ----------

  lemma {:induction false} NormalizingKeepsKeys(ps: seq<Program>)
    ensures Keys(NormalizeAll(ps)) == Keys(ps)
  {
    if ps != [] {
      var pre := ps[..|ps| - 1];
      NormalizingKeepsKeys(pre);
      KeysConcat(NormalizeAll(pre), [ApplyNorm(ps[|ps| - 1])]);
      KeysOfOne(ApplyNorm(ps[|ps| - 1]));
    }
  }

  // ---------- what a batch holds ----------

  lemma {:induction false} NormalizedAt(ps: seq<Program>)
    ensures |NormalizeAll(ps)| == |ps| && forall i :: 0 <= i < |ps| ==> NormalizeAll(ps)[i] == ApplyNorm(ps[i])
  {
    hide ApplyNorm;
    if ps != [] {
      NormalizedAt(ps[..|ps| - 1]);
    }
  }

  lemma {:induction false} NormalizedGroup(ps: seq<Program>, key: string)
    ensures Group(NormalizeAll(ps), key) == NormalizeAll(Group(ps, key))
  {
    if ps != [] {
      var pre, p := ps[..|ps| - 1], ps[|ps| - 1];
      NormalizedGroup(pre, key);
      GroupSnoc(NormalizeAll(pre), ApplyNorm(p), key);
      GroupSnoc(pre, p, key);
      assert ps == pre + [p];
      NormKeepsIdAndKey(p);
      if p.identityKey == key {
        NormalizeSnoc(Group(pre, key), p);
      } else {
        assert Group(pre, key) + [] == Group(pre, key);
        assert Group(NormalizeAll(pre), key) + [] == Group(NormalizeAll(pre), key);
      }
    }
  }

  /** Programs that differ in their titles only. */
  predicate SameButTitles(a: seq<Program>, b: seq<Program>)
  {
    |a| == |b| && forall i :: 0 <= i < |a| ==> a[i] == b[i].(title := a[i].title)
  }

  lemma {:induction false} SameLists(a: seq<Program>, b: seq<Program>)
    requires SameButTitles(a, b)
    ensures AllSourceIds(a) == AllSourceIds(b) && AllTags(a) == AllTags(b)
    ensures a != [] ==> MaxVersion(a) == MaxVersion(b)
  {
    if a != [] {
      SameLists(a[..|a| - 1], b[..|b| - 1]);
    }
  }

  lemma {:induction false} SameDescription(a: seq<Program>, b: seq<Program>, d: Option<string>)
    requires SameButTitles(a, b)
    ensures FirstDescription(a, d) == FirstDescription(b, d)
  {
    if a != [] {
      SameDescription(a[1..], b[1..], d);
    }
  }

  lemma CombineNormalized(g: seq<Program>)
    requires g != []
    ensures NormalizeAll(g) != []
    ensures Combine(NormalizeAll(g)) == Combine(g).(title := Text.Join(Text.Words(g[0].title)))
  {
    hide AllSourceIds, AllTags, FirstDescription, MaxVersion, Firsts, SortedSet, NormalizeAll;
    var h := NormalizeAll(g);
    NormalizedAt(g);
    Normalization.NormalizedIsJoinedWords(g[0].title);
    assert h[0] == ApplyNorm(g[0]) && SameButTitles(h, g);
    SameLists(h, g);
    SameDescription(h, g, g[0].description);
  }

  /**
    What a crawl is about to save under a key, told from the parsed programs: their group folded, with the words of
    the first one's title joined by single spaces for a title. The keys come in the order they first occur.
  */
  lemma BatchTells(programs: seq<Program>, key: string)
    ensures Keys(Batch(programs)) == Firsts(Keys(programs))
    ensures Group(Batch(programs), key) ==
            var g := Group(programs, key);
            if g == [] then [] else [Combine(g).(title := Text.Join(Text.Words(g[0].title)))]
  {
    hide Combine;
    MergedKeysAndGroups(NormalizeAll(programs), key);
    NormalizedGroup(programs, key);
    NormalizingKeepsKeys(programs);
    if Group(programs, key) != [] {
      CombineNormalized(Group(programs, key));
    }
  }

  lemma KeysOfOne(p: Program)
    ensures Keys([p]) == [p.identityKey]
  {
    assert [p][..0] == [];
  }

  lemma {:induction false} DistinctCount(s: seq<string>)
    requires Distinct(s)
    ensures |Elements(s)| == |s|
  {
    if s != [] {
      var pre, x := s[..|s| - 1], s[|s| - 1];
      DistinctCount(pre);
      assert s == pre + [x];
      ElementsSnoc(pre, x);
    }
  }

  /** Whatever stops it, the loop has applied exactly the first programs of the batch, as many as it counted. */
  lemma {:induction false} SaveAppliesPrefix(t: Table, ps: seq<Program>, i: nat, env: Env, t0: Table)
    requires i <= |ps| && UpsertAll(t0, ps[..i], env.clock) == Success(t)
    ensures var (t', saved) := Save(t, ps, i, env);
            && i <= saved <= |ps|
            && UpsertAll(t0, ps[..saved], env.clock) == Success(t')
            && (saved < |ps| ==> env.down(saved) || Upserted(t', ps[saved], env.clock(saved)).Failure?)
            && forall j :: i <= j < saved ==> !env.down(j)
    decreases |ps| - i
  {
    hide Upserted;
    if i < |ps| && !env.down(i) && Upserted(t, ps[i], env.clock(i)).Success? {
      assert ps[..i + 1][..i] == ps[..i];
      SaveAppliesPrefix(Upserted(t, ps[i], env.clock(i)).value, ps, i + 1, env, t0);
    }
  }

  /** Stopping before the n-th upsert leaves the session what it flushed. */
  predicate Keeps(ps: seq<Program>, n: nat, env: Env)
  {
    n == |ps| || (env.down(n) && !env.outageDiscards)
  }

  /** Saving through a session is saving into what the session sees, until a failure that discards. */
  lemma {:induction false} SaveViaFollowsSave(db: Db, lane: Lane, ps: seq<Program>, i: nat, env: Env)
    requires i <= |ps|
    ensures var (db', saved) := SaveVia(db, lane, ps, i, env);
            var (t', m) := Save(View(db, lane), ps, i, env);
            var other := if lane.Repository? then Own else Repository;
            && saved == m <= |ps|
            && db'.committed == db.committed && Pending(db', other) == Pending(db, other)
            && (Keeps(ps, saved, env) ==> View(db', lane) == t')
            && (!Keeps(ps, saved, env) ==> Pending(db', lane) == map[])
    decreases |ps| - i
  {
    hide Upserted, UpsertVia, View;
    if i < |ps| && !env.down(i) {
      UpsertViaShowsInItsLane(db, lane, ps[i], env.clock(i));
      if UpsertVia(db, lane, ps[i], env.clock(i)).Success? {
        SaveViaFollowsSave(UpsertVia(db, lane, ps[i], env.clock(i)).value, lane, ps, i + 1, env);
      }
    }
  }

  /** What the code leaves for its repository's session to see. */
  function Visible(db: Db, crawl: Crawl, factory: SessionFactory, env: Env): Table
  {
    View(Outcome(db, crawl, factory, Repository, env).0, Repository)
  }

  function JobOf(db: Db, crawl: Crawl, factory: SessionFactory, env: Env): Job
  {
    Outcome(db, crawl, factory, Repository, env).1
  }

  /** The upsert that stops a run: it meets an outage or cannot go through. */
  predicate Stops(t: Table, ps: seq<Program>, n: nat, env: Env)
    requires n < |ps|
  {
    env.down(n) || Upserted(t, ps[n], env.clock(n)).Failure?
  }

  lemma CommitNothing(db: Db)
    requires db.own == map[]
    ensures Commit(db, Own) == db && Rollback(db, Own) == db
  {
    assert db.committed + map[] == db.committed;
  }

  lemma ViewOfCommitted(db: Db, lane: Lane)
    requires Pending(db, lane) == map[]
    ensures View(db, lane) == db.committed
  {
  }

  /**
    The status says how far the job came, and its count is the number of upserts that returned, the next one
    being what stopped it. The session sees the table with exactly these upserts applied, unless the failure
    discarded them; then it sees the committed rows only.
  */
  lemma JobAccountsForTable(db: Db, crawl: Crawl, factory: SessionFactory, env: Env)
    requires db.own == map[]
    ensures var job := JobOf(db, crawl, factory, env);
            && (job.status.PARTIAL_FAILURE? <==> job.failed && job.itemsSaved > 0)
            && (job.status.FAILED? <==> job.failed && job.itemsSaved == 0)
            && (job.status.SUCCESS? <==> !job.failed)
            && (job.failed ==> job.itemsFetched == 0)
    ensures !crawl.Parsed? || (factory.Factory? && !factory.opens) ==>
              Outcome(db, crawl, factory, Repository, env) == (db, Failed(0))
    ensures crawl.Parsed? && (factory.Factory? ==> factory.opens) ==>
              var ps, n := Batch(crawl.programs), JobOf(db, crawl, factory, env).itemsSaved;
              && n <= |ps|
              && var applied := UpsertAll(View(db, Repository), ps[..n], env.clock);
                 && applied.Success?
                 && (n < |ps| ==> JobOf(db, crawl, factory, env).failed && Stops(applied.value, ps, n, env))
                 && Visible(db, crawl, factory, env) ==
                      (if Keeps(ps, n, env) then applied.value else db.committed)
  {
    if crawl.Parsed? && (factory.Factory? ==> factory.opens) {
      SavedAccounts(db, crawl.programs, factory, env);
    }
  }

  lemma SavedAccounts(db: Db, programs: seq<Program>, factory: SessionFactory, env: Env)
    requires db.own == map[] && (factory.Factory? ==> factory.opens)
    ensures var crawl := Parsed(programs);
            var ps, job := Batch(programs), JobOf(db, crawl, factory, env);
            var n := job.itemsSaved;
            && n <= |ps|
            && var applied := UpsertAll(View(db, Repository), ps[..n], env.clock);
               && applied.Success?
               && (n < |ps| ==> job.failed && Stops(applied.value, ps, n, env))
               && (n == |ps| ==> job.failed == (factory.Factory? && !factory.commits))
               && Visible(db, crawl, factory, env) == (if Keeps(ps, n, env) then applied.value else db.committed)
  {
    hide Save, SaveVia, Batch, Upserted, View, UpsertAll;
    var ps := Batch(programs);
    assert UpsertAll(View(db, Repository), ps[..0], env.clock) == Success(View(db, Repository)) by {
      NothingToUpsert(View(db, Repository), ps, env.clock);
    }
    SaveAppliesPrefix(View(db, Repository), ps, 0, env, View(db, Repository));
    SaveViaFollowsSave(db, Repository, ps, 0, env);
    var (db', n) := SaveVia(db, Repository, ps, 0, env);
    CommitNothing(db');
    if !Keeps(ps, n, env) {
      ViewOfCommitted(db', Repository);
    }
  }

  /** No run of upserts leaves the table as it was: a key is new, or its version went up. */
  lemma UpsertsChangeTable(t: Table, ps: seq<Program>, clock: nat -> int)
    requires ps != [] && UpsertAll(t, ps, clock).Success?
    ensures UpsertAll(t, ps, clock).value != t
  {
    hide UpsertAll;
    var key := ps[0].identityKey;
    UpsertsTellGroups(t, ps, clock, key);
    KeyInGroup(ps, key);
    assert ps[0] in Group(ps, key);
  }

  // ---------- what stops a run, told from its input ----------

  predicate FirstUpsertPasses(t: Table, ps: seq<Program>, env: Env)
  {
    ps != [] && !env.down(0) && Upserted(t, ps[0], env.clock(0)).Success?
  }

  /** An outage comes before any upsert that cannot go through. */
  ghost predicate MeetsOutage(t: Table, ps: seq<Program>, env: Env)
  {
    exists i :: 0 <= i < |ps| && env.down(i) && Fits(t, NewIds(t, ps[..i]))
  }

  /** Every upsert goes through: the ids to insert are distinct and new, and there is no outage. */
  ghost predicate Completes(t: Table, ps: seq<Program>, env: Env)
  {
    Fits(t, NewIds(t, ps)) && forall i :: 0 <= i < |ps| ==> !env.down(i)
  }

  /** The first of some upserts that went through went through itself. */
  lemma PrefixFree(t: Table, ps: seq<Program>, env: Env, n: nat)
    requires 0 < n <= |ps| && UpsertAll(t, ps[..n], env.clock).Success?
    ensures Upserted(t, ps[0], env.clock(0)).Success?
  {
    hide Upserted;
    NextUpsertSucceeds(t, ps[..n], 0, env.clock);
    NothingToUpsert(t, ps[..n], env.clock);
  }

  /** Saving gets to the end exactly if every upsert goes through, and nowhere exactly if the first does not. */
  lemma SaveEndsExactly(t: Table, ps: seq<Program>, env: Env)
    ensures var n := Save(t, ps, 0, env).1;
            && n <= |ps|
            && (n == |ps| <==> Completes(t, ps, env))
            && (n == 0 <==> !FirstUpsertPasses(t, ps, env))
  {
    hide Save, Upserted, UpsertAll, Fits, NewIds;
    NothingToUpsert(t, ps, env.clock);
    SaveAppliesPrefix(t, ps, 0, env, t);
    var n := Save(t, ps, 0, env).1;
    UpsertsSucceedExactly(t, ps, env.clock);
    assert ps[..|ps|] == ps;
    if n < |ps| && UpsertAll(t, ps, env.clock).Success? {
      NextUpsertSucceeds(t, ps, n, env.clock);
    }
    if n > 0 {
      PrefixFree(t, ps, env, n);
    }
  }

  /** What stops it is an outage exactly if the run meets one, and otherwise the crawl's inserts clash. */
  lemma SaveStopsExactly(t: Table, ps: seq<Program>, env: Env)
    requires Save(t, ps, 0, env).1 < |ps|
    ensures var n := Save(t, ps, 0, env).1;
            && (env.down(n) <==> MeetsOutage(t, ps, env))
            && (!env.down(n) ==> !Fits(t, NewIds(t, ps)))
  {
    hide Save, Upserted, UpsertAll, Fits, NewIds;
    NothingToUpsert(t, ps, env.clock);
    SaveAppliesPrefix(t, ps, 0, env, t);
    var n := Save(t, ps, 0, env).1;
    UpsertsSucceedExactly(t, ps[..n], env.clock);
    if UpsertAll(t, ps, env.clock).Success? {
      NextUpsertSucceeds(t, ps, n, env.clock);
    }
    UpsertsSucceedExactly(t, ps, env.clock);
    if MeetsOutage(t, ps, env) {
      var i :| 0 <= i < |ps| && env.down(i) && Fits(t, NewIds(t, ps[..i]));
      OutageStops(t, ps, env, n, i);
    }
  }

  /** Of an outage met and an upsert that cannot go through, the one that stops the run comes first. */
  lemma OutageStops(t: Table, ps: seq<Program>, env: Env, n: nat, i: nat)
    requires n < |ps| && UpsertAll(t, ps[..n], env.clock).Success?
    requires Stops(UpsertAll(t, ps[..n], env.clock).value, ps, n, env) && forall j :: 0 <= j < n ==> !env.down(j)
    requires i < |ps| && env.down(i) && Fits(t, NewIds(t, ps[..i]))
    ensures env.down(n)
  {
    hide Upserted, UpsertAll, Fits, NewIds;
    UpsertsSucceedExactly(t, ps[..i], env.clock);
    if n < i {
      NextUpsertSucceeds(t, ps[..i], n, env.clock);
      assert ps[..i][..n] == ps[..n];
    }
  }

  /** Normalising and merging change nothing about the ids a crawl inserts. */
  lemma BatchInsertsTheSame(t: Table, parsed: seq<Program>)
    ensures NewIds(t, Batch(parsed)) == NewIds(t, parsed)
  {
    MergedInsertsTheSame(t, NormalizeAll(parsed));
    NormalizedInsertsTheSame(t, parsed);
  }

  lemma {:induction false} NormalizedInsertsTheSame(t: Table, ps: seq<Program>)
    ensures NewIds(t, NormalizeAll(ps)) == NewIds(t, ps)
  {
    hide NewIds, Keys;
    if ps != [] {
      var pre, p := ps[..|ps| - 1], ps[|ps| - 1];
      NormalizedInsertsTheSame(t, pre);
      NormalizingKeepsKeys(pre);
      NewIdsSnoc(t, pre, p);
      NewIdsSnoc(t, NormalizeAll(pre), ApplyNorm(p));
      assert ps == pre + [p];
    }
  }

  /**
    `items_saved` counts upserts that returned, not rows that survive. From a clean session the counted upserts
    are what the session still sees exactly in these cases: the first one did not pass; an outage stopped the
    run and left the session its writes; or no insert of the crawl clashes with another or with the table.
  */
  lemma CountedUpsertsSurviveExactly(db: Db, programs: seq<Program>, factory: SessionFactory, env: Env)
    requires db.own == map[] && db.repo == map[] && (factory.Factory? ==> factory.opens)
    ensures var t, ps, n := db.committed, Batch(programs), JobOf(db, Parsed(programs), factory, env).itemsSaved;
            && n <= |ps|
            && (Success(Visible(db, Parsed(programs), factory, env)) == UpsertAll(t, ps[..n], env.clock) <==>
                  || !FirstUpsertPasses(t, ps, env)
                  || (if MeetsOutage(t, ps, env) then !env.outageDiscards else Fits(t, NewIds(t, programs))))
  {
    hide SaveVia, Save, Batch, UpsertAll, NewIds, Fits, FirstUpsertPasses, MeetsOutage;
    var t, ps, n := db.committed, Batch(programs), JobOf(db, Parsed(programs), factory, env).itemsSaved;
    SavedAccounts(db, programs, factory, env);
    ViewOfCommitted(db, Repository);
    NothingToUpsert(t, ps, env.clock);
    SavedIsSave(db, programs, factory, env);
    SaveEndsExactly(t, ps, env);
    if n < |ps| {
      SaveStopsExactly(t, ps, env);
    }
    BatchInsertsTheSame(t, programs);
    if n > 0 {
      UpsertsChangeTable(t, ps[..n], env.clock);
    }
    if MeetsOutage(t, ps, env) {
      NoOutageWhenComplete(t, ps, env);
    }
  }

  lemma NoOutageWhenComplete(t: Table, ps: seq<Program>, env: Env)
    requires MeetsOutage(t, ps, env)
    ensures !Completes(t, ps, env)
  {
  }

  lemma SavedIsSave(db: Db, programs: seq<Program>, factory: SessionFactory, env: Env)
    requires factory.Factory? ==> factory.opens
    ensures JobOf(db, Parsed(programs), factory, env).itemsSaved ==
            Save(View(db, Repository), Batch(programs), 0, env).1
  {
    hide Save, SaveVia, Batch, View;
    SaveViaFollowsSave(db, Repository, Batch(programs), 0, env);
  }

  lemma NothingToUpsert(t: Table, ps: seq<Program>, clock: nat -> int)
    ensures UpsertAll(t, ps[..0], clock) == Success(t)
  {
    assert ps[..0] == [];
  }

  /** On SUCCESS saved equals fetched equals the number of distinct identity keys parsed, and all of them are stored. */
  lemma SuccessSavesEveryKey(db: Db, crawl: Crawl, factory: SessionFactory, env: Env, key: string)
    requires db.own == map[] && JobOf(db, crawl, factory, env).status.SUCCESS?
    ensures var job, seen := JobOf(db, crawl, factory, env), Visible(db, crawl, factory, env);
            && crawl.Parsed?
            && job.itemsSaved == job.itemsFetched == |Elements(Keys(crawl.programs))|
            && (key in seen <==> key in View(db, Repository) || key in Keys(crawl.programs))
  {
    var ps := Batch(crawl.programs);
    SuccessCounts(db, crawl, factory, env);
    SavedAccounts(db, crawl.programs, factory, env);
    assert ps[..|ps|] == ps;
    BatchKeys(crawl.programs, key);
    KeysOfUpserts(View(db, Repository), ps, env.clock, key);
  }

  lemma SuccessCounts(db: Db, crawl: Crawl, factory: SessionFactory, env: Env)
    requires JobOf(db, crawl, factory, env).status.SUCCESS?
    ensures crawl.Parsed? && (factory.Factory? ==> factory.opens && factory.commits)
    ensures var job := JobOf(db, crawl, factory, env);
            job.itemsSaved == job.itemsFetched == |Batch(crawl.programs)|
  {
    hide SaveVia, Batch;
    SaveViaFollowsSave(db, Repository, if crawl.Parsed? then Batch(crawl.programs) else [], 0, env);
  }

  lemma BatchKeys(parsed: seq<Program>, key: string)
    ensures |Batch(parsed)| == |Elements(Keys(parsed))|
    ensures key in Keys(Batch(parsed)) <==> key in Keys(parsed)
  {
    MergedKeysAndGroups(NormalizeAll(parsed), key);
    NormalizingKeepsKeys(parsed);
    KeysLength(Batch(parsed));
    FirstsMembers(Keys(parsed));
    DistinctCount(Firsts(Keys(parsed)));
  }

  lemma {:induction false} KeysLength(ps: seq<Program>)
    ensures |Keys(ps)| == |ps|
  {
    if ps != [] {
      KeysLength(ps[..|ps| - 1]);
    }
  }

  // ---------- crawling again ----------

  lemma {:induction false} NothingNewToInsert(t: Table, ps: seq<Program>, keys: seq<string>)
    requires forall k :: k in keys ==> k in t
    ensures InsertedIds(t, ps, keys) == []
  {
    if keys != [] {
      assert keys[|keys| - 1] in keys;
      NothingNewToInsert(t, ps, keys[..|keys| - 1]);
    }
  }

  lemma NextUpsertSucceeds(t: Table, ps: seq<Program>, n: nat, clock: nat -> int)
    requires n < |ps| && UpsertAll(t, ps, clock).Success?
    ensures UpsertAll(t, ps[..n], clock).Success?
    ensures Upserted(UpsertAll(t, ps[..n], clock).value, ps[n], clock(n)).Success?
  {
    hide Upserted;
    PrefixesSucceed(t, ps, n + 1, clock);
    assert ps[..n + 1][..n] == ps[..n];
  }

  /** Save falls short of the batch only at an outage or at an upsert that cannot go through. */
  lemma SaveOfWorkingBatch(t: Table, ps: seq<Program>, env: Env)
    requires forall i :: 0 <= i < |ps| ==> !env.down(i)
    requires UpsertAll(t, ps, env.clock).Success?
    ensures Save(t, ps, 0, env) == (UpsertAll(t, ps, env.clock).value, |ps|)
  {
    hide Save, Upserted;
    SaveAppliesPrefix(t, ps, 0, env, t);
    var (t', saved) := Save(t, ps, 0, env);
    assert ps[..0] == [] && ps[..|ps|] == ps;
    if saved < |ps| {
      NextUpsertSucceeds(t, ps, saved, env.clock);
    }
  }

  lemma {:induction false} PrefixesSucceed(t: Table, ps: seq<Program>, n: nat, clock: nat -> int)
    requires n <= |ps| && UpsertAll(t, ps, clock).Success?
    ensures UpsertAll(t, ps[..n], clock).Success?
  {
    if n == |ps| {
      assert ps[..n] == ps;
    } else {
      var pre := ps[..|ps| - 1];
      PrefixesSucceed(t, pre, n, clock);
      assert pre[..n] == ps[..n];
    }
  }

  /**
    Crawling again what is already stored cannot fail but for an outage, adds no row, and counts every
    row's version up by exactly one, however often its key occurs in the crawl.
  */
  lemma RecrawlAddsNoRows(db: Db, programs: seq<Program>, env: Env, key: string)
    requires db.own == map[] && forall k :: k in Keys(programs) ==> k in View(db, Repository)
    requires forall i: nat :: !env.down(i)
    ensures var t, t' := View(db, Repository), Visible(db, Parsed(programs), NoFactory, env);
            && JobOf(db, Parsed(programs), NoFactory, env).status.SUCCESS? && t'.Keys == t.Keys
            && (key in t && key in t' ==>
                  t'[key].version == t[key].version + (if key in Keys(programs) then 1 else 0))
  {
    hide Save, SaveVia, UpsertAll, Keys, Group, Firsts, View;
    var ps, t := Batch(programs), View(db, Repository);
    forall k
      ensures k in Keys(ps) <==> k in Keys(programs)
    {
      BatchKeys(programs, k);
    }
    FirstsMembers(Keys(ps));
    NothingNewToInsert(t, ps, Firsts(Keys(ps)));
    UpsertsSucceedExactly(t, ps, env.clock);
    NothingFits(t);
    SaveOfWorkingBatch(t, ps, env);
    SaveViaFollowsSave(db, Repository, ps, 0, env);
    forall k
      ensures k in UpsertAll(t, ps, env.clock).value <==> k in t
    {
      KeysOfUpserts(t, ps, env.clock, k);
    }
    UpsertsTellGroups(t, ps, env.clock, key);
    BatchGroups(programs, key);
  }

  lemma BatchGroups(parsed: seq<Program>, key: string)
    ensures |Group(Batch(parsed), key)| == if key in Keys(parsed) then 1 else 0
  {
    MergedKeysAndGroups(NormalizeAll(parsed), key);
    NormalizingKeepsKeys(parsed);
    KeyInGroup(NormalizeAll(parsed), key);
  }

  // ---------- two sessions ----------

  /** Whatever happens, the code commits nothing: that is left to whoever holds the repository's session. */
  lemma NothingIsCommitted(db: Db, crawl: Crawl, factory: SessionFactory, env: Env)
    requires db.own == map[]
    ensures Outcome(db, crawl, factory, Repository, env).0.committed == db.committed
  {
    hide SaveVia, Batch;
    if crawl.Parsed? {
      SaveViaFollowsSave(db, Repository, Batch(crawl.programs), 0, env);
      CommitNothing(SaveVia(db, Repository, Batch(crawl.programs), 0, env).0);
    }
  }

  /**
    The factory's transaction holds none of the upserts: rolling it back discards nothing and committing it
    publishes nothing, so the database ends up as without a factory, and so does the job unless the commit fails.
  */
  lemma FactoryRollsNothingBack(db: Db, crawl: Crawl, commits: bool, env: Env)
    requires db.own == map[]
    ensures var with, without := Outcome(db, crawl, Factory(true, commits), Repository, env),
                                 Outcome(db, crawl, NoFactory, Repository, env);
            && with.0 == without.0
            && (commits || without.1.failed ==> with.1 == without.1)
            && (!commits && !without.1.failed ==> with.1 == Failed(without.1.itemsSaved))
  {
    hide SaveVia, Batch;
    if crawl.Parsed? {
      SaveViaFollowsSave(db, Repository, Batch(crawl.programs), 0, env);
      CommitNothing(SaveVia(db, Repository, Batch(crawl.programs), 0, env).0);
    }
  }

  /**
    Were the upserts routed through the factory's session, the run would be the single transaction the
    comments describe: a failure restores the database, a success commits the whole batch.
  */
  lemma RoutedThroughFactoryAllOrNothing(db: Db, programs: seq<Program>, commits: bool, env: Env)
    requires db.own == map[]
    ensures var (db', job) := Outcome(db, Parsed(programs), Factory(true, commits), Own, env);
            && (job.failed ==> db' == db)
            && (!job.failed ==>
                  && UpsertAll(db.committed, Batch(programs), env.clock) == Success(db'.committed)
                  && db'.repo == db.repo && db'.own == map[])
  {
    hide Save, SaveVia, Batch, UpsertAll;
    var ps := Batch(programs);
    ViewOfCommitted(db, Own);
    NothingToUpsert(db.committed, ps, env.clock);
    SaveAppliesPrefix(db.committed, ps, 0, env, db.committed);
    SaveViaFollowsSave(db, Own, ps, 0, env);
    assert ps[..|ps|] == ps;
  }

  /**
    The factory path fails exactly if its commit does or some upsert cannot go through, and then reports zero
    saved, as its comment says, exactly if that is the first one.
  */
  lemma FailedFactoryJobReportsZeroExactly(db: Db, programs: seq<Program>, commits: bool, env: Env)
    requires db.own == map[]
    ensures var t, ps := View(db, Repository), Batch(programs);
            var job := JobOf(db, Parsed(programs), Factory(true, commits), env);
            && (job.failed <==> !commits || !Completes(t, ps, env))
            && (job.itemsSaved == 0 <==> !FirstUpsertPasses(t, ps, env))
  {
    hide Save, SaveVia, Batch, View, Completes, FirstUpsertPasses;
    SavedAccounts(db, programs, Factory(true, commits), env);
    SavedIsSave(db, programs, Factory(true, commits), env);
    SaveEndsExactly(View(db, Repository), Batch(programs), env);
  }

  // ---------- crawls of programs without ids ----------

  /**
    The parsers give programs no id. Such a crawl, undisturbed, succeeds exactly if it brings no new key, or a
    single one while the table has no row with the empty id; any other leaves nothing of what it counted.
  */
  lemma IdlessCrawlSucceedsExactly(db: Db, programs: seq<Program>, factory: SessionFactory, env: Env)
    requires db.own == map[] && (factory.Factory? ==> factory.opens && factory.commits)
    requires Idless(programs) && forall i: nat :: !env.down(i)
    ensures var t, keys := View(db, Repository), NewKeys(View(db, Repository), programs);
            && (JobOf(db, Parsed(programs), factory, env).status.SUCCESS? <==>
                  keys == {} || (|keys| == 1 && "" !in Ids(t)))
            && (JobOf(db, Parsed(programs), factory, env).failed ==>
                  Visible(db, Parsed(programs), factory, env) == db.committed)
  {
    hide Save, SaveVia, Batch, View, UpsertAll, NewIds, Fits, Ids, NewKeys;
    var t, ps := View(db, Repository), Batch(programs);
    SavedAccounts(db, programs, factory, env);
    SavedIsSave(db, programs, factory, env);
    SaveEndsExactly(t, ps, env);
    BatchInsertsTheSame(t, programs);
    UpsertsSucceedExactly(t, programs, env.clock);
    IdlessUpsertsSucceedExactly(t, programs, env.clock);
    assert JobOf(db, Parsed(programs), factory, env).failed <==> Save(t, ps, 0, env).1 < |ps|;
  }

  /**
    Two programs without ids and with different keys, new to a table without an empty id: on the factory path
    the job says that one was saved, and nothing is left of it.
  */
  lemma TwoIdlessPrograms(db: Db, p: Program, q: Program, env: Env)
    requires db.own == map[] && db.repo == map[] && forall i: nat :: !env.down(i)
    requires p.id.None? && q.id.None? && p.identityKey != q.identityKey
    requires p.identityKey !in db.committed && q.identityKey !in db.committed && "" !in Ids(db.committed)
    ensures Outcome(db, Parsed([p, q]), Factory(true, true), Repository, env) == (db, Job(PARTIAL_FAILURE, 0, 1, true))
  {
    hide Merged, SaveVia, NormalizeAll, ApplyNorm;
    PairNormalized(p, q);
    MergedIsSameExactly([ApplyNorm(p), ApplyNorm(q)]);
    SaveTwoIdless(db, ApplyNorm(p), ApplyNorm(q), env);
    CommitNothing(db);
  }

  lemma PairNormalized(p: Program, q: Program)
    ensures var a, b := ApplyNorm(p), ApplyNorm(q);
            && NormalizeAll([p, q]) == [a, b] && Keys([a, b]) == [p.identityKey, q.identityKey]
            && a.id == p.id && b.id == q.id && a.identityKey == p.identityKey && b.identityKey == q.identityKey
  {
    hide ApplyNorm;
    NormalizeSnoc([], p);
    NormalizeSnoc([p], q);
    BatchSnoc([], ApplyNorm(p));
    BatchSnoc([ApplyNorm(p)], ApplyNorm(q));
    assert [] + [p] == [p] && [p] + [q] == [p, q];
    NormKeepsIdAndKey(p);
    NormKeepsIdAndKey(q);
  }

  lemma NormKeepsIdAndKey(p: Program)
    ensures ApplyNorm(p).id == p.id && ApplyNorm(p).identityKey == p.identityKey
  {
  }

  lemma NormalizeSnoc(ps: seq<Program>, p: Program)
    ensures NormalizeAll(ps + [p]) == NormalizeAll(ps) + [ApplyNorm(p)]
  {
    assert (ps + [p])[..|ps|] == ps;
  }

  lemma SaveTwoIdless(db: Db, a: Program, b: Program, env: Env)
    requires db.own == map[] && db.repo == map[] && forall i: nat :: !env.down(i)
    requires a.id.None? && b.id.None? && a.identityKey != b.identityKey
    requires a.identityKey !in db.committed && b.identityKey !in db.committed && "" !in Ids(db.committed)
    ensures SaveVia(db, Repository, [a, b], 0, env) == (db, 1)
  {
    ViewOfCommitted(db, Repository);
    var first := UpsertVia(db, Repository, a, env.clock(0));
    UpsertViaShowsInItsLane(db, Repository, a, env.clock(0));
    assert View(first.value, Repository)[a.identityKey].id == "";
    UpsertViaShowsInItsLane(first.value, Repository, b, env.clock(1));
    assert UpsertVia(first.value, Repository, b, env.clock(1)).Failure?;
    assert Rollback(first.value, Repository) == db;
  }

  lemma {:induction false} CollectIsIdless(ps: seq<Program>, keys: seq<string>)
    requires Idless(ps)
    ensures Idless(Collect(ps, keys))
  {
    if keys != [] {
      var k := keys[|keys| - 1];
      CollectIsIdless(ps, keys[..|keys| - 1]);
      KeyInGroup(ps, k);
      if Group(ps, k) != [] {
        assert Group(ps, k)[0] in Group(ps, k);
      }
    }
  }

  lemma {:induction false} NormalizedIsIdless(ps: seq<Program>)
    requires Idless(ps)
    ensures Idless(NormalizeAll(ps))
  {
    if ps != [] {
      NormalizedIsIdless(ps[..|ps| - 1]);
      assert ps[|ps| - 1] in ps;
    }
  }

  /** The table after crawls whose sessions commit, one after another, what they see at the end. */
  function Crawled(t: Table, crawls: seq<(Crawl, SessionFactory, Env)>): Table
  {
    if crawls == [] then t
    else
      var t', (crawl, factory, env) := Crawled(t, crawls[..|crawls| - 1]), crawls[|crawls| - 1];
      Visible(Db(t', map[], map[]), crawl, factory, env)
  }

  lemma IdlessCrawlAddsOneRow(t: Table, crawl: Crawl, factory: SessionFactory, env: Env)
    requires crawl.Parsed? ==> Idless(crawl.programs)
    ensures var t' := Visible(Db(t, map[], map[]), crawl, factory, env);
            && |t'| <= |t| + (if "" in Ids(t) then 0 else 1)
            && ("" in Ids(t) || |t'| > |t| ==> "" in Ids(t'))
  {
    hide SaveVia, UpsertAll, Ids, Stops, Merged;
    var db := Db(t, map[], map[]);
    ViewOfCommitted(db, Repository);
    JobAccountsForTable(db, crawl, factory, env);
    if crawl.Parsed? && (factory.Factory? ==> factory.opens) {
      var ps, n := Batch(crawl.programs), JobOf(db, crawl, factory, env).itemsSaved;
      BatchIsIdless(crawl.programs);
      assert Idless(ps[..n]);
      IdlessUpsertsAddOneRow(t, ps[..n], env.clock);
    }
  }

  lemma BatchIsIdless(parsed: seq<Program>)
    requires Idless(parsed)
    ensures Idless(Batch(parsed))
  {
    NormalizedIsIdless(parsed);
    CollectIsIdless(NormalizeAll(parsed), Firsts(Keys(NormalizeAll(parsed))));
  }

  /**
    However often what the parsers give is crawled, with or without outages, the table gains at most one row,
    and none once it has one with the empty id.
  */
  lemma {:induction false} IdlessCrawlsAddOneRow(t: Table, crawls: seq<(Crawl, SessionFactory, Env)>)
    requires forall c :: c in crawls && c.0.Parsed? ==> Idless(c.0.programs)
    ensures |Crawled(t, crawls)| <= |t| + (if "" in Ids(t) then 0 else 1)
    ensures "" in Ids(t) || |Crawled(t, crawls)| > |t| ==> "" in Ids(Crawled(t, crawls))
  {
    hide Visible, Ids, Idless;
    if crawls != [] {
      var pre, c := crawls[..|crawls| - 1], crawls[|crawls| - 1];
      assert c in crawls;
      IdlessCrawlsAddOneRow(t, pre);
      IdlessCrawlAddsOneRow(Crawled(t, pre), c.0, c.1, c.2);
    }
  }
}
