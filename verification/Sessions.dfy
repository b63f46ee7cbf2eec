/**
  Database sessions and the program repository that writes through one of them.

  A session keeps its flushed writes to itself until it commits.  `run_once` may open a session of its
  own, but its repository holds another, and it is through that one that every upsert goes.
*/
module Sessions {
  import opened Prelude
  import opened Programs
  import opened ProgramStore

  class Database {
    var committed: Table

    constructor (committed: Table)
      ensures this.committed == committed
    {
      this.committed := committed;
    }
  }

  class Session {
    const db: Database
    var pending: Table

    constructor (db: Database)
      ensures this.db == db && pending == map[]
    {
      this.db, pending := db, map[];
    }

    /** What the session reads: the committed rows, overlaid with its own writes. */
    function View(): Table
      reads this, db
    {
      db.committed + pending
    }

    method Commit()
      modifies this, db
      ensures db.committed == old(View()) && pending == map[]
    {
      db.committed := db.committed + pending;
      pending := map[];
    }

    method Rollback()
      modifies this
      ensures pending == map[]
    {
      pending := map[];
    }
  }

  class ProgramRepository {
    const session: Session

    constructor (session: Session)
      ensures this.session == session
    {
      this.session := session;
    }

    /** A flush that fails rolls its session back, as the ORM does: what was flushed before goes with it. */
    method Upsert(p: Program, now: int) returns (r: Result<Program, StorageError>)
      modifies session
      ensures match Upserted(old(session.View()), p, now)
              case Failure(e) => r == Failure(e) && session.pending == map[]
              case Success(t) =>
                && session.View() == t && r == Success(ToDomain(p.identityKey, t[p.identityKey]))
                && session.pending == old(session.pending)[p.identityKey := t[p.identityKey]]
    {
      var key, rows := p.identityKey, session.View();
      if key in rows {
        var existing := rows[key];
        existing := existing.(title := p.title, description := p.description);
        existing := existing.(slot := TimeSlot(p.slot.start, p.slot.end, existing.slot.timezone));
        existing := existing.(tags := p.tags, sourceIds := MergedIds(existing, p));
        existing := existing.(version := existing.version + 1, updatedAt := now);
        session.pending := session.pending[key := existing];
        assert session.View() == rows[key := existing];
        return Success(ToDomain(key, existing));
      }
      var row := FromDomain(p);
      if row.id in Ids(rows) {
        session.Rollback();
        return Failure(IntegrityError);
      }
      session.pending := session.pending[key := row];
      assert session.View() == rows[key := row];
      r := Success(ToDomain(key, row));
    }
  }

  // ---------- the same on values ----------

  /** The repository's session, and the one `run_once` opens. */
  datatype Lane = Repository | Own

  datatype Db = Db(committed: Table, repo: Table, own: Table)

  function Pending(db: Db, lane: Lane): Table
  {
    if lane.Repository? then db.repo else db.own
  }

  function WithPending(db: Db, lane: Lane, t: Table): Db
  {
    if lane.Repository? then db.(repo := t) else db.(own := t)
  }

  function View(db: Db, lane: Lane): Table
  {
    db.committed + Pending(db, lane)
  }

  function Commit(db: Db, lane: Lane): Db
  {
    WithPending(db.(committed := View(db, lane)), lane, map[])
  }

  function Rollback(db: Db, lane: Lane): Db
  {
    WithPending(db, lane, map[])
  }

  /** The database after a successful upsert through a session, if it goes through. */
  function UpsertVia(db: Db, lane: Lane, p: Program, now: int): Result<Db, StorageError>
  {
    match Upserted(View(db, lane), p, now)
    case Failure(e) => Failure(e)
    case Success(t) => Success(WithPending(db, lane, Pending(db, lane)[p.identityKey := t[p.identityKey]]))
  }

  /** An upsert shows in its own session as an upsert of the table, and nowhere else. */
  lemma UpsertViaShowsInItsLane(db: Db, lane: Lane, p: Program, now: int)
    ensures UpsertVia(db, lane, p, now).Success? <==> Upserted(View(db, lane), p, now).Success?
    ensures UpsertVia(db, lane, p, now).Success? ==>
              var db' := UpsertVia(db, lane, p, now).value;
              var other := if lane.Repository? then Own else Repository;
              && View(db', lane) == Upserted(View(db, lane), p, now).value
              && db'.committed == db.committed && Pending(db', other) == Pending(db, other)
  {
    if Upserted(View(db, lane), p, now).Success? {
      var t, key := Upserted(View(db, lane), p, now).value, p.identityKey;
      assert db.committed + Pending(db, lane)[key := t[key]] == View(db, lane)[key := t[key]];
    }
  }
}
