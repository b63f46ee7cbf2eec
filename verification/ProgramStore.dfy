/**
  The program table and its `upsert`.

  The table has two unique columns, the primary key `id` and `identity_key`.  It is kept here as a map
  from identity keys, so the second constraint is the map's; the first is `IdsUnique`, and an insert
  that would break it raises an integrity error.
*/
module ProgramStore {
  import opened Prelude
  import opened Programs
  import opened Order
  import opened Dedup

  datatype Row = Row(
    id: string,
    title: string,
    description: Option<string>,
    channel: Channel,
    slot: TimeSlot,
    tags: seq<Tag>,
    sourceIds: seq<string>,
    createdAt: int,
    updatedAt: int,
    version: int)

  type Table = map<string, Row>

  datatype StorageError = IntegrityError

  /** A missing id is stored as the empty one. */
  function RowId(p: Program): string
  {
    if p.id.Some? then p.id.value else ""
  }

  function FromDomain(p: Program): Row
  {
    Row(RowId(p), p.title, p.description, p.channel, p.slot, p.tags, p.sourceIds, p.createdAt, p.updatedAt, p.version)
  }

  function ToDomain(key: string, r: Row): Program
  {
    Program(Some(r.id), r.title, r.description, r.channel, r.slot, r.tags, r.sourceIds, key,
            r.createdAt, r.updatedAt, r.version)
  }

  function Ids(t: Table): set<string>
  {
    set k | k in t :: t[k].id
  }

  predicate IdsUnique(t: Table)
  {
    forall j, k :: j in t && k in t && t[j].id == t[k].id ==> j == k
  }

  /** The source ids of row and program together, once each and sorted. */
  function MergedIds(r: Row, p: Program): seq<string>
  {
    SortedSet(r.sourceIds + p.sourceIds)
  }

  function Updated(r: Row, p: Program, now: int): Row
  {
    r.(title := p.title,
       description := p.description,
       slot := TimeSlot(p.slot.start, p.slot.end, r.slot.timezone),
       tags := p.tags,
       sourceIds := MergedIds(r, p),
       version := r.version + 1,
       updatedAt := now)
  }

  /** The table after one `upsert` at `now`. */
  function Upserted(t: Table, p: Program, now: int): Result<Table, StorageError>
  {
    var key := p.identityKey;
    if key in t then Success(t[key := Updated(t[key], p, now)])
    else if RowId(p) in Ids(t) then Failure(IntegrityError)
    else Success(t[key := FromDomain(p)])
  }

  /** The stored program with the key, if any. */
  function Find(t: Table, key: string): Option<Program>
  {
    if key in t then Some(ToDomain(key, t[key])) else None
  }

  /**
    An upsert is found again under its own key, field by field: a new program as it was given, with the empty id
    if it had none; a known one with its old id, channel, zone and creation time, the new content, and the source
    ids of both, sorted and once each. No other key finds anything different.
  */
  lemma UpsertThenFind(t: Table, p: Program, now: int, key: string)
    requires Upserted(t, p, now).Success?
    ensures var t' := Upserted(t, p, now).value;
            && (key != p.identityKey ==> Find(t', key) == Find(t, key))
            && Find(t', p.identityKey).Some?
            && var q := Find(t', p.identityKey).value;
               match Find(t, p.identityKey)
               case None => q == p.(id := Some(if p.id.Some? then p.id.value else ""))
               case Some(r) =>
                 && q == r.(title := p.title,
                            description := p.description,
                            slot := TimeSlot(p.slot.start, p.slot.end, r.slot.timezone),
                            tags := p.tags,
                            sourceIds := q.sourceIds,
                            version := r.version + 1,
                            updatedAt := now)
                 && StrictlySorted(q.sourceIds)
                 && Elements(q.sourceIds) == Elements(r.sourceIds) + Elements(p.sourceIds)
  {
    hide SortedSet, Elements, StrictlySorted;
    if p.identityKey in t {
      SourceIdsOfUpdate(t[p.identityKey], p, now);
    }
  }

  // ---------- runs of upserts ----------

  /** `clock(i)` is when the i-th upsert of the run happens. */
  function UpsertAll(t: Table, ps: seq<Program>, clock: nat -> int): Result<Table, StorageError>
  {
    if ps == [] then Success(t)
    else
      match UpsertAll(t, ps[..|ps| - 1], clock)
      case Failure(e) => Failure(e)
      case Success(t') => Upserted(t', ps[|ps| - 1], clock(|ps| - 1))
  }

  /** What a run does to the row of `key`, told from the programs with that key alone. */
  ghost predicate RowTellsGroup(t: Table, g: seq<Program>, t': Table, key: string)
  {
    && (key in t' <==> key in t || g != [])
    && (key in t && g == [] ==> t'[key] == t[key])
    && (key in t ==>
          && t'[key].id == t[key].id && t'[key].channel == t[key].channel && t'[key].createdAt == t[key].createdAt
          && t'[key].slot.timezone == t[key].slot.timezone
          && t'[key].version == t[key].version + |g|
          && Elements(t'[key].sourceIds) == Elements(t[key].sourceIds) + Elements(AllSourceIds(g)))
    && (key !in t && g != [] ==>
          && t'[key].id == RowId(g[0]) && t'[key].channel == g[0].channel && t'[key].createdAt == g[0].createdAt
          && t'[key].slot.timezone == g[0].slot.timezone
          && (|g| == 1 ==> t'[key].sourceIds == g[0].sourceIds)
          && t'[key].version == g[0].version + |g| - 1
          && Elements(t'[key].sourceIds) == Elements(AllSourceIds(g)))
    && ((key in t && g != []) || |g| >= 2 ==> StrictlySorted(t'[key].sourceIds))
    && (g != [] ==>
          var last := g[|g| - 1];
          && t'[key].title == last.title && t'[key].description == last.description && t'[key].tags == last.tags
          && t'[key].slot.start == last.slot.start && t'[key].slot.end == last.slot.end)
  }

  lemma SourceIdsOfUpdate(r: Row, p: Program, now: int)
    ensures Elements(Updated(r, p, now).sourceIds) == Elements(r.sourceIds) + Elements(p.sourceIds)
    ensures StrictlySorted(Updated(r, p, now).sourceIds)
  {
    SortedSetSorts(r.sourceIds + p.sourceIds);
    UnionOfElements(r.sourceIds, p.sourceIds);
  }

  lemma StepTellsGroup(t: Table, g: seq<Program>, t': Table, p: Program, now: int)
    requires RowTellsGroup(t, g, t', p.identityKey) && Upserted(t', p, now).Success?
    ensures RowTellsGroup(t, g + [p], Upserted(t', p, now).value, p.identityKey)
  {
    hide SortedSet, Elements, AllSourceIds, StrictlySorted;
    var key := p.identityKey;
    AllSourceIdsConcat(g, [p]);
    SourceIdsOfOne(p);
    UnionOfElements(AllSourceIds(g), p.sourceIds);
    if key in t' {
      SourceIdsOfUpdate(t'[key], p, now);
    } else {
      NoSourceIds();
    }
  }

  lemma SourceIdsOfOne(p: Program)
    ensures AllSourceIds([p]) == p.sourceIds
  {
    assert [p][..0] == [];
  }

  lemma NoSourceIds()
    ensures AllSourceIds([]) == [] && Elements<string>([]) == {}
  {
  }

  lemma OtherRowsStay(t: Table, g: seq<Program>, t': Table, p: Program, now: int, key: string)
    requires RowTellsGroup(t, g, t', key) && Upserted(t', p, now).Success? && p.identityKey != key
    ensures RowTellsGroup(t, g, Upserted(t', p, now).value, key)
  {
    hide SortedSet, Elements, AllSourceIds, StrictlySorted;
  }

  lemma NothingTold(t: Table, key: string)
    ensures RowTellsGroup(t, [], t, key)
  {
    NoSourceIds();
  }

  /**
    After any run of upserts a row's version is its inserted version plus the later upserts of its key, its
    source ids are all that were ever there, and its content is that of the last upsert.
  */
  lemma {:induction false} UpsertsTellGroups(t: Table, ps: seq<Program>, clock: nat -> int, key: string)
    requires UpsertAll(t, ps, clock).Success?
    ensures RowTellsGroup(t, Group(ps, key), UpsertAll(t, ps, clock).value, key)
  {
    hide RowTellsGroup, Upserted;
    if ps == [] {
      NothingTold(t, key);
    } else {
      var pre, p := ps[..|ps| - 1], ps[|ps| - 1];
      UpsertsTellGroups(t, pre, clock, key);
      if p.identityKey == key {
        StepTellsGroup(t, Group(pre, key), UpsertAll(t, pre, clock).value, p, clock(|pre|));
      } else {
        assert Group(ps, key) == Group(pre, key);
        OtherRowsStay(t, Group(pre, key), UpsertAll(t, pre, clock).value, p, clock(|pre|), key);
      }
    }
  }

  /** A row's `updated_at` is when its key was last upserted, or as given if that was its insert. */
  lemma {:induction false} UpdatedAtExactly(t: Table, ps: seq<Program>, clock: nat -> int, i: nat)
    requires UpsertAll(t, ps, clock).Success? && i < |ps|
    requires forall j :: i < j < |ps| ==> ps[j].identityKey != ps[i].identityKey
    ensures var key, t' := ps[i].identityKey, UpsertAll(t, ps, clock).value;
            && key in t'
            && t'[key].updatedAt ==
               if key in t || exists j :: 0 <= j < i && ps[j].identityKey == key then clock(i) else ps[i].updatedAt
  {
    hide SortedSet;
    var pre, key := ps[..|ps| - 1], ps[i].identityKey;
    if i == |pre| {
      KeysOfUpserts(t, pre, clock, key);
      InKeys(pre, key);
    } else {
      UpdatedAtExactly(t, pre, clock, i);
      assert pre[i] == ps[i];
      assert forall j :: 0 <= j < i ==> pre[j] == ps[j];
    }
  }

  lemma {:induction false} InKeys(ps: seq<Program>, key: string)
    ensures key in Keys(ps) <==> exists j :: 0 <= j < |ps| && ps[j].identityKey == key
  {
    if ps != [] {
      InKeys(ps[..|ps| - 1], key);
    }
  }

  lemma KeysOfUpserts(t: Table, ps: seq<Program>, clock: nat -> int, key: string)
    requires UpsertAll(t, ps, clock).Success?
    ensures key in UpsertAll(t, ps, clock).value <==> key in t || key in Keys(ps)
  {
    hide UpsertAll;
    UpsertsTellGroups(t, ps, clock, key);
    KeyInGroup(ps, key);
  }

  // ---------- when a run succeeds ----------

  /** The ids of the rows a run inserts: those of the first program of each key that the table lacks. */
  function InsertedIds(t: Table, ps: seq<Program>, keys: seq<string>): seq<string>
  {
    if keys == [] then []
    else
      var k := keys[|keys| - 1];
      InsertedIds(t, ps, keys[..|keys| - 1]) +
      (if k in t || Group(ps, k) == [] then [] else [RowId(Group(ps, k)[0])])
  }

  function NewIds(t: Table, ps: seq<Program>): seq<string>
  {
    InsertedIds(t, ps, Firsts(Keys(ps)))
  }

  lemma {:induction false} InsertedIdsSameFirsts(t: Table, ps: seq<Program>, qs: seq<Program>, keys: seq<string>)
    requires forall k :: k in keys ==>
               (Group(ps, k) == [] <==> Group(qs, k) == []) &&
               (Group(ps, k) != [] && Group(qs, k) != [] ==> RowId(Group(ps, k)[0]) == RowId(Group(qs, k)[0]))
    ensures InsertedIds(t, ps, keys) == InsertedIds(t, qs, keys)
  {
    hide Group;
    if keys != [] {
      InsertedIdsSameFirsts(t, ps, qs, keys[..|keys| - 1]);
      assert keys[|keys| - 1] in keys;
    }
  }

  /** Each upsert inserts at most its own id, and only for a key that is new to table and run. */
  lemma NewIdsSnoc(t: Table, ps: seq<Program>, p: Program)
    ensures NewIds(t, ps + [p]) ==
            NewIds(t, ps) + (if p.identityKey in t || p.identityKey in Keys(ps) then [] else [RowId(p)])
  {
    hide Group, Firsts, RowId;
    var qs, key, keys := ps + [p], p.identityKey, Firsts(Keys(ps));
    assert qs[..|ps|] == ps && Keys(qs) == Keys(ps) + [key];
    FirstsSnoc(Keys(ps), key);
    FirstsMembers(Keys(ps));
    forall k | k in keys
      ensures Group(ps, k) != [] && Group(qs, k) != [] && Group(qs, k)[0] == Group(ps, k)[0]
    {
      GroupNonEmpty(ps, k);
      GroupSnoc(ps, p, k);
    }
    InsertedIdsSameFirsts(t, ps, qs, keys);
    if key !in keys {
      KeyInGroup(ps, key);
      GroupSnoc(ps, p, key);
      assert (keys + [key])[..|keys|] == keys;
    }
  }

  lemma GroupSnoc(ps: seq<Program>, p: Program, k: string)
    ensures Group(ps + [p], k) == Group(ps, k) + (if p.identityKey == k then [p] else [])
  {
    assert (ps + [p])[..|ps|] == ps;
  }

  ghost predicate Fits(t: Table, ids: seq<string>)
  {
    Distinct(ids) && Elements(ids) !! Ids(t)
  }

  lemma FitsSnoc(t: Table, ids: seq<string>, x: string)
    ensures Fits(t, ids + [x]) <==> Fits(t, ids) && x !in Elements(ids) + Ids(t)
  {
    DistinctSnoc(ids, x);
    UnionOfElements(ids, [x]);
    assert Elements([x]) == {x};
  }

  lemma IdsOfUpserted(t: Table, p: Program, now: int)
    requires Upserted(t, p, now).Success?
    ensures Ids(Upserted(t, p, now).value) == if p.identityKey in t then Ids(t) else Ids(t) + {RowId(p)}
    ensures IdsUnique(t) ==> IdsUnique(Upserted(t, p, now).value)
  {
    var t', key := Upserted(t, p, now).value, p.identityKey;
    forall x
      ensures x in Ids(t') <==> x in Ids(t) || (key !in t && x == RowId(p))
    {
      if x in Ids(t) {
        var k :| k in t && t[k].id == x;
        assert k in t' && t'[k].id == x;
      }
      assert key in t' && t'[key].id in Ids(t');
    }
    if key !in t {
      assert forall k :: k in t ==> t[k].id in Ids(t);
    }
  }

  /**
    A run of upserts succeeds exactly when the ids it inserts are distinct and new to the table, and then
    the primary key stays unique. Programs without an id all insert the empty one.
  */
  lemma {:induction false} UpsertsSucceedExactly(t: Table, ps: seq<Program>, clock: nat -> int)
    ensures UpsertAll(t, ps, clock).Success? <==> Fits(t, NewIds(t, ps))
    ensures UpsertAll(t, ps, clock).Success? ==>
              var t' := UpsertAll(t, ps, clock).value;
              && Ids(t') == Ids(t) + Elements(NewIds(t, ps))
              && (IdsUnique(t) ==> IdsUnique(t'))
  {
    hide Upserted, Elements, Ids, Fits, IdsUnique, NewIds, Keys, Group;
    if ps == [] {
      NothingFits(t);
      NothingInserted(t);
    } else {
      var pre, p := ps[..|ps| - 1], ps[|ps| - 1];
      UpsertsSucceedExactly(t, pre, clock);
      NewIdsSnoc(t, pre, p);
      assert ps == pre + [p];
      FitsSnoc(t, NewIds(t, pre), RowId(p));
      assert NewIds(t, pre) + [] == NewIds(t, pre);
      if UpsertAll(t, pre, clock).Success? {
        var t' := UpsertAll(t, pre, clock).value;
        KeysOfUpserts(t, pre, clock, p.identityKey);
        UpsertSucceedsExactly(t', p, clock(|pre|));
        ElementsSnoc(NewIds(t, pre), RowId(p));
        if Upserted(t', p, clock(|pre|)).Success? {
          IdsOfUpserted(t', p, clock(|pre|));
        }
      }
    }
  }

  lemma NothingInserted(t: Table)
    ensures NewIds(t, []) == []
  {
  }

  lemma NothingFits(t: Table)
    ensures Fits(t, []) && Ids(t) + Elements([]) == Ids(t)
  {
  }

  lemma UpsertSucceedsExactly(t: Table, p: Program, now: int)
    ensures Upserted(t, p, now).Success? <==> p.identityKey in t || RowId(p) !in Ids(t)
  {
  }

  lemma ElementsSnoc(s: seq<string>, x: string)
    ensures Elements(s + [x]) == Elements(s) + {x}
  {
    UnionOfElements(s, [x]);
    assert Elements([x]) == {x};
  }

  lemma SizeOfUpserted(t: Table, p: Program, now: int)
    requires Upserted(t, p, now).Success?
    ensures |Upserted(t, p, now).value| == if p.identityKey in t then |t| else |t| + 1
  {
    var t', key := Upserted(t, p, now).value, p.identityKey;
    assert t'.Keys == t.Keys + {key};
  }

  /** A run that succeeds adds one row for each id it inserts, that is for each key new to the table. */
  lemma {:induction false} UpsertsAddRows(t: Table, ps: seq<Program>, clock: nat -> int)
    requires UpsertAll(t, ps, clock).Success?
    ensures |UpsertAll(t, ps, clock).value| == |t| + |NewIds(t, ps)|
  {
    hide Upserted, NewIds, Keys;
    if ps == [] {
      NothingInserted(t);
    } else {
      var pre, p := ps[..|ps| - 1], ps[|ps| - 1];
      UpsertsAddRows(t, pre, clock);
      NewIdsSnoc(t, pre, p);
      assert ps == pre + [p];
      KeysOfUpserts(t, pre, clock, p.identityKey);
      SizeOfUpserted(UpsertAll(t, pre, clock).value, p, clock(|pre|));
    }
  }

  // ---------- programs without an id ----------

  ghost function NewKeys(t: Table, ps: seq<Program>): set<string>
  {
    Elements(Keys(ps)) - t.Keys
  }

  predicate Idless(ps: seq<Program>)
  {
    forall p :: p in ps ==> p.id.None?
  }

  lemma NoNewKeys(t: Table)
    ensures NewKeys(t, []) == {}
  {
  }

  lemma NewKeysSnoc(t: Table, ps: seq<Program>, p: Program)
    ensures |NewKeys(t, ps + [p])| ==
            |NewKeys(t, ps)| + (if p.identityKey in t || p.identityKey in Keys(ps) then 0 else 1)
  {
    hide Keys, Elements, Group;
    assert Keys(ps + [p]) == Keys(ps) + [p.identityKey] by {
      BatchSnoc(ps, p);
    }
    ElementsSnoc(Keys(ps), p.identityKey);
    InElements(Keys(ps), p.identityKey);
    OneMore(Elements(Keys(ps)), t.Keys, p.identityKey);
  }

  lemma InElements(s: seq<string>, x: string)
    ensures x in Elements(s) <==> x in s
  {
  }

  lemma OneMore(s: set<string>, taken: set<string>, x: string)
    ensures |s + {x} - taken| == |s - taken| + (if x in taken || x in s then 0 else 1)
  {
    assert s + {x} - taken == if x in taken || x in s then s - taken else (s - taken) + {x};
  }

  lemma {:induction false} NewIdsOfIdless(t: Table, ps: seq<Program>)
    requires Idless(ps)
    ensures |NewIds(t, ps)| == |NewKeys(t, ps)|
    ensures forall id :: id in NewIds(t, ps) ==> id == ""
  {
    hide NewIds, Keys, NewKeys;
    if ps == [] {
      NothingInserted(t);
      NoNewKeys(t);
    } else {
      var pre, p := ps[..|ps| - 1], ps[|ps| - 1];
      assert ps == pre + [p];
      NewIdsOfIdless(t, pre);
      NewIdsSnoc(t, pre, p);
      NewKeysSnoc(t, pre, p);
    }
  }

  /**
    All programs without an id share the empty one: a run of them succeeds exactly if it brings no new key, or
    a single one into a table that has no row with the empty id yet.
  */
  lemma IdlessUpsertsSucceedExactly(t: Table, ps: seq<Program>, clock: nat -> int)
    requires Idless(ps)
    ensures UpsertAll(t, ps, clock).Success? <==>
            NewKeys(t, ps) == {} || (|NewKeys(t, ps)| == 1 && "" !in Ids(t))
  {
    hide UpsertAll, NewIds, NewKeys, Ids;
    var ids := NewIds(t, ps);
    UpsertsSucceedExactly(t, ps, clock);
    NewIdsOfIdless(t, ps);
    if |ids| >= 1 {
      assert ids[0] in ids && ids[0] in Elements(ids);
    }
    if |ids| >= 2 {
      assert ids[0] in ids && ids[1] in ids;
      assert !Distinct(ids);
    }
  }

  /** So such a run adds at most one row, and none to a table that has the empty id. */
  lemma IdlessUpsertsAddOneRow(t: Table, ps: seq<Program>, clock: nat -> int)
    requires Idless(ps) && UpsertAll(t, ps, clock).Success?
    ensures var t' := UpsertAll(t, ps, clock).value;
            && |t'| <= |t| + (if "" in Ids(t) then 0 else 1)
            && ("" in Ids(t) || |t'| > |t| ==> "" in Ids(t'))
  {
    hide UpsertAll, NewIds, NewKeys, Ids, Fits;
    UpsertsAddRows(t, ps, clock);
    NewIdsOfIdless(t, ps);
    IdlessUpsertsSucceedExactly(t, ps, clock);
    UpsertsSucceedExactly(t, ps, clock);
    var ids := NewIds(t, ps);
    if ids != [] {
      assert ids[0] in ids && ids[0] in Elements(ids);
    }
  }

  // ---------- merging first ----------

  lemma MergedInsertsTheSame(t: Table, ps: seq<Program>)
    ensures NewIds(t, Merged(ps)) == NewIds(t, ps)
  {
    var keys := Firsts(Keys(ps));
    FirstsMembers(Keys(ps));
    FirstsOfDistinct(keys);
    MergedKeysAndGroups(ps, "");
    forall k | k in keys
      ensures Group(ps, k) != [] && Group(Merged(ps), k) == [Combine(Group(ps, k))]
    {
      GroupNonEmpty(ps, k);
      MergedKeysAndGroups(ps, k);
    }
    InsertedIdsSameFirsts(t, Merged(ps), ps, keys);
  }

  lemma SameKeysSameSize(t: Table, u: Table)
    requires forall k :: k in t <==> k in u
    ensures t.Keys == u.Keys && |t| == |u|
  {
    assert t.Keys == u.Keys;
    assert |t| == |t.Keys| && |u| == |u.Keys|;
  }

  /**
    The row `r` a raw batch leaves under `k` against the row `m` the merged batch leaves, `g` being the
    programs of the batch with that key.
  */
  ghost predicate AgreesOn(t: Table, g: seq<Program>, r: Row, m: Row, k: string)
  {
    && r.id == m.id && r.channel == m.channel && r.createdAt == m.createdAt && r.slot.timezone == m.slot.timezone
    && r.sourceIds == m.sourceIds
    && (g != [] ==>
          var first, last := g[0], g[|g| - 1];
          && r.title == last.title && r.slot.start == last.slot.start && r.slot.end == last.slot.end
          && m.title == first.title && m.slot.start == first.slot.start && m.slot.end == first.slot.end)
    && (g != [] ==>
          if k in t then m.version == t[k].version + 1 && r.version == t[k].version + |g|
          else m.version == Combine(g).version && r.version == g[0].version + |g| - 1)
  }

  /**
    Upserting a merged batch and upserting every raw program agree for every table and every batch: both
    fail or both succeed, and then with the same keys, the same count, and under each key the same id, channel,
    creation time and list of source ids; versions, and which of the group's titles and times stay, differ as
    `AgreesOn` says.
  */
  lemma MergeThenUpsertAgrees(t: Table, ps: seq<Program>, clock: nat -> int, clock': nat -> int)
    ensures UpsertAll(t, ps, clock).Success? <==> UpsertAll(t, Merged(ps), clock').Success?
    ensures UpsertAll(t, ps, clock).Success? && UpsertAll(t, Merged(ps), clock').Success? ==>
              var a, b := UpsertAll(t, ps, clock).value, UpsertAll(t, Merged(ps), clock').value;
              && a.Keys == b.Keys && |a| == |b|
              && (forall k :: k in a && k in b ==> AgreesOn(t, Group(ps, k), a[k], b[k], k))
  {
    UpsertsSucceedExactly(t, ps, clock);
    UpsertsSucceedExactly(t, Merged(ps), clock');
    MergedInsertsTheSame(t, ps);
    if UpsertAll(t, ps, clock).Success? && UpsertAll(t, Merged(ps), clock').Success? {
      var a, b := UpsertAll(t, ps, clock).value, UpsertAll(t, Merged(ps), clock').value;
      forall k
        ensures k in a <==> k in b
        ensures k in a && k in b ==> AgreesOn(t, Group(ps, k), a[k], b[k], k)
      {
        AgreesOnKey(t, ps, clock, clock', k);
      }
      SameKeysSameSize(a, b);
    }
  }

  lemma AgreesOnKey(t: Table, ps: seq<Program>, clock: nat -> int, clock': nat -> int, k: string)
    requires UpsertAll(t, ps, clock).Success? && UpsertAll(t, Merged(ps), clock').Success?
    ensures var a, b := UpsertAll(t, ps, clock).value, UpsertAll(t, Merged(ps), clock').value;
            (k in a <==> k in b) && (k in a && k in b ==> AgreesOn(t, Group(ps, k), a[k], b[k], k))
  {
    hide Merged, Elements, AllSourceIds, UpsertAll, StrictlySorted;
    var g := Group(ps, k);
    UpsertsTellGroups(t, ps, clock, k);
    UpsertsTellGroups(t, Merged(ps), clock', k);
    MergedKeysAndGroups(ps, k);
    if g != [] {
      var a, b := UpsertAll(t, ps, clock).value[k], UpsertAll(t, Merged(ps), clock').value[k];
      FoldedSourceIds(g);
      SourceIdsOfOne(Combine(g));
      CombineKeepsFirst(g);
      if k in t || |g| >= 2 {
        if k !in t {
          SortedSetSorts(AllSourceIds(g));
        }
        SortedIsCanonical(a.sourceIds, b.sourceIds);
      }
    }
  }
}
