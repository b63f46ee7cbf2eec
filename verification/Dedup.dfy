/** Programs, and the service that merges those sharing an identity key. */
module Programs {
  import opened Prelude

  datatype Tag = Tag(labelText: string, category: string)

  datatype Channel = Channel(
    id: string,
    name: string,
    logoUrl: Option<string>,
    country: Option<string>,
    language: Option<string>)

  /** Moments are counted from a fixed origin. */
  datatype TimeSlot = TimeSlot(start: int, end: int, timezone: string)

  datatype Program = Program(
    id: Option<string>,
    title: string,
    description: Option<string>,
    channel: Channel,
    slot: TimeSlot,
    tags: seq<Tag>,
    sourceIds: seq<string>,
    identityKey: string,
    createdAt: int,
    updatedAt: int,
    version: int)
}

module Dedup {
  import opened Prelude
  import opened Programs
  import opened Order

  // ---------- merging one group ----------

  function AllSourceIds(g: seq<Program>): seq<string>
  {
    if g == [] then [] else AllSourceIds(g[..|g| - 1]) + g[|g| - 1].sourceIds
  }

  function AllTags(g: seq<Program>): seq<Tag>
  {
    if g == [] then [] else AllTags(g[..|g| - 1]) + g[|g| - 1].tags
  }

  predicate HasDescription(p: Program)
  {
    p.description.Some? && p.description.value != ""
  }

  /** The first description that is neither missing nor empty, else `default`. */
  function FirstDescription(g: seq<Program>, default: Option<string>): Option<string>
  {
    if g == [] then default
    else if HasDescription(g[0]) then g[0].description
    else FirstDescription(g[1..], default)
  }

  function MaxVersion(g: seq<Program>): int
    requires g != []
  {
    var v := g[|g| - 1].version;
    if |g| == 1 then v
    else
      var m := MaxVersion(g[..|g| - 1]);
      if v > m then v else m
  }

  /** A group of one is kept as it is; a larger one is folded into a copy of its first program. */
  function Combine(g: seq<Program>): Program
    requires g != []
  {
    if |g| == 1 then g[0]
    else g[0].(sourceIds := SortedSet(AllSourceIds(g)),
               description := FirstDescription(g, g[0].description),
               tags := Firsts(AllTags(g)),
               version := MaxVersion(g))
  }

  // ---------- merging a batch ----------

  function Keys(ps: seq<Program>): seq<string>
  {
    if ps == [] then [] else Keys(ps[..|ps| - 1]) + [ps[|ps| - 1].identityKey]
  }

  function Group(ps: seq<Program>, key: string): seq<Program>
  {
    if ps == [] then []
    else Group(ps[..|ps| - 1], key) + (if ps[|ps| - 1].identityKey == key then [ps[|ps| - 1]] else [])
  }

  /** The group of `key` folded into one program, or nothing. */
  function Fold(ps: seq<Program>, key: string): seq<Program>
  {
    if Group(ps, key) == [] then [] else [Combine(Group(ps, key))]
  }

  function Collect(ps: seq<Program>, keys: seq<string>): seq<Program>
  {
    if keys == [] then [] else Collect(ps, keys[..|keys| - 1]) + Fold(ps, keys[|keys| - 1])
  }

  /** One program for every distinct key, in the order the keys first occur. */
  function Merged(ps: seq<Program>): seq<Program>
  {
    Collect(ps, Firsts(Keys(ps)))
  }

  lemma EmptyBatch()
    ensures Firsts(Keys([])) == [] && forall k :: Group([], k) == []
  {
  }

  lemma BatchSnoc(ps: seq<Program>, p: Program)
    ensures Keys(ps + [p]) == Keys(ps) + [p.identityKey]
    ensures forall k :: Group(ps + [p], k) == Group(ps, k) + (if p.identityKey == k then [p] else [])
  {
    assert (ps + [p])[..|ps|] == ps;
  }

  class DedupService {
    constructor () {}

    /** The ordered dictionary of tags, keyed by label and category. */
    method MergeTags(items: seq<Program>) returns (tagSet: seq<Tag>)
      ensures tagSet == Firsts(AllTags(items))
    {
      tagSet := [];
      var i := 0;
      while i < |items|
        invariant 0 <= i <= |items|
        invariant tagSet == Firsts(AllTags(items[..i]))
      {
        var before, tags := AllTags(items[..i]), items[i].tags;
        var j := 0;
        assert before + tags[..0] == before;
        while j < |tags|
          invariant 0 <= j <= |tags|
          invariant tagSet == Firsts(before + tags[..j])
        {
          assert before + tags[..j + 1] == before + tags[..j] + [tags[j]];
          FirstsSnoc(before + tags[..j], tags[j]);
          if tags[j] !in tagSet {
            tagSet := tagSet + [tags[j]];
          }
          j := j + 1;
        }
        assert items[..i + 1][..i] == items[..i] && tags[..|tags|] == tags;
        i := i + 1;
      }
      assert items[..i] == items;
    }

    /** The dictionary of groups: its keys in insertion order, and the group of each. */
    method GroupByKey(programs: seq<Program>) returns (order: seq<string>, groups: map<string, seq<Program>>)
      ensures order == Firsts(Keys(programs))
      ensures forall k :: k in groups <==> k in order
      ensures forall k :: Group(programs, k) == if k in groups then groups[k] else []
    {
      EmptyBatch();
      hide Firsts, Keys, Group;
      groups, order := map[], [];
      var i := 0;
      while i < |programs|
        invariant 0 <= i <= |programs|
        invariant order == Firsts(Keys(programs[..i]))
        invariant forall k :: k in groups <==> k in order
        invariant forall k :: Group(programs[..i], k) == if k in groups then groups[k] else []
      {
        var p := programs[i];
        BatchSnoc(programs[..i], p);
        assert programs[..i + 1] == programs[..i] + [p];
        FirstsSnoc(Keys(programs[..i]), p.identityKey);
        if p.identityKey in groups {
          groups := groups[p.identityKey := groups[p.identityKey] + [p]];
        } else {
          groups := groups[p.identityKey := [p]];
          order := order + [p.identityKey];
        }
        i := i + 1;
      }
      assert programs[..i] == programs;
    }

    method MergeGroup(items: seq<Program>) returns (base: Program)
      requires items != []
      ensures base == Combine(items)
    {
      base := items[0];
      if |items| > 1 {
        base := base.(sourceIds := SortedSet(AllSourceIds(items)));
        base := base.(description := FirstDescription(items, base.description));
        var tags := MergeTags(items);
        base := base.(tags := tags);
        base := base.(version := MaxVersion(items));
      }
    }

    method Merge(programs: seq<Program>) returns (merged: seq<Program>)
      ensures merged == Merged(programs)
    {
      hide Combine, Group, Firsts;
      var order, groups := GroupByKey(programs);
      merged := [];
      var n := 0;
      while n < |order|
        invariant 0 <= n <= |order|
        invariant merged == Collect(programs, order[..n])
      {
        var items := groups[order[n]];
        GroupNonEmpty(programs, order[n]);
        assert order[..n + 1][..n] == order[..n];
        var base := MergeGroup(items);
        merged := merged + [base];
        n := n + 1;
      }
      assert order[..n] == order;
    }
  }

  // ---------- batches and groups under concatenation ----------

  lemma {:induction false} KeysConcat(xs: seq<Program>, ys: seq<Program>)
    ensures Keys(xs + ys) == Keys(xs) + Keys(ys)
  {
    if ys == [] {
      assert xs + ys == xs;
    } else {
      KeysConcat(xs, ys[..|ys| - 1]);
      assert (xs + ys)[..|xs + ys| - 1] == xs + ys[..|ys| - 1];
    }
  }

  lemma {:induction false} GroupConcat(xs: seq<Program>, ys: seq<Program>, key: string)
    ensures Group(xs + ys, key) == Group(xs, key) + Group(ys, key)
  {
    if ys == [] {
      assert xs + ys == xs;
    } else {
      GroupConcat(xs, ys[..|ys| - 1], key);
      assert (xs + ys)[..|xs + ys| - 1] == xs + ys[..|ys| - 1];
    }
  }

  lemma {:induction false} AllSourceIdsConcat(g: seq<Program>, h: seq<Program>)
    ensures AllSourceIds(g + h) == AllSourceIds(g) + AllSourceIds(h)
  {
    if h == [] {
      assert g + h == g;
    } else {
      var pre, last := h[..|h| - 1], h[|h| - 1];
      AllSourceIdsConcat(g, pre);
      assert (g + h)[..|g + h| - 1] == g + pre && (g + h)[|g + h| - 1] == last;
      calc {
        AllSourceIds(g + h);
        AllSourceIds(g + pre) + last.sourceIds;
        AllSourceIds(g) + AllSourceIds(pre) + last.sourceIds;
        AllSourceIds(g) + (AllSourceIds(pre) + last.sourceIds);
        AllSourceIds(g) + AllSourceIds(h);
      }
    }
  }

  lemma {:induction false} AllTagsConcat(g: seq<Program>, h: seq<Program>)
    ensures AllTags(g + h) == AllTags(g) + AllTags(h)
  {
    if h == [] {
      assert g + h == g;
    } else {
      var pre, last := h[..|h| - 1], h[|h| - 1];
      AllTagsConcat(g, pre);
      assert (g + h)[..|g + h| - 1] == g + pre && (g + h)[|g + h| - 1] == last;
      calc {
        AllTags(g + h);
        AllTags(g + pre) + last.tags;
        AllTags(g) + AllTags(pre) + last.tags;
        AllTags(g) + (AllTags(pre) + last.tags);
        AllTags(g) + AllTags(h);
      }
    }
  }

  lemma {:induction false} MaxVersionConcat(g: seq<Program>, h: seq<Program>)
    requires g != [] && h != []
    ensures MaxVersion(g + h) == if MaxVersion(h) > MaxVersion(g) then MaxVersion(h) else MaxVersion(g)
  {
    assert (g + h)[..|g + h| - 1] == g + h[..|h| - 1];
    if |h| == 1 {
      assert g + h[..0] == g;
    } else {
      MaxVersionConcat(g, h[..|h| - 1]);
    }
  }

  lemma {:induction false} FirstDescriptionConcat(g: seq<Program>, h: seq<Program>, d: Option<string>)
    ensures FirstDescription(g + h, d) == FirstDescription(g, FirstDescription(h, d))
  {
    if g == [] {
      assert g + h == h;
    } else {
      assert (g + h)[1..] == g[1..] + h;
      FirstDescriptionConcat(g[1..], h, d);
    }
  }

  lemma {:induction false} KeyInGroup(ps: seq<Program>, key: string)
    ensures key in Keys(ps) <==> Group(ps, key) != []
    ensures forall p :: p in Group(ps, key) <==> p in ps && p.identityKey == key
  {
    if ps != [] {
      KeyInGroup(ps[..|ps| - 1], key);
      assert ps == ps[..|ps| - 1] + [ps[|ps| - 1]];
    }
  }

  lemma GroupNonEmpty(ps: seq<Program>, key: string)
    requires key in Firsts(Keys(ps))
    ensures Group(ps, key) != []
  {
    FirstsMembers(Keys(ps));
    KeyInGroup(ps, key);
  }

  // ---------- what a folded group keeps ----------

  lemma FoldedSourceIds(g: seq<Program>)
    requires g != []
    ensures Elements(Combine(g).sourceIds) == Elements(AllSourceIds(g))
  {
    if |g| == 1 {
      assert g[..0] == [] && AllSourceIds(g) == g[0].sourceIds;
    } else {
      SortedSetSorts(AllSourceIds(g));
    }
  }

  lemma FoldedTags(g: seq<Program>)
    requires g != []
    ensures Firsts(Combine(g).tags) == Firsts(AllTags(g))
  {
    if |g| == 1 {
      assert g[..0] == [] && AllTags(g) == g[0].tags;
    } else {
      FirstsMembers(AllTags(g));
      FirstsOfDistinct(Firsts(AllTags(g)));
    }
  }

  lemma {:induction false} SomeDescription(g: seq<Program>, d: Option<string>, e: Option<string>)
    ensures FirstDescription(g, d) == FirstDescription(g, e)
            || (FirstDescription(g, d) == d && FirstDescription(g, e) == e)
    ensures FirstDescription(g, d) != d ==> FirstDescription(g, d).Some? && FirstDescription(g, d).value != ""
  {
    if g != [] {
      SomeDescription(g[1..], d, e);
    }
  }

  lemma FoldedDescription(g: seq<Program>, d: Option<string>)
    requires g != []
    ensures Combine(g).description == FirstDescription(g, g[0].description)
    ensures FirstDescription([Combine(g)], d) == FirstDescription(g, d)
  {
    SomeDescription(g, g[0].description, d);
    SomeDescription(g, d, d);
    assert [Combine(g)][1..] == [];
    if |g| == 1 {
      assert g[1..] == [];
    } else if !HasDescription(g[0]) {
      SomeDescription(g[1..], g[0].description, d);
    }
  }

  lemma PairOf(a: Program, b: Program)
    ensures AllSourceIds([a] + [b]) == a.sourceIds + b.sourceIds
    ensures AllTags([a] + [b]) == a.tags + b.tags
    ensures MaxVersion([a] + [b]) == if b.version > a.version then b.version else a.version
  {
    assert ([a] + [b])[..1] == [a] && [a][..0] == [];
    assert AllSourceIds([a]) == [] + a.sourceIds == a.sourceIds;
    assert AllTags([a]) == [] + a.tags == a.tags;
  }

  /** Folding two groups and then their results is folding them as one. */
  lemma CombineConcat(g: seq<Program>, h: seq<Program>)
    requires g != [] && h != []
    ensures Combine(g + h) == Combine([Combine(g)] + [Combine(h)])
  {
    hide AllSourceIds, AllTags, FirstDescription, MaxVersion, Firsts, SortedSet;
    var a, b := Combine(g), Combine(h);
    PairOf(a, b);
    CombineSourceIds(g, h);
    CombineTags(g, h);
    CombineDescription(g, h);
    CombineVersion(g, h);
    assert (g + h)[0] == g[0] && ([a] + [b])[0] == a;
  }

  lemma CombineSourceIds(g: seq<Program>, h: seq<Program>)
    requires g != [] && h != []
    ensures SortedSet(AllSourceIds(g + h)) == SortedSet(Combine(g).sourceIds + Combine(h).sourceIds)
  {
    hide Combine, SortedSet, AllSourceIds;
    AllSourceIdsConcat(g, h);
    FoldedSourceIds(g);
    FoldedSourceIds(h);
    UnionOfElements(AllSourceIds(g), AllSourceIds(h));
    UnionOfElements(Combine(g).sourceIds, Combine(h).sourceIds);
    SortedSetEqual(AllSourceIds(g + h), Combine(g).sourceIds + Combine(h).sourceIds);
  }

  lemma UnionOfElements(s: seq<string>, t: seq<string>)
    ensures Elements(s + t) == Elements(s) + Elements(t)
  {
  }

  lemma CombineTags(g: seq<Program>, h: seq<Program>)
    requires g != [] && h != []
    ensures Firsts(AllTags(g + h)) == Firsts(Combine(g).tags + Combine(h).tags)
  {
    hide Combine, Firsts, AllTags;
    AllTagsConcat(g, h);
    FoldedTags(g);
    FoldedTags(h);
    FirstsHomomorphism(AllTags(g), AllTags(h));
    FirstsHomomorphism(Combine(g).tags, Combine(h).tags);
  }

  lemma CombineDescription(g: seq<Program>, h: seq<Program>)
    requires g != [] && h != []
    ensures FirstDescription(g + h, g[0].description) ==
            FirstDescription([Combine(g)] + [Combine(h)], Combine(g).description)
  {
    hide Combine, FirstDescription;
    var a, b, d := Combine(g), Combine(h), g[0].description;
    FirstDescriptionConcat(g, h, d);
    FirstDescriptionConcat([a], [b], a.description);
    FoldedDescription(g, FirstDescription([b], a.description));
    FoldedDescription(h, a.description);
    SomeDescription(g, d, FirstDescription(h, d));
    SomeDescription(g, d, FirstDescription(h, a.description));
    SomeDescription(g, FirstDescription(h, d), FirstDescription(h, a.description));
  }

  lemma CombineVersion(g: seq<Program>, h: seq<Program>)
    requires g != [] && h != []
    ensures Combine(g).version == MaxVersion(g) && Combine(h).version == MaxVersion(h)
    ensures MaxVersion(g + h) == if MaxVersion(h) > MaxVersion(g) then MaxVersion(h) else MaxVersion(g)
  {
    MaxVersionConcat(g, h);
  }

  predicate Described(g: seq<Program>, i: int)
    requires 0 <= i < |g|
  {
    g[i].description.Some? && g[i].description.value != ""
  }

  lemma {:induction false} FirstDescriptionTells(g: seq<Program>, d: Option<string>)
    ensures if exists i :: 0 <= i < |g| && Described(g, i)
            then exists i :: 0 <= i < |g| && Described(g, i) && (forall j :: 0 <= j < i ==> !Described(g, j))
                             && FirstDescription(g, d) == g[i].description
            else FirstDescription(g, d) == d
  {
    if g != [] {
      if Described(g, 0) {
        assert FirstDescription(g, d) == g[0].description;
      } else {
        var rest := g[1..];
        FirstDescriptionTells(rest, d);
        assert forall i :: 0 <= i < |rest| ==> (Described(rest, i) <==> Described(g, i + 1));
        if exists i :: 0 <= i < |g| && Described(g, i) {
          var k :| 0 <= k < |g| && Described(g, k);
          assert Described(rest, k - 1);
          var i :| 0 <= i < |rest| && Described(rest, i) && (forall j :: 0 <= j < i ==> !Described(rest, j))
                   && FirstDescription(rest, d) == rest[i].description;
          forall j | 0 <= j < i + 1
            ensures !Described(g, j)
          {
            if j > 0 {
              assert !Described(rest, j - 1);
            }
          }
          assert Described(g, i + 1) && FirstDescription(g, d) == g[i + 1].description;
        }
      }
    }
  }

  /** A folded group field by field: who it is, its slot and its times are those of the first program of the group. */
  lemma CombineKeepsFirst(g: seq<Program>)
    requires g != []
    ensures var p, q := g[0], Combine(g);
            && q.id == p.id && q.identityKey == p.identityKey && q.title == p.title
            && q.channel == p.channel && q.slot == p.slot && q.createdAt == p.createdAt && q.updatedAt == p.updatedAt
            && (|g| == 1 ==> q == p)
  {
  }

  /** Its description is the first of the group that is there and not empty, if any, else that of the first program. */
  lemma CombineDescriptionExactly(g: seq<Program>)
    requires g != []
    ensures if exists i :: 0 <= i < |g| && Described(g, i)
            then exists i :: 0 <= i < |g| && Described(g, i) && (forall j :: 0 <= j < i ==> !Described(g, j))
                             && Combine(g).description == g[i].description
            else Combine(g).description == g[0].description
  {
    FirstDescriptionTells(g, g[0].description);
    FoldedDescription(g, g[0].description);
  }

  /**
    Its source ids are those of the group, sorted and once each; its tags those of the group, once each and in the
    order in which they first occur; its version is the highest of the group.
  */
  lemma CombineCollects(g: seq<Program>, sid: string, t: Tag)
    requires |g| >= 2
    ensures var q := Combine(g);
            && StrictlySorted(q.sourceIds) && (sid in q.sourceIds <==> exists p :: p in g && sid in p.sourceIds)
            && Distinct(q.tags) && (t in q.tags <==> exists p :: p in g && t in p.tags)
            && (forall i, j, k :: 0 <= i < j < |q.tags| && 0 <= k < |AllTags(g)| && AllTags(g)[k] == q.tags[j] ==>
                  Before(AllTags(g), q.tags[i], k))
            && (exists p :: p in g && p.version == q.version) && (forall p :: p in g ==> p.version <= q.version)
  {
    hide SortedSet, Firsts, AllTags, AllSourceIds, MaxVersion, FirstDescription;
    SortedSetSorts(AllSourceIds(g));
    FirstsMembers(AllTags(g));
    var tags, all := Firsts(AllTags(g)), AllTags(g);
    forall i, j, k | 0 <= i < j < |tags| && 0 <= k < |all| && all[k] == tags[j]
      ensures Before(all, tags[i], k)
    {
      FirstsInOrder(all, i, j, k);
    }
    FoldedMembers(g, sid, t);
    VersionOfSome(g);
  }

  // ---------- what a merged batch keeps ----------

  lemma {:induction false} GroupHasKey(ps: seq<Program>, key: string)
    ensures forall p :: p in Fold(ps, key) ==> p.identityKey == key
  {
    KeyInGroup(ps, key);
    if Group(ps, key) != [] {
      assert Group(ps, key)[0] in Group(ps, key);
    }
  }

  lemma {:induction false} GroupOfFold(ps: seq<Program>, k: string, key: string)
    ensures Group(Fold(ps, k), key) == if k == key then Fold(ps, k) else []
    ensures Keys(Fold(ps, k)) == if Group(ps, k) == [] then [] else [k]
  {
    GroupHasKey(ps, k);
    var f := Fold(ps, k);
    if f != [] {
      assert f[0] in f && f[..0] == [];
    }
  }

  lemma GroupOfNone(key: string)
    ensures Group([], key) == []
  {
  }

  lemma {:induction false} CollectGroups(ps: seq<Program>, keys: seq<string>, key: string)
    requires Distinct(keys)
    ensures Group(Collect(ps, keys), key) == if key in keys then Fold(ps, key) else []
  {
    hide Fold, Group;
    GroupOfNone(key);
    if keys != [] {
      var pre, k := keys[..|keys| - 1], keys[|keys| - 1];
      CollectGroups(ps, pre, key);
      GroupConcat(Collect(ps, pre), Fold(ps, k), key);
      GroupOfFold(ps, k, key);
      assert keys == pre + [k];
    }
  }

  lemma NoKeys()
    ensures Keys([]) == []
  {
  }

  lemma {:induction false} CollectKeys(ps: seq<Program>, keys: seq<string>)
    requires forall k :: k in keys ==> Group(ps, k) != []
    ensures Keys(Collect(ps, keys)) == keys
  {
    hide Fold, Group, Keys;
    NoKeys();
    if keys != [] {
      var pre, k := keys[..|keys| - 1], keys[|keys| - 1];
      CollectKeys(ps, pre);
      KeysConcat(Collect(ps, pre), Fold(ps, k));
      GroupOfFold(ps, k, k);
      assert k in keys && keys == pre + [k];
    }
  }

  /** A merged batch has each key once, in first-occurrence order, and under it the whole group folded. */
  lemma MergedKeysAndGroups(ps: seq<Program>, key: string)
    ensures Keys(Merged(ps)) == Firsts(Keys(ps))
    ensures Group(Merged(ps), key) == Fold(ps, key)
  {
    var keys := Firsts(Keys(ps));
    FirstsMembers(Keys(ps));
    forall k | k in keys
      ensures Group(ps, k) != []
    {
      GroupNonEmpty(ps, k);
    }
    CollectKeys(ps, keys);
    CollectGroups(ps, keys, key);
    KeyInGroup(ps, key);
  }

  lemma {:induction false} CollectCongruent(ps: seq<Program>, qs: seq<Program>, keys: seq<string>)
    requires forall k :: k in keys ==> Fold(ps, k) == Fold(qs, k)
    ensures Collect(ps, keys) == Collect(qs, keys)
  {
    hide Fold;
    if keys != [] {
      CollectCongruent(ps, qs, keys[..|keys| - 1]);
      assert keys[|keys| - 1] in keys;
    }
  }

  lemma CombineOne(p: Program)
    ensures Combine([p]) == p
  {
  }

  lemma FoldOfMerged(xs: seq<Program>, ys: seq<Program>, key: string)
    ensures Fold(Merged(xs) + Merged(ys), key) == Fold(xs + ys, key)
  {
    hide Combine, Merged, Group;
    MergedKeysAndGroups(xs, key);
    MergedKeysAndGroups(ys, key);
    GroupConcat(Merged(xs), Merged(ys), key);
    GroupConcat(xs, ys, key);
    var g, h := Group(xs, key), Group(ys, key);
    if g == [] {
      assert g + h == h && Fold(xs, key) + Fold(ys, key) == Fold(ys, key);
      if h != [] {
        CombineOne(Combine(h));
      }
    } else if h == [] {
      assert g + h == g && Fold(xs, key) + Fold(ys, key) == Fold(xs, key);
      CombineOne(Combine(g));
    } else {
      CombineConcat(g, h);
    }
  }

  /** Merging is a homomorphism: batches may be merged in parts, exactly, down to the order of every list. */
  lemma MergeHomomorphism(xs: seq<Program>, ys: seq<Program>)
    ensures Merged(xs + ys) == Merged(Merged(xs) + Merged(ys))
  {
    var zs := Merged(xs) + Merged(ys);
    MergedKeysAndGroups(xs, "");
    MergedKeysAndGroups(ys, "");
    KeysConcat(Merged(xs), Merged(ys));
    KeysConcat(xs, ys);
    FirstsHomomorphism(Keys(xs), Keys(ys));
    forall k
      ensures Fold(xs + ys, k) == Fold(zs, k)
    {
      FoldOfMerged(xs, ys, k);
    }
    CollectCongruent(xs + ys, zs, Firsts(Keys(zs)));
  }

  lemma MergeIdempotent(ps: seq<Program>)
    ensures Merged(Merged(ps)) == Merged(ps)
  {
    MergeHomomorphism(ps, []);
    assert ps + [] == ps && Merged(ps) + Merged([]) == Merged(ps) by {
      assert Merged([]) == [];
    }
  }

  /** Merging leaves a batch as it is exactly when no key comes twice in it. */
  lemma {:induction false} MergedIsSameExactly(ps: seq<Program>)
    ensures Merged(ps) == ps <==> Distinct(Keys(ps))
  {
    hide Fold, Firsts;
    if Merged(ps) == ps {
      MergedKeysAndGroups(ps, "");
      FirstsMembers(Keys(ps));
    }
    if Distinct(Keys(ps)) {
      FirstsOfDistinct(Keys(ps));
      if ps != [] {
        var pre, p := ps[..|ps| - 1], ps[|ps| - 1];
        assert ps == pre + [p] && Keys(ps) == Keys(pre) + [p.identityKey];
        DistinctSnoc(Keys(pre), p.identityKey);
        MergedIsSameExactly(pre);
        FirstsOfDistinct(Keys(pre));
        forall k | k in Keys(pre)
          ensures Fold(pre, k) == Fold(ps, k)
        {
          FoldOfOther(pre, p, k);
        }
        CollectCongruent(pre, ps, Keys(pre));
        FoldOfNew(pre, p);
      }
    }
  }

  lemma FoldOfOther(ps: seq<Program>, p: Program, k: string)
    requires k != p.identityKey
    ensures Fold(ps + [p], k) == Fold(ps, k)
  {
    BatchSnoc(ps, p);
    assert Group(ps, k) + [] == Group(ps, k);
  }

  lemma FoldOfNew(ps: seq<Program>, p: Program)
    requires p.identityKey !in Keys(ps)
    ensures Fold(ps + [p], p.identityKey) == [p]
  {
    BatchSnoc(ps, p);
    KeyInGroup(ps, p.identityKey);
    CombineOne(p);
  }

  // ---------- insensitivity to order ----------

  lemma {:induction false} SourceIdOfSome(g: seq<Program>, sid: string)
    ensures sid in AllSourceIds(g) <==> exists p :: p in g && sid in p.sourceIds
  {
    if g != [] {
      SourceIdOfSome(g[..|g| - 1], sid);
      assert g == g[..|g| - 1] + [g[|g| - 1]];
    }
  }

  lemma {:induction false} TagOfSome(g: seq<Program>, t: Tag)
    ensures t in AllTags(g) <==> exists p :: p in g && t in p.tags
  {
    if g != [] {
      TagOfSome(g[..|g| - 1], t);
      assert g == g[..|g| - 1] + [g[|g| - 1]];
    }
  }

  lemma {:induction false} VersionOfSome(g: seq<Program>)
    requires g != []
    ensures exists p :: p in g && p.version == MaxVersion(g)
    ensures forall p :: p in g ==> p.version <= MaxVersion(g)
  {
    var pre, last := g[..|g| - 1], g[|g| - 1];
    assert g == pre + [last];
    assert last in g && forall p :: p in g <==> p in pre || p == last;
    if pre != [] {
      VersionOfSome(pre);
      var q :| q in pre && q.version == MaxVersion(pre);
      assert q in g;
    }
  }

  lemma FoldedMembers(g: seq<Program>, sid: string, t: Tag)
    requires g != []
    ensures sid in Combine(g).sourceIds <==> exists p :: p in g && sid in p.sourceIds
    ensures t in Combine(g).tags <==> exists p :: p in g && t in p.tags
    ensures Combine(g).version == MaxVersion(g)
  {
    FoldedSourceIds(g);
    MembersAreElements(Combine(g).sourceIds, AllSourceIds(g));
    SourceIdOfSome(g, sid);
    FoldedTags(g);
    FirstsMembers(Combine(g).tags);
    FirstsMembers(AllTags(g));
    TagOfSome(g, t);
  }

  /** The program of a merged batch that has the key. */
  function ForKey(ps: seq<Program>, key: string): Program
    requires Group(ps, key) != []
  {
    Combine(Group(ps, key))
  }

  lemma ForKeyIsTheOne(ps: seq<Program>, key: string)
    ensures key in Keys(Merged(ps)) <==> Group(ps, key) != []
    ensures Group(ps, key) != [] ==>
              forall q :: q in Merged(ps) && q.identityKey == key <==> q == ForKey(ps, key)
  {
    MergedKeysAndGroups(ps, key);
    FirstsMembers(Keys(ps));
    KeyInGroup(ps, key);
    KeyInGroup(Merged(ps), key);
  }

  lemma GroupsIgnoreOrder(xs: seq<Program>, ys: seq<Program>, key: string)
    requires forall p :: p in xs <==> p in ys
    ensures forall p :: p in Group(xs, key) <==> p in Group(ys, key)
    ensures Group(xs, key) != [] <==> Group(ys, key) != []
  {
    KeyInGroup(xs, key);
    KeyInGroup(ys, key);
    assert Group(xs, key) != [] ==> Group(xs, key)[0] in Group(xs, key);
    assert Group(ys, key) != [] ==> Group(ys, key)[0] in Group(ys, key);
  }

  /**
    Reordering a batch, or repeating programs in it, changes neither the keys of the merged batch nor,
    under any key, the source ids, the tags or the version.
  */
  lemma MergeIgnoresOrder(xs: seq<Program>, ys: seq<Program>, key: string, sid: string, t: Tag)
    requires forall p :: p in xs <==> p in ys
    ensures Group(xs, key) != [] <==> Group(ys, key) != []
    ensures Group(xs, key) != [] && Group(ys, key) != [] ==>
              var a, b := ForKey(xs, key), ForKey(ys, key);
              && (sid in a.sourceIds <==> sid in b.sourceIds)
              && (t in a.tags <==> t in b.tags)
              && a.version == b.version
  {
    hide Combine, Group, MaxVersion;
    GroupsIgnoreOrder(xs, ys, key);
    var g, h := Group(xs, key), Group(ys, key);
    if g != [] && h != [] {
      FoldedMembers(g, sid, t);
      FoldedMembers(h, sid, t);
      VersionOfSome(g);
      VersionOfSome(h);
    }
  }
}
