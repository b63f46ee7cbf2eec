/** Sorted sets of texts, and the first-occurrence order in which Python dictionaries keep their keys. */
module Order {

  // ---------- sorted sets of texts ----------

  /** Python compares texts code point by code point. */
  predicate Less(a: string, b: string)
  {
    b != "" && (a == "" || a[0] < b[0] || (a[0] == b[0] && Less(a[1..], b[1..])))
  }

  /** The texts agree before `i`; there the first one ends, or both go on and it has the smaller character. */
  predicate PartsAt(a: string, b: string, i: int)
  {
    0 <= i <= |a| && i < |b| && a[..i] == b[..i] && (i < |a| ==> a[i] < b[i])
  }

  /** One text comes before another exactly if it is a proper prefix or has the smaller character where they part. */
  lemma {:induction false} LessExactly(a: string, b: string)
    ensures Less(a, b) <==> exists i :: PartsAt(a, b, i)
  {
    if Less(a, b) {
      if a == "" || a[0] < b[0] {
        assert PartsAt(a, b, 0);
      } else {
        LessExactly(a[1..], b[1..]);
        var i :| PartsAt(a[1..], b[1..], i);
        assert a[..i + 1] == [a[0]] + a[1..][..i] && b[..i + 1] == [b[0]] + b[1..][..i];
        assert PartsAt(a, b, i + 1);
      }
    }
    if exists i :: PartsAt(a, b, i) {
      var i :| PartsAt(a, b, i);
      if i > 0 {
        assert a[0] == a[..i][0] == b[..i][0] == b[0];
        assert a[1..][..i - 1] == a[..i][1..] && b[1..][..i - 1] == b[..i][1..];
        assert PartsAt(a[1..], b[1..], i - 1);
        LessExactly(a[1..], b[1..]);
      }
    }
  }

  lemma {:induction false} LessIsStrictTotal(a: string, b: string)
    ensures Less(a, b) ==> !Less(b, a) && a != b
    ensures a != b ==> Less(a, b) || Less(b, a)
  {
    if a != "" && b != "" && a[0] == b[0] {
      LessIsStrictTotal(a[1..], b[1..]);
      assert a == [a[0]] + a[1..] && b == [b[0]] + b[1..];
    }
  }

  lemma {:induction false} LessTransitive(a: string, b: string, c: string)
    requires Less(a, b) && Less(b, c)
    ensures Less(a, c)
  {
    if a != "" && a[0] == b[0] == c[0] {
      LessTransitive(a[1..], b[1..], c[1..]);
    }
  }

  predicate StrictlySorted(s: seq<string>)
  {
    forall i, j :: 0 <= i < j < |s| ==> Less(s[i], s[j])
  }

  ghost function Elements<T>(s: seq<T>): set<T>
  {
    set x | x in s
  }

  function Insert(s: seq<string>, x: string): seq<string>
  {
    if s == [] then [x]
    else if s[0] == x then s
    else if Less(x, s[0]) then [x] + s
    else [s[0]] + Insert(s[1..], x)
  }

  /** The members of `s`, once each and sorted. */
  function SortedSet(s: seq<string>): seq<string>
  {
    if s == [] then [] else Insert(SortedSet(s[..|s| - 1]), s[|s| - 1])
  }

  lemma {:induction false} InsertMembers(s: seq<string>, x: string)
    ensures forall y :: y in Insert(s, x) <==> y in s || y == x
  {
    hide Less;
    if s != [] && s[0] != x && !Less(x, s[0]) {
      InsertMembers(s[1..], x);
      assert s == [s[0]] + s[1..];
    }
  }

  lemma SortedCons(x: string, s: seq<string>)
    requires StrictlySorted(s) && forall y :: y in s ==> Less(x, y)
    ensures StrictlySorted([x] + s)
  {
    hide Less;
  }

  lemma {:induction false} InsertSorts(s: seq<string>, x: string)
    requires StrictlySorted(s)
    ensures StrictlySorted(Insert(s, x))
  {
    hide Less;
    if s != [] && s[0] != x {
      LessIsStrictTotal(x, s[0]);
      if Less(x, s[0]) {
        forall y | y in s
          ensures Less(x, y)
        {
          if y != s[0] {
            LessTransitive(x, s[0], y);
          }
        }
        SortedCons(x, s);
      } else {
        InsertSorts(s[1..], x);
        InsertMembers(s[1..], x);
        SortedCons(s[0], Insert(s[1..], x));
      }
    }
  }

  lemma MembersAreElements<T>(s: seq<T>, t: seq<T>)
    ensures Elements(s) == Elements(t) <==> forall x :: x in s <==> x in t
  {
    if Elements(s) == Elements(t) {
      forall x
        ensures x in s <==> x in t
      {
        assert x in Elements(s) <==> x in Elements(t);
      }
    }
  }

  lemma {:induction false} SortedSetSorts(s: seq<string>)
    ensures StrictlySorted(SortedSet(s)) && Elements(SortedSet(s)) == Elements(s)
  {
    if s != [] {
      SortedSetSorts(s[..|s| - 1]);
      InsertSorts(SortedSet(s[..|s| - 1]), s[|s| - 1]);
      InsertMembers(SortedSet(s[..|s| - 1]), s[|s| - 1]);
      MembersAreElements(SortedSet(s[..|s| - 1]), s[..|s| - 1]);
      assert s == s[..|s| - 1] + [s[|s| - 1]];
    }
  }

  /** A strictly sorted list is determined by its members. */
  lemma {:induction false} SortedIsCanonical(s: seq<string>, t: seq<string>)
    requires StrictlySorted(s) && StrictlySorted(t) && Elements(s) == Elements(t)
    ensures s == t
  {
    hide Less;
    NoElements(s);
    NoElements(t);
    if s != [] {
      assert s[0] in Elements(t);
      var j :| 0 <= j < |t| && t[j] == s[0];
      assert t[0] in Elements(s);
      var i :| 0 <= i < |s| && s[i] == t[0];
      LessIsStrictTotal(s[0], t[0]);
      assert s[0] == t[0];
      forall x
        ensures x in Elements(s[1..]) <==> x in Elements(t[1..])
      {
        TailElements(s, x);
        TailElements(t, x);
      }
      SortedIsCanonical(s[1..], t[1..]);
      assert s == [s[0]] + s[1..] && t == [t[0]] + t[1..];
    }
  }

  lemma NoElements(s: seq<string>)
    ensures Elements(s) == {} <==> s == []
  {
    if s != [] {
      assert s[0] in Elements(s);
    }
  }

  lemma TailElements(s: seq<string>, x: string)
    requires s != [] && StrictlySorted(s)
    ensures x in Elements(s[1..]) <==> x in Elements(s) && x != s[0]
  {
    hide Less;
    forall k | 1 <= k < |s|
      ensures s[k] != s[0]
    {
      LessIsStrictTotal(s[0], s[k]);
    }
    if x in s && x != s[0] {
      var k :| 0 <= k < |s| && s[k] == x;
      assert s[1..][k - 1] == x;
    }
  }

  /** Two lists sort alike exactly when they have the same members. */
  lemma SortedSetEqual(s: seq<string>, t: seq<string>)
    ensures SortedSet(s) == SortedSet(t) <==> Elements(s) == Elements(t)
  {
    SortedSetSorts(s);
    SortedSetSorts(t);
    if Elements(s) == Elements(t) {
      SortedIsCanonical(SortedSet(s), SortedSet(t));
    }
  }

  // ---------- first occurrences ----------

  /** The distinct members of `s` in the order of their first occurrence: the keys of a dictionary filled from `s`. */
  function Firsts<T(==)>(s: seq<T>): seq<T>
  {
    if s == [] then []
    else
      var u := Firsts(s[..|s| - 1]);
      if s[|s| - 1] in u then u else u + [s[|s| - 1]]
  }

  predicate Distinct<T(==)>(s: seq<T>)
  {
    forall i, j :: 0 <= i < j < |s| ==> s[i] != s[j]
  }

  lemma DistinctSnoc<T>(s: seq<T>, x: T)
    ensures Distinct(s + [x]) <==> Distinct(s) && x !in s
  {
    if Distinct(s + [x]) {
      forall i | 0 <= i < |s|
        ensures s[i] != x
      {
        assert (s + [x])[i] == s[i] && (s + [x])[|s|] == x;
      }
      forall i, j | 0 <= i < j < |s|
        ensures s[i] != s[j]
      {
        assert (s + [x])[i] == s[i] && (s + [x])[j] == s[j];
      }
    }
  }

  lemma FirstsSnoc<T>(s: seq<T>, x: T)
    ensures Firsts(s + [x]) == if x in Firsts(s) then Firsts(s) else Firsts(s) + [x]
  {
    assert (s + [x])[..|s|] == s;
  }

  lemma {:induction false} FirstsMembers<T>(s: seq<T>)
    ensures Distinct(Firsts(s)) && Elements(Firsts(s)) == Elements(s)
    ensures forall x :: x in Firsts(s) <==> x in s
  {
    if s != [] {
      FirstsMembers(s[..|s| - 1]);
      assert s == s[..|s| - 1] + [s[|s| - 1]];
      assert forall x :: x in Firsts(s) <==> x in s;
    }
    MembersAreElements(Firsts(s), s);
  }

  /** `x` occurs in `s` before the k-th place. */
  predicate Before<T(==)>(s: seq<T>, x: T, k: int)
    requires 0 <= k <= |s|
  {
    x in s[..k]
  }

  lemma FirstsMember<T>(s: seq<T>, x: T)
    ensures x in Firsts(s) <==> x in s
  {
    FirstsMembers(s);
  }

  /** The order is that of the first occurrences: wherever a later member stands in `s`, an earlier one came before. */
  lemma {:induction false} FirstsInOrder<T>(s: seq<T>, i: int, j: int, k: int)
    requires 0 <= i < j < |Firsts(s)| && 0 <= k < |s| && s[k] == Firsts(s)[j]
    ensures Before(s, Firsts(s)[i], k)
  {
    var pre := s[..|s| - 1];
    assert Firsts(s)[i] == Firsts(pre)[i];
    FirstsMember(pre, Firsts(pre)[i]);
    if k < |pre| {
      FirstsMember(pre, s[k]);
      assert s[k] == pre[k] && s[..k] == pre[..k];
      FirstsInOrder(pre, i, j, k);
    }
  }

  lemma {:induction false} FirstsOfDistinct<T>(s: seq<T>)
    requires Distinct(s)
    ensures Firsts(s) == s
  {
    if s != [] {
      var pre := s[..|s| - 1];
      FirstsOfDistinct(pre);
      assert s == pre + [s[|s| - 1]];
    }
  }

  lemma {:induction false} FirstsAbsorbLeft<T>(s: seq<T>, t: seq<T>)
    ensures Firsts(Firsts(s) + t) == Firsts(s + t)
  {
    if t == [] {
      FirstsMembers(s);
      FirstsOfDistinct(Firsts(s));
      assert s + t == s && Firsts(s) + t == Firsts(s);
    } else {
      var pre, x := t[..|t| - 1], t[|t| - 1];
      FirstsAbsorbLeft(s, pre);
      assert s + t == (s + pre) + [x] && Firsts(s) + t == (Firsts(s) + pre) + [x];
      FirstsSnoc(s + pre, x);
      FirstsSnoc(Firsts(s) + pre, x);
    }
  }

  lemma {:induction false} FirstsAbsorbRight<T>(s: seq<T>, t: seq<T>)
    ensures Firsts(s + Firsts(t)) == Firsts(s + t)
  {
    if t != [] {
      var pre, x := t[..|t| - 1], t[|t| - 1];
      FirstsAbsorbRight(s, pre);
      assert t == pre + [x] && s + t == (s + pre) + [x];
      FirstsSnoc(s + pre, x);
      FirstsSnoc(pre, x);
      if x in Firsts(pre) {
        FirstsMembers(pre);
        FirstsMembers(s + pre);
        assert x in s + pre;
      } else {
        assert s + (Firsts(pre) + [x]) == (s + Firsts(pre)) + [x];
        FirstsSnoc(s + Firsts(pre), x);
      }
    }
  }

  /** Deduplicating the parts first changes nothing. */
  lemma FirstsHomomorphism<T>(s: seq<T>, t: seq<T>)
    ensures Firsts(Firsts(s) + Firsts(t)) == Firsts(s + t)
  {
    FirstsAbsorbRight(Firsts(s), t);
    FirstsAbsorbLeft(s, t);
  }
}
