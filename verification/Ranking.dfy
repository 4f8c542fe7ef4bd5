/**
  Top-N selection, the pattern applied to four insight tables:
  `Object.entries(table).sort((a, b) => b[1] - a[1]).slice(0, n)
     .map((entry) => entry[0]).join(", ")`.
 */
module Ranking {
  import opened Strings
  import opened Tables
  import opened Sorting
  import opened PropertyOrder

  function CountScore(e: Entry): int
  {
    e.count
  }

  /** The entries in enumeration order, stably sorted by descending count. */
  function Ranked(t: Table): Table
  {
    SortBy(EntriesOrder(t), CountScore)
  }

  /** `s.slice(0, n)`. */
  function Take(s: Table, n: nat): (r: Table)
    ensures |r| == if n <= |s| then n else |s|
    ensures r == s[..|r|]
  {
    if n <= |s| then s[..n] else s
  }

  /** The keys of the `n` highest-ranked entries. */
  function TopKeys(t: Table, n: nat): seq<string>
  {
    Keys(Take(Ranked(t), n))
  }

  const ListSeparator: string := ", "

  /** The rendered list of the `n` most frequent keys. */
  function TopList(t: Table, n: nat): string
  {
    Join(TopKeys(t, n), ListSeparator)
  }

  /** What the ranked sequence is made of: the table's entries, each once, with their counts, in descending order. */
  lemma RankedFacts(t: Table)
    requires DistinctKeys(t)
    ensures DistinctKeys(Ranked(t))
    ensures Descending(Ranked(t), CountScore)
    ensures forall i :: 0 <= i < |Ranked(t)| ==> CountOf(t, Ranked(t)[i].key) == Ranked(t)[i].count
    ensures forall k :: k in Keys(t) <==> k in Keys(Ranked(t))
    ensures |Ranked(t)| == |t|
  {
    EntriesPermutes(t);
    SortDistinct(EntriesOrder(t), CountScore);
    SortDescending(EntriesOrder(t), CountScore);
    RankedCounts(t);
    RankedKeys(t);
    DistinctLength(t, Ranked(t));
  }

  lemma RankedCounts(t: Table)
    requires DistinctKeys(t)
    ensures forall i :: 0 <= i < |Ranked(t)| ==> CountOf(t, Ranked(t)[i].key) == Ranked(t)[i].count
  {
    var e, o := EntriesOrder(t), Ranked(t);
    EntriesPermutes(t);
    SortMembers(e, CountScore);
    SortDistinct(e, CountScore);
    forall i | 0 <= i < |o|
      ensures CountOf(t, o[i].key) == o[i].count
    {
      CountOfEntry(o, i);
      EntriesCounts(t, o[i].key);
      assert o[i] in e;
      var j :| 0 <= j < |e| && e[j] == o[i];
      CountOfEntry(e, j);
    }
  }

  lemma RankedKeys(t: Table)
    ensures forall k :: k in Keys(t) <==> k in Keys(Ranked(t))
  {
    EntriesPermutes(t);
    SortMembers(EntriesOrder(t), CountScore);
    SameEntriesSameKeys(t, Ranked(t));
  }

  /** Two tables with distinct keys and the same key set have the same length. */
  lemma DistinctLength(a: Table, b: Table)
    requires DistinctKeys(a) && DistinctKeys(b)
    requires forall k :: k in Keys(a) <==> k in Keys(b)
    ensures |a| == |b|
  {
    var ka, kb := set i | 0 <= i < |a| :: a[i].key, set i | 0 <= i < |b| :: b[i].key;
    assert ka == kb by {
      forall k | k in ka ensures k in kb {
        assert k in Keys(a);
      }
      forall k | k in kb ensures k in ka {
        assert k in Keys(b);
      }
    }
    KeySetSize(a);
    KeySetSize(b);
  }

  lemma {:induction false} KeySetSize(t: Table)
    requires DistinctKeys(t)
    ensures |set i | 0 <= i < |t| :: t[i].key| == |t|
    decreases |t|
  {
    if |t| > 0 {
      var rest := t[1..];
      KeySetSize(rest);
      var whole, tail := set i | 0 <= i < |t| :: t[i].key, set i | 0 <= i < |rest| :: rest[i].key;
      assert whole == {t[0].key} + tail by {
        forall k | k in whole ensures k in {t[0].key} + tail {
          var i :| 0 <= i < |t| && t[i].key == k;
          if i > 0 {
            assert rest[i - 1].key == k;
          }
        }
        forall k | k in tail ensures k in whole {
          var i :| 0 <= i < |rest| && rest[i].key == k;
          assert t[i + 1].key == k;
        }
      }
      assert t[0].key !in tail;
    }
  }

  /** The selection has `min(n, |t|)` keys, all distinct, all from the table. */
  lemma TopKeysBounds(t: Table, n: nat)
    requires DistinctKeys(t)
    ensures |TopKeys(t, n)| == if n <= |t| then n else |t|
    ensures forall i :: 0 <= i < |TopKeys(t, n)| ==> TopKeys(t, n)[i] in Keys(t)
    ensures forall i, j :: 0 <= i < j < |TopKeys(t, n)| ==> TopKeys(t, n)[i] != TopKeys(t, n)[j]
  {
    var o, r := Ranked(t), TopKeys(t, n);
    RankedFacts(t);
    forall i | 0 <= i < |r|
      ensures r[i] in Keys(t)
    {
      assert r[i] == o[i].key;
      assert r[i] in Keys(o);
    }
  }

  /** The selected keys are listed by non-increasing count. */
  lemma TopKeysOrdered(t: Table, n: nat)
    requires DistinctKeys(t)
    ensures forall i, j :: 0 <= i < j < |TopKeys(t, n)| ==>
      CountOf(t, TopKeys(t, n)[i]) >= CountOf(t, TopKeys(t, n)[j])
  {
    var o, r := Ranked(t), TopKeys(t, n);
    RankedFacts(t);
    forall i, j | 0 <= i < j < |r|
      ensures CountOf(t, r[i]) >= CountOf(t, r[j])
    {
      assert r[i] == o[i].key && r[j] == o[j].key;
      assert CountScore(o[i]) >= CountScore(o[j]);
    }
  }

  /** Where a key of the table sits in the ranked sequence. */
  lemma RankOf(t: Table, k: string) returns (j: nat)
    requires DistinctKeys(t) && k in Keys(t)
    ensures j < |Ranked(t)| && Ranked(t)[j].key == k
  {
    RankedFacts(t);
    var o := Ranked(t);
    assert k in Keys(o);
    j :| 0 <= j < |o| && o[j].key == k;
  }

  /** A key left out never has a higher count than a selected one. */
  lemma {:induction false} TopKeysAreTop(t: Table, n: nat)
    requires DistinctKeys(t)
    ensures forall k, i :: k in Keys(t) && 0 <= i < |TopKeys(t, n)| && CountOf(t, k) > CountOf(t, TopKeys(t, n)[i]) ==>
      k in TopKeys(t, n)
  {
    var o, r := Ranked(t), TopKeys(t, n);
    RankedFacts(t);
    forall k, i | k in Keys(t) && 0 <= i < |r| && CountOf(t, k) > CountOf(t, r[i])
      ensures k in r
    {
      var j := RankOf(t, k);
      assert r[i] == o[i].key;
      assert j < |r|;
      assert r[j] == k;
    }
  }

  /** Two equal-count entries appear in the ranking in the order the table enumerates them. */
  lemma RankedTie(t: Table, i: nat, j: nat)
    requires DistinctKeys(t)
    requires i < j < |Ranked(t)| && Ranked(t)[i].count == Ranked(t)[j].count
    ensures Precedes(Keys(EntriesOrder(t)), Ranked(t)[i].key, Ranked(t)[j].key)
  {
    var e, o := EntriesOrder(t), Ranked(t);
    var x, y, c := o[i], o[j], o[i].count;
    assert Precedes(o, x, y);
    PrecedesWithScore(o, CountScore, c, x, y);
    SortStable(e, CountScore, c);
    PrecedesWithScore(e, CountScore, c, x, y);
    var a, b :| 0 <= a < b < |e| && e[a] == x && e[b] == y;
    assert Keys(e)[a] == x.key && Keys(e)[b] == y.key;
  }

  /**
    Stable ties: among selected keys with equal counts, and between a
    selected key and an unselected key of the same count, the one the table
    enumerates first comes first.
   */
  lemma TopKeysTies(t: Table, n: nat)
    requires DistinctKeys(t)
    ensures forall i, j :: 0 <= i < j < |TopKeys(t, n)| && CountOf(t, TopKeys(t, n)[i]) == CountOf(t, TopKeys(t, n)[j]) ==>
      Precedes(Keys(EntriesOrder(t)), TopKeys(t, n)[i], TopKeys(t, n)[j])
    ensures forall k, i ::
      (k in Keys(t) && k !in TopKeys(t, n) && 0 <= i < |TopKeys(t, n)| &&
       CountOf(t, k) == CountOf(t, TopKeys(t, n)[i])) ==>
      Precedes(Keys(EntriesOrder(t)), TopKeys(t, n)[i], k)
  {
    var o, r := Ranked(t), TopKeys(t, n);
    RankedFacts(t);
    forall i, j | 0 <= i < j < |r| && CountOf(t, r[i]) == CountOf(t, r[j])
      ensures Precedes(Keys(EntriesOrder(t)), r[i], r[j])
    {
      assert r[i] == o[i].key && r[j] == o[j].key;
      RankedTie(t, i, j);
    }
    forall k, i | k in Keys(t) && k !in r && 0 <= i < |r| && CountOf(t, k) == CountOf(t, r[i])
      ensures Precedes(Keys(EntriesOrder(t)), r[i], k)
    {
      var j := RankOf(t, k);
      assert r[i] == o[i].key;
      assert forall m :: 0 <= m < |r| ==> r[m] == o[m].key;
      RankedTie(t, i, j);
    }
  }

  /**
    The ranking is the only stable descending order of the enumerated
    entries: any sort that is stable and orders by descending count yields it.
   */
  lemma RankedIsTheStableOrder(t: Table, other: Table)
    requires Descending(other, CountScore)
    requires forall c :: WithScore(other, CountScore, c) == WithScore(EntriesOrder(t), CountScore, c)
    ensures other == Ranked(t)
  {
    var e := EntriesOrder(t);
    SortDescending(e, CountScore);
    forall c
      ensures WithScore(other, CountScore, c) == WithScore(Ranked(t), CountScore, c)
    {
      SortStable(e, CountScore, c);
    }
    SortUnique(other, Ranked(t), CountScore);
  }

  /** Over keys that are not array indices, ties fall back to insertion order, so the earlier-counted key wins. */
  lemma {:induction false} TopKeysTiesInsertionOrder(t: Table, n: nat)
    requires DistinctKeys(t)
    requires forall i :: 0 <= i < |t| ==> !IsArrayIndex(t[i].key)
    ensures forall i, j :: 0 <= i < j < |TopKeys(t, n)| && CountOf(t, TopKeys(t, n)[i]) == CountOf(t, TopKeys(t, n)[j]) ==>
      Precedes(Keys(t), TopKeys(t, n)[i], TopKeys(t, n)[j])
    ensures forall k, i ::
      (k in Keys(t) && k !in TopKeys(t, n) && 0 <= i < |TopKeys(t, n)| &&
       CountOf(t, k) == CountOf(t, TopKeys(t, n)[i])) ==>
      Precedes(Keys(t), TopKeys(t, n)[i], k)
  {
    EntriesInsertionOrder(t);
    TopKeysTies(t, n);
  }

  /** The rendered list is empty exactly when nothing is selected. */
  lemma TopListEmpty(t: Table, n: nat)
    requires DistinctKeys(t) && "" !in Keys(t)
    ensures TopList(t, n) == "" <==> n == 0 || |t| == 0
  {
    TopKeysBounds(t, n);
    JoinEmpty(TopKeys(t, n), ListSeparator);
  }

  /** The rendered list reads back, by splitting at ", ", as the selected keys, when no key contains a comma. */
  lemma TopListRoundTrip(t: Table, n: nat)
    requires DistinctKeys(t) && n >= 1 && |t| >= 1
    requires forall i :: 0 <= i < |t| ==> ',' !in t[i].key
    ensures Split(TopList(t, n), ListSeparator) == TopKeys(t, n)
  {
    var r := TopKeys(t, n);
    TopKeysBounds(t, n);
    forall i | 0 <= i < |r|
      ensures ',' !in r[i]
    {
      assert r[i] in Keys(t);
    }
    SplitJoin(r, ListSeparator);
  }
}
