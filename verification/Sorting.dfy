/**
  A stable sort of table entries by descending score. `Array.prototype.sort`
  is required to be stable, and with a consistent comparator a stable sort
  has exactly one possible result (`SortUnique`), so this insertion sort
  computes the same order as the engine's sort does.
 */
module Sorting {
  import opened Tables

  /** Places `x` in front of the first element whose score does not exceed its own. */
  function Insert(x: Entry, s: seq<Entry>, score: Entry -> int): seq<Entry>
  {
    if |s| == 0 || score(s[0]) <= score(x) then [x] + s
    else [s[0]] + Insert(x, s[1..], score)
  }

  /** Sorts by descending score, earlier elements first among equal scores. */
  function SortBy(s: seq<Entry>, score: Entry -> int): seq<Entry>
  {
    if |s| == 0 then [] else Insert(s[0], SortBy(s[1..], score), score)
  }

  /** Scores never increase from left to right. */
  predicate Descending(s: seq<Entry>, score: Entry -> int)
  {
    forall i, j :: 0 <= i < j < |s| ==> score(s[i]) >= score(s[j])
  }

  /** The elements of `s` whose score is `c`, in their order in `s`. */
  function WithScore(s: seq<Entry>, score: Entry -> int, c: int): seq<Entry>
  {
    if |s| == 0 then []
    else (if score(s[0]) == c then [s[0]] else []) + WithScore(s[1..], score, c)
  }

  lemma {:induction false} WithScoreMembers(s: seq<Entry>, score: Entry -> int, c: int, y: Entry)
    requires y in WithScore(s, score, c)
    ensures y in s && score(y) == c
    decreases |s|
  {
    if score(s[0]) != c || y != s[0] {
      WithScoreMembers(s[1..], score, c, y);
    }
  }

  /** A non-empty sequence has at least one element with the score of its head. */
  lemma WithScoreHead(s: seq<Entry>, score: Entry -> int)
    requires |s| > 0
    ensures WithScore(s, score, score(s[0])) != []
  {
  }

  lemma {:induction false} InsertPermutes(x: Entry, s: seq<Entry>, score: Entry -> int)
    ensures multiset(Insert(x, s, score)) == multiset(s) + multiset{x}
    decreases |s|
  {
    if |s| > 0 && score(s[0]) > score(x) {
      InsertPermutes(x, s[1..], score);
      assert s == [s[0]] + s[1..];
    }
  }

  lemma {:induction false} InsertMembers(x: Entry, s: seq<Entry>, score: Entry -> int)
    ensures forall y :: y in Insert(x, s, score) <==> y == x || y in s
    decreases |s|
  {
    if |s| > 0 && score(s[0]) > score(x) {
      InsertMembers(x, s[1..], score);
      assert s == [s[0]] + s[1..];
    }
  }

  lemma {:induction false} InsertDescending(x: Entry, s: seq<Entry>, score: Entry -> int)
    requires Descending(s, score)
    ensures Descending(Insert(x, s, score), score)
    decreases |s|
  {
    if |s| > 0 && score(s[0]) > score(x) {
      var rest := Insert(x, s[1..], score);
      InsertDescending(x, s[1..], score);
      InsertMembers(x, s[1..], score);
      forall j | 0 <= j < |rest|
        ensures score(s[0]) >= score(rest[j])
      {
        assert rest[j] in rest;
      }
    }
  }

  lemma WithScoreCons(h: Entry, r: seq<Entry>, score: Entry -> int, c: int)
    ensures WithScore([h] + r, score, c) == (if score(h) == c then [h] else []) + WithScore(r, score, c)
  {
    assert ([h] + r)[1..] == r;
  }

  /** Inserting keeps equal-score elements in place and puts `x` before them. */
  lemma {:induction false} InsertStable(x: Entry, s: seq<Entry>, score: Entry -> int, c: int)
    ensures WithScore(Insert(x, s, score), score, c) ==
      (if score(x) == c then [x] else []) + WithScore(s, score, c)
    decreases |s|
  {
    var hx := if score(x) == c then [x] else [];
    if |s| > 0 && score(s[0]) > score(x) {
      var h, r := s[0], Insert(x, s[1..], score);
      var hh := if score(h) == c then [h] else [];
      InsertStable(x, s[1..], score, c);
      assert Insert(x, s, score) == [h] + r;
      WithScoreCons(h, r, score, c);
      WithScoreCons(h, s[1..], score, c);
      assert s == [h] + s[1..];
      assert hx == [] || hh == [];
      assert hh + (hx + WithScore(s[1..], score, c)) == hx + (hh + WithScore(s[1..], score, c));
    } else {
      WithScoreCons(x, s, score, c);
    }
  }

  lemma {:induction false} InsertDistinct(x: Entry, s: seq<Entry>, score: Entry -> int)
    requires DistinctKeys(s)
    requires forall i :: 0 <= i < |s| ==> s[i].key != x.key
    ensures DistinctKeys(Insert(x, s, score))
    decreases |s|
  {
    if |s| > 0 && score(s[0]) > score(x) {
      var rest := Insert(x, s[1..], score);
      InsertDistinct(x, s[1..], score);
      InsertMembers(x, s[1..], score);
      forall j | 0 <= j < |rest|
        ensures rest[j].key != s[0].key
      {
        assert rest[j] in rest;
      }
    }
  }

  /** The sorted sequence is a permutation of the input. */
  lemma {:induction false} SortPermutes(s: seq<Entry>, score: Entry -> int)
    ensures multiset(SortBy(s, score)) == multiset(s)
    ensures forall y :: y in SortBy(s, score) <==> y in s
  {
    SortMultiset(s, score);
    SortMembers(s, score);
  }

  lemma {:induction false} SortMultiset(s: seq<Entry>, score: Entry -> int)
    ensures multiset(SortBy(s, score)) == multiset(s)
    decreases |s|
  {
    if |s| > 0 {
      SortMultiset(s[1..], score);
      InsertPermutes(s[0], SortBy(s[1..], score), score);
      assert s == [s[0]] + s[1..];
    }
  }

  lemma {:induction false} SortMembers(s: seq<Entry>, score: Entry -> int)
    ensures forall y :: y in SortBy(s, score) <==> y in s
    decreases |s|
  {
    if |s| > 0 {
      SortMembers(s[1..], score);
      InsertMembers(s[0], SortBy(s[1..], score), score);
      assert s == [s[0]] + s[1..];
    }
  }

  /** The sorted sequence is descending. */
  lemma {:induction false} SortDescending(s: seq<Entry>, score: Entry -> int)
    ensures Descending(SortBy(s, score), score)
    decreases |s|
  {
    if |s| > 0 {
      SortDescending(s[1..], score);
      InsertDescending(s[0], SortBy(s[1..], score), score);
    }
  }

  /** Stability: among elements of equal score, the sorted order is the input order. */
  lemma {:induction false} SortStable(s: seq<Entry>, score: Entry -> int, c: int)
    ensures WithScore(SortBy(s, score), score, c) == WithScore(s, score, c)
    decreases |s|
  {
    if |s| > 0 {
      SortStable(s[1..], score, c);
      InsertStable(s[0], SortBy(s[1..], score), score, c);
    }
  }

  /** Sorting keeps keys distinct. */
  lemma {:induction false} SortDistinct(s: seq<Entry>, score: Entry -> int)
    requires DistinctKeys(s)
    ensures DistinctKeys(SortBy(s, score))
    decreases |s|
  {
    if |s| > 0 {
      var sorted := SortBy(s[1..], score);
      SortDistinct(s[1..], score);
      SortPermutes(s[1..], score);
      forall i | 0 <= i < |sorted|
        ensures sorted[i].key != s[0].key
      {
        assert sorted[i] in s[1..];
      }
      InsertDistinct(s[0], sorted, score);
    }
  }

  /**
    There is only one stable descending order: two descending sequences that
    list the elements of every score in the same order are equal.
   */
  lemma {:induction false} SortUnique(a: seq<Entry>, b: seq<Entry>, score: Entry -> int)
    requires Descending(a, score) && Descending(b, score)
    requires forall c :: WithScore(a, score, c) == WithScore(b, score, c)
    ensures a == b
    decreases |a|
  {
    if |a| > 0 && |b| > 0 {
      var ca, cb := score(a[0]), score(b[0]);
      assert WithScore(b, score, cb)[0] == b[0];
      WithScoreMembers(a, score, cb, b[0]);
      assert WithScore(a, score, ca)[0] == a[0];
      WithScoreMembers(b, score, ca, a[0]);
      assert ca == cb;
      assert a[0] == b[0];
      forall c
        ensures WithScore(a[1..], score, c) == WithScore(b[1..], score, c)
      {
        var head := if score(a[0]) == c then [a[0]] else [];
        assert WithScore(a, score, c) == head + WithScore(a[1..], score, c);
        assert WithScore(b, score, c) == head + WithScore(b[1..], score, c);
        assert WithScore(a[1..], score, c) == WithScore(a, score, c)[|head|..];
      }
      SortUnique(a[1..], b[1..], score);
      assert a == [a[0]] + a[1..];
      assert b == [b[0]] + b[1..];
    } else if |a| > 0 {
      WithScoreHead(a, score);
    } else if |b| > 0 {
      WithScoreHead(b, score);
    }
  }

  /** `x` stands somewhere before `y` in `s`. */
  predicate Precedes<T(==)>(s: seq<T>, x: T, y: T)
  {
    exists i, j :: 0 <= i < j < |s| && s[i] == x && s[j] == y
  }

  /** Sorting a sequence that is already descending leaves it unchanged. */
  lemma {:induction false} SortSorted(s: seq<Entry>, score: Entry -> int)
    requires Descending(s, score)
    ensures SortBy(s, score) == s
  {
    SortDescending(s, score);
    forall c
      ensures WithScore(SortBy(s, score), score, c) == WithScore(s, score, c)
    {
      SortStable(s, score, c);
    }
    SortUnique(SortBy(s, score), s, score);
  }

  lemma PrecedesCons(h: Entry, s: seq<Entry>, x: Entry, y: Entry)
    ensures Precedes([h] + s, x, y) <==> (h == x && y in s) || Precedes(s, x, y)
  {
    var hs := [h] + s;
    if Precedes(hs, x, y) {
      var i, j :| 0 <= i < j < |hs| && hs[i] == x && hs[j] == y;
      assert hs[j] == s[j - 1];
      if i > 0 {
        assert hs[i] == s[i - 1];
      }
    }
    if h == x && y in s {
      var j :| 0 <= j < |s| && s[j] == y;
      assert hs[0] == x && hs[j + 1] == y;
    }
    if Precedes(s, x, y) {
      var i, j :| 0 <= i < j < |s| && s[i] == x && s[j] == y;
      assert hs[i + 1] == x && hs[j + 1] == y;
    }
  }

  lemma {:induction false} WithScoreHas(s: seq<Entry>, score: Entry -> int, c: int, y: Entry)
    requires score(y) == c
    ensures y in WithScore(s, score, c) <==> y in s
    decreases |s|
  {
    if |s| > 0 {
      WithScoreHas(s[1..], score, c, y);
      assert s == [s[0]] + s[1..];
    }
  }

  /** For two elements of the same score, their relative order is the same in `s` and in its score class. */
  lemma {:induction false} PrecedesWithScore(s: seq<Entry>, score: Entry -> int, c: int, x: Entry, y: Entry)
    requires score(x) == c && score(y) == c
    ensures Precedes(s, x, y) <==> Precedes(WithScore(s, score, c), x, y)
    decreases |s|
  {
    if |s| > 0 {
      var h, rest := s[0], s[1..];
      assert s == [h] + rest;
      PrecedesCons(h, rest, x, y);
      PrecedesWithScore(rest, score, c, x, y);
      WithScoreHas(rest, score, c, y);
      if score(h) == c {
        PrecedesCons(h, WithScore(rest, score, c), x, y);
      } else {
        assert h != x;
        assert WithScore(s, score, c) == [] + WithScore(rest, score, c) == WithScore(rest, score, c);
      }
    }
  }
}
