/**
  Counting one column of the retained rows into an insight table, and the
  independent descriptions of the result: the truthy values of the column
  in row order, their first-seen order, and how many rows carry each value.
 */
module Tally {
  import opened Rows
  import opened Tables

  /** One row's contribution to the table of column `col`: count its value when the value is truthy. */
  function Record(t: Table, row: Row, col: string): Table
  {
    if Truthy(row, col) then Bump(t, row[col]) else t
  }

  /** The table of column `col` after counting every row, first to last. */
  function TallyColumn(rows: seq<Row>, col: string): Table
    decreases |rows|
  {
    if |rows| == 0 then []
    else Record(TallyColumn(rows[..|rows| - 1], col), rows[|rows| - 1], col)
  }

  /** The truthy values of column `col`, in row order. */
  function Values(rows: seq<Row>, col: string): (vs: seq<string>)
    ensures |vs| <= |rows|
    ensures "" !in vs
    decreases |rows|
  {
    if |rows| == 0 then []
    else
      var last := rows[|rows| - 1];
      Values(rows[..|rows| - 1], col) + if Truthy(last, col) then [last[col]] else []
  }

  /** The number of rows whose column `col` holds exactly the text `k`. */
  function CountRows(rows: seq<Row>, col: string, k: string): nat
    decreases |rows|
  {
    if |rows| == 0 then 0
    else
      var last := rows[|rows| - 1];
      CountRows(rows[..|rows| - 1], col, k) + if col in last && last[col] == k then 1 else 0
  }

  predicate Distinct(s: seq<string>)
  {
    forall i, j :: 0 <= i < j < |s| ==> s[i] != s[j]
  }

  /** The distinct elements of `s`, each at the place where it first occurs. */
  function Dedup(s: seq<string>): (d: seq<string>)
    ensures forall x :: x in d <==> x in s
    ensures Distinct(d)
    decreases |s|
  {
    if |s| == 0 then []
    else
      var d := Dedup(s[..|s| - 1]);
      var x := s[|s| - 1];
      assert s == s[..|s| - 1] + [x];
      if x in d then d else d + [x]
  }

  /** The position of the first occurrence of `x` in `s`. */
  function FirstIndex(s: seq<string>, x: string): (r: nat)
    requires x in s
    ensures r < |s| && s[r] == x
    ensures forall j :: 0 <= j < r ==> s[j] != x
  {
    if s[0] == x then 0 else 1 + FirstIndex(s[1..], x)
  }

  /** The first occurrence of a value is the same in a sequence and in any extension of it. */
  lemma FirstIndexExtend(p: seq<string>, x: string, y: string)
    requires y in p
    ensures y in p + [x] && FirstIndex(p + [x], y) == FirstIndex(p, y)
  {
    var s := p + [x];
    var a, b := FirstIndex(s, y), FirstIndex(p, y);
    assert s[b] == y;
  }

  /** The deduplicated values are listed in the order of their first occurrence. */
  lemma {:induction false} DedupFirstSeen(s: seq<string>)
    ensures forall i, j :: 0 <= i < j < |Dedup(s)| ==>
      FirstIndex(s, Dedup(s)[i]) < FirstIndex(s, Dedup(s)[j])
    decreases |s|
  {
    if |s| > 0 {
      var p, x := s[..|s| - 1], s[|s| - 1];
      assert s == p + [x];
      var d := Dedup(p);
      DedupFirstSeen(p);
      forall y | y in p
        ensures FirstIndex(s, y) == FirstIndex(p, y)
      {
        FirstIndexExtend(p, x, y);
      }
      if x !in d {
        assert FirstIndex(s, x) == |p|;
      }
    }
  }

  /** Exact counts: a key's count is the number of rows carrying it; the empty text is never counted. */
  lemma {:induction false} TallyCounts(rows: seq<Row>, col: string, k: string)
    ensures CountOf(TallyColumn(rows, col), k) == if k == "" then 0 else CountRows(rows, col, k)
    decreases |rows|
  {
    if |rows| > 0 {
      var p, last := rows[..|rows| - 1], rows[|rows| - 1];
      TallyCounts(p, col, k);
      if Truthy(last, col) {
        BumpCounts(TallyColumn(p, col), last[col], k);
      }
    }
  }

  /** Keys appear once each, in the order their values were first seen; the empty text is never a key. */
  lemma {:induction false} TallyKeys(rows: seq<Row>, col: string)
    ensures Keys(TallyColumn(rows, col)) == Dedup(Values(rows, col))
    ensures "" !in Keys(TallyColumn(rows, col))
    decreases |rows|
  {
    if |rows| > 0 {
      var p, last := rows[..|rows| - 1], rows[|rows| - 1];
      TallyKeys(p, col);
      if Truthy(last, col) {
        BumpKeys(TallyColumn(p, col), last[col]);
        var vs := Values(p, col) + [last[col]];
        assert vs[..|vs| - 1] == Values(p, col);
      } else {
        assert Values(rows, col) == Values(p, col);
      }
    }
  }

  /** Every table built by counting has distinct keys and positive counts. */
  lemma {:induction false} TallyWellFormed(rows: seq<Row>, col: string)
    ensures WellFormed(TallyColumn(rows, col))
    decreases |rows|
  {
    if |rows| > 0 {
      var p, last := rows[..|rows| - 1], rows[|rows| - 1];
      TallyWellFormed(p, col);
      if Truthy(last, col) {
        BumpWellFormed(TallyColumn(p, col), last[col]);
      }
    }
  }

  /** The counts add up to the number of truthy cells, so never to more than the number of rows. */
  lemma {:induction false} TallyTotal(rows: seq<Row>, col: string)
    ensures Total(TallyColumn(rows, col)) == |Values(rows, col)| <= |rows|
    decreases |rows|
  {
    if |rows| > 0 {
      var p, last := rows[..|rows| - 1], rows[|rows| - 1];
      TallyTotal(p, col);
      if Truthy(last, col) {
        BumpTotal(TallyColumn(p, col), last[col]);
      }
    }
  }

  /** Two row sequences that agree, row by row, on the truthiness and text of column `col`. */
  predicate AgreeOn(a: seq<Row>, b: seq<Row>, col: string)
  {
    |a| == |b| &&
    forall i :: 0 <= i < |a| ==>
      (Truthy(a[i], col) <==> Truthy(b[i], col)) &&
      (Truthy(a[i], col) ==> a[i][col] == b[i][col])
  }

  /** A column's table depends on that column alone: the other cells of a row never reach it. */
  lemma {:induction false} TallyDependsOnColumnOnly(a: seq<Row>, b: seq<Row>, col: string)
    requires AgreeOn(a, b, col)
    ensures TallyColumn(a, col) == TallyColumn(b, col)
    decreases |a|
  {
    if |a| > 0 {
      var n := |a| - 1;
      assert AgreeOn(a[..n], b[..n], col);
      TallyDependsOnColumnOnly(a[..n], b[..n], col);
    }
  }

  /** No cell of column `col` in `rows` contains the character `c`. */
  predicate CellsAvoid(rows: seq<Row>, col: string, c: char)
  {
    forall r :: r in rows && col in r ==> c !in r[col]
  }

  /** Every key of a column's table is the text of some cell of that column. */
  lemma {:induction false} ValuesAvoid(rows: seq<Row>, col: string, c: char)
    requires CellsAvoid(rows, col, c)
    ensures forall v :: v in Values(rows, col) ==> c !in v
    decreases |rows|
  {
    if |rows| > 0 {
      var p, last := rows[..|rows| - 1], rows[|rows| - 1];
      assert forall r :: r in p ==> r in rows;
      ValuesAvoid(p, col, c);
      assert last in rows;
    }
  }

  /** A character that no cell of the column contains appears in no key of its table. */
  lemma TallyKeysAvoid(rows: seq<Row>, col: string, c: char)
    requires CellsAvoid(rows, col, c)
    ensures forall i :: 0 <= i < |TallyColumn(rows, col)| ==> c !in TallyColumn(rows, col)[i].key
  {
    var t := TallyColumn(rows, col);
    TallyKeys(rows, col);
    ValuesAvoid(rows, col, c);
    forall i | 0 <= i < |t|
      ensures c !in t[i].key
    {
      assert Keys(t)[i] in Dedup(Values(rows, col));
    }
  }
}
