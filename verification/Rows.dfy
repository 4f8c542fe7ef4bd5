/**
  Dataset rows and the student filter applied while the CSV file streams in.
  A row is what the CSV parser hands over: a map from header name to cell
  text. A column the row lacks and an empty cell are both falsy in
  JavaScript, and everything downstream treats them alike.
 */
module Rows {
  import opened Strings

  type Row = map<string, string>

  /** JavaScript truthiness of `row[col]`: the column is present and its text non-empty. */
  predicate Truthy(row: Row, col: string)
  {
    col in row && row[col] != ""
  }

  const Occupation: string := "Occupation"
  const StudentWord: string := "student"

  /** The test applied to every streamed row: its occupation, lower-cased, contains "student". */
  predicate IsStudent(row: Row)
  {
    Truthy(row, Occupation) && Includes(Lower(row[Occupation]), StudentWord)
  }

  /** `w` occurs in `s` at position `i` when ASCII case is ignored on the side of `s`. */
  predicate MatchesIgnoringCase(w: string, s: string, i: int)
  {
    0 <= i && i + |w| <= |s| && forall j :: 0 <= j < |w| ==> LowerChar(s[i + j]) == w[j]
  }

  /**
    The filter as a plain statement about the occupation text: a row is a
    student row iff it has a non-empty occupation in which the word
    "student" appears somewhere in any mix of ASCII upper and lower case.
   */
  lemma IsStudentSpec(row: Row)
    ensures IsStudent(row) <==>
      Occupation in row && row[Occupation] != "" &&
      exists i :: MatchesIgnoringCase(StudentWord, row[Occupation], i)
  {
    if Occupation in row {
      var occ := row[Occupation];
      var low := Lower(occ);
      forall i ensures OccursAt(StudentWord, low, i) <==> MatchesIgnoringCase(StudentWord, occ, i) {
        if 0 <= i && i + |StudentWord| <= |occ| {
          var window := low[i..i + |StudentWord|];
          assert forall j :: 0 <= j < |window| ==> window[j] == LowerChar(occ[i + j]);
        }
      }
    }
  }

  /** The rows kept by the loader, in the order they were streamed. */
  function Students(rows: seq<Row>): (out: seq<Row>)
    ensures |out| <= |rows|
    ensures forall r :: r in out <==> r in rows && IsStudent(r)
  {
    if |rows| == 0 then []
    else (if IsStudent(rows[0]) then [rows[0]] else []) + Students(rows[1..])
  }

  /** Each student row is kept as many times as it was streamed; other rows not at all. */
  lemma {:induction false} StudentsMultiplicity(rows: seq<Row>, r: Row)
    ensures multiset(Students(rows))[r] == if IsStudent(r) then multiset(rows)[r] else 0
    decreases |rows|
  {
    if |rows| > 0 {
      StudentsMultiplicity(rows[1..], r);
      assert rows == [rows[0]] + rows[1..];
    }
  }

  /** Filtering commutes with concatenation, so kept rows keep their relative order. */
  lemma {:induction false} StudentsAppend(a: seq<Row>, b: seq<Row>)
    ensures Students(a + b) == Students(a) + Students(b)
    decreases |a|
  {
    if |a| == 0 {
      assert a + b == b;
    } else {
      assert (a + b)[1..] == a[1..] + b;
      StudentsAppend(a[1..], b);
    }
  }

  /** Filtering twice keeps the same rows as filtering once. */
  lemma {:induction false} StudentsIdempotent(rows: seq<Row>)
    ensures Students(Students(rows)) == Students(rows)
    decreases |rows|
  {
    if |rows| > 0 {
      var head := if IsStudent(rows[0]) then [rows[0]] else [];
      StudentsAppend(head, Students(rows[1..]));
      StudentsIdempotent(rows[1..]);
      if IsStudent(rows[0]) {
        assert Students(head) == head;
      }
    }
  }

  /** Filtering one more row appends it exactly when it passes the test. */
  lemma StudentsSnoc(rows: seq<Row>, i: nat)
    requires i < |rows|
    ensures Students(rows[..i + 1]) == Students(rows[..i]) + if IsStudent(rows[i]) then [rows[i]] else []
  {
    var x := rows[i];
    assert rows[..i + 1] == rows[..i] + [x];
    StudentsAppend(rows[..i], [x]);
    assert [x][1..] == [];
    assert Students([x]) == (if IsStudent(x) then [x] else []) + Students([]);
  }

  /**
    The streaming loader: each row is pushed onto the record list when it
    passes the filter. The result is the filtered sequence.
   */
  method LoadStudents(rows: seq<Row>) returns (records: seq<Row>)
    ensures records == Students(rows)
    ensures forall r :: r in records <==> r in rows && IsStudent(r)
  {
    records := [];
    for i := 0 to |rows|
      invariant records == Students(rows[..i])
    {
      StudentsSnoc(rows, i);
      if IsStudent(rows[i]) {
        records := records + [rows[i]];
      }
    }
    assert rows[..|rows|] == rows;
  }
}
