/**
  Worked examples of the pipeline, proved on small inputs: the tie-break example,
  the effect of an array-index key on enumeration, the student filter on
  a few occupations, and a three-record dataset carried through to the
  stressors line of the prompt.
 */
module Scenarios {
  import opened Strings
  import opened Rows
  import opened Tables
  import opened Tally
  import opened Sorting
  import opened PropertyOrder
  import opened Ranking
  import opened Analysis
  import opened Prompt

  /** A key that does not start with a digit is not an array index. */
  lemma NotIndex(k: string)
    requires |k| > 0 && !IsDigit(k[0])
    ensures !IsArrayIndex(k)
  {
  }

  /** A table with no array-index key whose counts already descend is its own ranking. */
  lemma RankedInPlace(t: Table)
    requires forall i :: 0 <= i < |t| ==> !IsArrayIndex(t[i].key)
    requires Descending(t, CountScore)
    ensures Ranked(t) == t
  {
    EntriesInsertionOrder(t);
    SortSorted(t, CountScore);
  }

  /** Three named entries whose counts already descend: the top two are the first two. */
  lemma TopTwoOfThree(a: Entry, b: Entry, c: Entry)
    requires !IsArrayIndex(a.key) && !IsArrayIndex(b.key) && !IsArrayIndex(c.key)
    requires a.count >= b.count >= c.count
    ensures TopKeys([a, b, c], 2) == [a.key, b.key]
  {
    var t := [a, b, c];
    assert Ranked(t) == t by {
      RankedInPlace(t);
    }
    assert TopKeys(t, 2) == Keys([a, b]) by {
      TopOfInPlace(t, 2);
      assert t[..2] == [a, b];
    }
    assert Keys([a, b]) == [a.key, b.key] by {
      KeysCons(a, [b]);
      KeysCons(b, []);
    }
  }

  /** Counts {A: 5, B: 5, C: 3} inserted in that order; the top two are A then B. */
  lemma TieKeepsInsertionOrder()
    ensures TopKeys([Entry("A", 5), Entry("B", 5), Entry("C", 3)], 2) == ["A", "B"]
  {
    NotIndex("A");
    NotIndex("B");
    NotIndex("C");
    TopTwoOfThree(Entry("A", 5), Entry("B", 5), Entry("C", 3));
  }

  /** When ranking leaves a table in place, the top n keys are the table's first n keys. */
  lemma TopOfInPlace(t: Table, n: nat)
    requires Ranked(t) == t
    ensures TopKeys(t, n) == Keys(if n <= |t| then t[..n] else t)
  {
  }

  /** An array-index key is enumerated first, so on a tie it wins over an earlier-inserted key. */
  lemma IndexKeyEnumeratesFirst()
    ensures TopKeys([Entry("b", 1), Entry("1", 1)], 1) == ["1"]
  {
    var t := [Entry("b", 1), Entry("1", 1)];
    assert IsArrayIndex("1") && !IsArrayIndex("b");
    assert IndexEntries(t) == [Entry("1", 1)];
    assert NamedEntries(t) == [Entry("b", 1)];
    assert EntriesOrder(t) == [Entry("1", 1), Entry("b", 1)];
  }

  /** The filter is case-insensitive: an occupation of "Student" or "PhD STUDENT" is kept. */
  lemma StudentFilterKeeps(row: Row)
    requires Occupation in row && row[Occupation] in {"Student", "PhD STUDENT"}
    ensures IsStudent(row)
  {
    IsStudentSpec(row);
    if row[Occupation] == "Student" {
      assert MatchesIgnoringCase(StudentWord, "Student", 0);
    } else {
      PhdStudentMatches();
    }
  }

  lemma PhdStudentMatches()
    ensures MatchesIgnoringCase(StudentWord, "PhD STUDENT", 4)
  {
    var s := "PhD STUDENT";
    assert s[4..] == "STUDENT";
    forall j | 0 <= j < |StudentWord|
      ensures LowerChar(s[4 + j]) == StudentWord[j]
    {
      assert s[4 + j] == "STUDENT"[j];
    }
  }

  /** Another occupation, an empty cell and a missing column are all rejected. */
  lemma StudentFilterRejects(row: Row)
    requires Occupation !in row || row[Occupation] in {"Housewife", ""}
    ensures !IsStudent(row)
  {
    IsStudentSpec(row);
    if Occupation in row && row[Occupation] == "Housewife" {
      HousewifeNoMatch(row[Occupation]);
    }
  }

  lemma HousewifeNoMatch(occ: string)
    requires occ == "Housewife"
    ensures forall i :: !MatchesIgnoringCase(StudentWord, occ, i)
  {
    forall i
      ensures !MatchesIgnoringCase(StudentWord, occ, i)
    {
      if 0 <= i && i + |StudentWord| <= |occ| {
        assert LowerChar(occ[i]) != StudentWord[0];
      }
    }
  }

  const Stressed: Row := map[Occupation := "Student", "Growing_Stress" := "Yes"]
  const Calm: Row := map[Occupation := "Student", "Growing_Stress" := "No"]

  /** Counting the stress column of two stressed records and one calm one. */
  lemma StressTally()
    ensures TallyColumn([Stressed, Stressed, Calm], "Growing_Stress") == [Entry("Yes", 2), Entry("No", 1)]
  {
    var rows := [Stressed, Stressed, Calm];
    var col := "Growing_Stress";
    assert rows[..2] == [Stressed, Stressed] && rows[..2][..1] == [Stressed] && rows[..2][..1][..0] == [];
    assert Truthy(Stressed, col) && Stressed[col] == "Yes";
    assert Truthy(Calm, col) && Calm[col] == "No";
    assert [Stressed][..0] == [] && [Stressed, Stressed][..1] == [Stressed];
    var t1 := TallyColumn([Stressed], col);
    assert t1 == Record(TallyColumn([], col), Stressed, col);
    assert t1 == Bump([], "Yes") == [Entry("Yes", 1)];
    var t2 := TallyColumn([Stressed, Stressed], col);
    assert t2 == Record(t1, Stressed, col);
    assert t2 == Bump(t1, "Yes") == [Entry("Yes", 2)];
    assert TallyColumn(rows, col) == Bump(t2, "No");
    assert Bump(t2, "No") == [Entry("Yes", 2)] + Bump([], "No");
  }

  /** Two named entries whose counts already descend: any top-n with n >= 2 lists both, in order. */
  lemma TopOfTwo(y: Entry, n: Entry, k: nat)
    requires !IsArrayIndex(y.key) && !IsArrayIndex(n.key)
    requires y.count >= n.count && k >= 2
    ensures TopKeys([y, n], k) == [y.key, n.key]
  {
    RankedTwo(y, n);
    TopOfInPlace([y, n], k);
    assert [y, n][..2] == [y, n];
    KeysTwo(y, n);
  }

  lemma RankedTwo(y: Entry, n: Entry)
    requires !IsArrayIndex(y.key) && !IsArrayIndex(n.key)
    requires y.count >= n.count
    ensures Ranked([y, n]) == [y, n]
  {
    RankedInPlace([y, n]);
  }

  lemma KeysTwo(y: Entry, n: Entry)
    ensures Keys([y, n]) == [y.key, n.key]
  {
    KeysCons(y, [n]);
    KeysCons(n, []);
  }

  /** Ranking the stress table: both keys are selected, "Yes" first. */
  lemma StressTop()
    ensures TopKeys([Entry("Yes", 2), Entry("No", 1)], 3) == ["Yes", "No"]
  {
    NotIndex("Yes");
    NotIndex("No");
    TopOfTwo(Entry("Yes", 2), Entry("No", 1), 3);
  }

  /** Rendering the top three of the stress table. */
  lemma StressList()
    ensures TopList([Entry("Yes", 2), Entry("No", 1)], 3) == "Yes, No"
  {
    StressTop();
    JoinTwo("Yes", "No", ListSeparator);
  }

  lemma JoinTwo(a: string, b: string, sep: string)
    ensures Join([a, b], sep) == a + sep + b
  {
    assert [a, b][1..] == [b];
  }

  /** Three student records, two stressed and one not: the stressors line reads "Yes, No". */
  lemma StressorsRanking()
    ensures TopList(Analyze([Stressed, Stressed, Calm]).stressFactors, StressorsShown) == "Yes, No"
  {
    AnalyzeByColumn([Stressed, Stressed, Calm], StressFactors);
    StressTally();
    StressList();
  }

  lemma StudentsCons(x: Row, rest: seq<Row>)
    ensures Students([x] + rest) == (if IsStudent(x) then [x] else []) + Students(rest)
  {
    assert ([x] + rest)[1..] == rest;
  }

  /** Filtering two student rows keeps both. */
  lemma KeepTwo(c: Row, d: Row)
    requires IsStudent(c) && IsStudent(d)
    ensures Students([c, d]) == [c, d]
  {
    StudentsCons(d, []);
    StudentsCons(c, [d]);
    assert [c] + [d] == [c, d];
  }

  lemma ConsThree(a: Row, b: Row, c: Row)
    ensures [a] + [b, c] == [a, b, c]
  {
  }

  lemma ConsFour(a: Row, b: Row, c: Row, d: Row)
    ensures [a] + [b, c, d] == [a, b, c, d]
  {
  }

  /** Filtering four rows of which the second is not a student row. */
  lemma DropSecond(a: Row, b: Row, c: Row, d: Row)
    requires IsStudent(a) && !IsStudent(b) && IsStudent(c) && IsStudent(d)
    ensures Students([a, b, c, d]) == [a, c, d]
  {
    KeepTwo(c, d);
    StudentsCons(b, [c, d]);
    ConsThree(b, c, d);
    StudentsCons(a, [b, c, d]);
    ConsFour(a, b, c, d);
    ConsThree(a, c, d);
  }

  const Homemaker: Row := map[Occupation := "Housewife", "Growing_Stress" := "Yes"]

  /** The loader drops the non-student row and keeps the others in order. */
  lemma LoadScenario()
    ensures Students([Stressed, Homemaker, Stressed, Calm]) == [Stressed, Stressed, Calm]
  {
    StudentFilterKeeps(Stressed);
    StudentFilterKeeps(Calm);
    StudentFilterRejects(Homemaker);
    DropSecond(Stressed, Homemaker, Stressed, Calm);
  }
}
