/**
  The order in which `Object.entries` lists a counter object's properties
  (the ordinary [[OwnPropertyKeys]] order of the ECMAScript language
  specification, section 10.1.11.1 of the 2022 edition): first the keys that
  are array indices, in ascending numeric order, then every other string
  key in the order it was created. For tables whose keys are not array
  indices this is just insertion order.
 */
module PropertyOrder {
  import opened Tables
  import opened Sorting

  predicate IsDigit(c: char)
  {
    '0' <= c <= '9'
  }

  function DigitValue(c: char): nat
  {
    if IsDigit(c) then c as int - '0' as int else 0
  }

  /** The value of a string of decimal digits. */
  function DecimalValue(s: string): nat
  {
    if |s| == 0 then 0 else DecimalValue(s[..|s| - 1]) * 10 + DigitValue(s[|s| - 1])
  }

  /** The largest array index, 2^32 - 2. */
  const MaxArrayIndex: nat := 4294967294

  /**
    A key is an array index when it is the canonical decimal text of an
    integer from 0 to 2^32 - 2: only digits, no leading zero unless the key
    is "0" itself.
   */
  predicate IsArrayIndex(k: string)
  {
    && |k| >= 1
    && (forall i :: 0 <= i < |k| ==> IsDigit(k[i]))
    && (k[0] != '0' || |k| == 1)
    && DecimalValue(k) <= MaxArrayIndex
  }

  /** Array-index keys enumerate in ascending numeric order, so a smaller value ranks higher. */
  function IndexScore(e: Entry): int
  {
    -(DecimalValue(e.key) as int)
  }

  /** The entries whose key is an array index, in table order. */
  function IndexEntries(t: Table): (r: Table)
    ensures forall y :: y in r <==> y in t && IsArrayIndex(y.key)
  {
    if |t| == 0 then []
    else (if IsArrayIndex(t[0].key) then [t[0]] else []) + IndexEntries(t[1..])
  }

  /** The entries whose key is not an array index, in table order. */
  function NamedEntries(t: Table): (r: Table)
    ensures forall y :: y in r <==> y in t && !IsArrayIndex(y.key)
  {
    if |t| == 0 then []
    else (if IsArrayIndex(t[0].key) then [] else [t[0]]) + NamedEntries(t[1..])
  }

  /** `Object.entries(table)`. */
  function EntriesOrder(t: Table): Table
  {
    SortBy(IndexEntries(t), IndexScore) + NamedEntries(t)
  }

  lemma {:induction false} NamedEntriesAppend(a: Table, b: Table)
    ensures NamedEntries(a + b) == NamedEntries(a) + NamedEntries(b)
    decreases |a|
  {
    if |a| == 0 {
      assert a + b == b;
    } else {
      assert (a + b)[1..] == a[1..] + b;
      NamedEntriesAppend(a[1..], b);
    }
  }

  lemma {:induction false} NamedEntriesOfNamed(t: Table)
    requires forall i :: 0 <= i < |t| ==> !IsArrayIndex(t[i].key)
    ensures NamedEntries(t) == t
    decreases |t|
  {
    if |t| > 0 {
      NamedEntriesOfNamed(t[1..]);
    }
  }

  lemma {:induction false} NamedEntriesOfIndices(t: Table)
    requires forall i :: 0 <= i < |t| ==> IsArrayIndex(t[i].key)
    ensures NamedEntries(t) == []
    decreases |t|
  {
    if |t| > 0 {
      NamedEntriesOfIndices(t[1..]);
    }
  }

  lemma {:induction false} IndexEntriesDistinct(t: Table)
    requires DistinctKeys(t)
    ensures DistinctKeys(IndexEntries(t))
    decreases |t|
  {
    if |t| > 0 {
      var rest := IndexEntries(t[1..]);
      IndexEntriesDistinct(t[1..]);
      forall i | 0 <= i < |rest|
        ensures rest[i].key != t[0].key
      {
        assert rest[i] in t[1..];
      }
    }
  }

  lemma {:induction false} NamedEntriesDistinct(t: Table)
    requires DistinctKeys(t)
    ensures DistinctKeys(NamedEntries(t))
    decreases |t|
  {
    if |t| > 0 {
      var rest := NamedEntries(t[1..]);
      NamedEntriesDistinct(t[1..]);
      forall i | 0 <= i < |rest|
        ensures rest[i].key != t[0].key
      {
        assert rest[i] in t[1..];
      }
    }
  }

  /** Enumeration lists exactly the table's entries, each once. */
  lemma EntriesPermutes(t: Table)
    ensures forall y :: y in EntriesOrder(t) <==> y in t
    ensures DistinctKeys(t) ==> DistinctKeys(EntriesOrder(t))
    ensures WellFormed(t) ==> WellFormed(EntriesOrder(t))
  {
    var a, b := SortBy(IndexEntries(t), IndexScore), NamedEntries(t);
    SortPermutes(IndexEntries(t), IndexScore);
    if DistinctKeys(t) {
      IndexEntriesDistinct(t);
      NamedEntriesDistinct(t);
      SortDistinct(IndexEntries(t), IndexScore);
      var e := a + b;
      forall i, j | 0 <= i < j < |e|
        ensures e[i].key != e[j].key
      {
        if i < |a| && j >= |a| {
          assert e[i] in a && e[j] in b;
          assert IsArrayIndex(e[i].key) && !IsArrayIndex(e[j].key);
        }
      }
    }
    if WellFormed(t) {
      forall i | 0 <= i < |a + b|
        ensures (a + b)[i].count >= 1
      {
        assert (a + b)[i] in t;
      }
    }
  }

  lemma {:induction false} IndexEntriesOfNamed(t: Table)
    requires forall i :: 0 <= i < |t| ==> !IsArrayIndex(t[i].key)
    ensures IndexEntries(t) == []
    decreases |t|
  {
    if |t| > 0 {
      IndexEntriesOfNamed(t[1..]);
    }
  }

  /** The array-index entries, sorted: all array indices, in ascending numeric order. */
  lemma SortedIndices(t: Table)
    ensures forall i :: 0 <= i < |SortBy(IndexEntries(t), IndexScore)| ==>
      IsArrayIndex(SortBy(IndexEntries(t), IndexScore)[i].key)
    ensures forall i, j :: 0 <= i < j < |SortBy(IndexEntries(t), IndexScore)| ==>
      DecimalValue(SortBy(IndexEntries(t), IndexScore)[i].key) <=
      DecimalValue(SortBy(IndexEntries(t), IndexScore)[j].key)
  {
    var a := SortBy(IndexEntries(t), IndexScore);
    SortPermutes(IndexEntries(t), IndexScore);
    SortDescending(IndexEntries(t), IndexScore);
    forall i | 0 <= i < |a|
      ensures IsArrayIndex(a[i].key)
    {
      assert a[i] in IndexEntries(t);
    }
    forall i, j | 0 <= i < j < |a|
      ensures DecimalValue(a[i].key) <= DecimalValue(a[j].key)
    {
      assert IndexScore(a[i]) >= IndexScore(a[j]);
    }
  }

  /** Enumeration lists the array-index keys first, in ascending numeric order. */
  lemma EntriesIndicesFirst(t: Table)
    ensures forall i, j :: 0 <= i < j < |EntriesOrder(t)| && IsArrayIndex(EntriesOrder(t)[j].key) ==>
      IsArrayIndex(EntriesOrder(t)[i].key) &&
      DecimalValue(EntriesOrder(t)[i].key) <= DecimalValue(EntriesOrder(t)[j].key)
  {
    var a, b := SortBy(IndexEntries(t), IndexScore), NamedEntries(t);
    var e := a + b;
    SortedIndices(t);
    forall i, j | 0 <= i < j < |e| && IsArrayIndex(e[j].key)
      ensures IsArrayIndex(e[i].key) && DecimalValue(e[i].key) <= DecimalValue(e[j].key)
    {
      if j < |a| {
        assert e[i] == a[i] && e[j] == a[j];
      } else {
        NamedNotIndex(b, j - |a|);
      }
    }
  }

  lemma NamedNotIndex(b: Table, j: nat)
    requires j < |b| && forall y :: y in b ==> !IsArrayIndex(y.key)
    ensures !IsArrayIndex(b[j].key)
  {
    assert b[j] in b;
  }

  /** Enumeration lists the other keys after them, in insertion order. */
  lemma EntriesNamedInOrder(t: Table)
    ensures NamedEntries(EntriesOrder(t)) == NamedEntries(t)
  {
    var a, b := SortBy(IndexEntries(t), IndexScore), NamedEntries(t);
    SortedIndices(t);
    NamedEntriesAppend(a, b);
    NamedEntriesOfIndices(a);
    NamedEntriesOfNamed(b);
    assert [] + b == b;
  }

  /** When no key is an array index, enumeration is insertion order. */
  lemma EntriesInsertionOrder(t: Table)
    requires forall i :: 0 <= i < |t| ==> !IsArrayIndex(t[i].key)
    ensures EntriesOrder(t) == t
  {
    IndexEntriesOfNamed(t);
    NamedEntriesOfNamed(t);
    assert [] + t == t;
  }

  /** Enumeration does not change what a lookup of any key returns. */
  lemma EntriesCounts(t: Table, k: string)
    requires DistinctKeys(t)
    ensures CountOf(EntriesOrder(t), k) == CountOf(t, k)
    ensures k in Keys(EntriesOrder(t)) <==> k in Keys(t)
  {
    EntriesPermutes(t);
    SameEntriesSameCounts(EntriesOrder(t), t, k);
  }
}
