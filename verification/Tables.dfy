/**
  Insight tables. In the source each table is a plain object used as a
  counter, `{ value: count }`; its properties enumerate in creation order
  (see the PropertyOrder module for the one exception), so the model keeps
  a table as an association list in insertion order.
 */
module Tables {

  datatype Entry = Entry(key: string, count: nat)

  type Table = seq<Entry>

  function Keys(t: Table): (ks: seq<string>)
    ensures |ks| == |t|
    ensures forall i :: 0 <= i < |t| ==> ks[i] == t[i].key
  {
    seq(|t|, i requires 0 <= i < |t| => t[i].key)
  }

  predicate DistinctKeys(t: Table)
  {
    forall i, j :: 0 <= i < j < |t| ==> t[i].key != t[j].key
  }

  /** What the counting loop maintains: one entry per key, none with a zero count. */
  predicate WellFormed(t: Table)
  {
    DistinctKeys(t) && forall i :: 0 <= i < |t| ==> t[i].count >= 1
  }

  /** `table[k] || 0`: the count stored under `k`, or 0 when there is none. */
  function CountOf(t: Table, k: string): nat
  {
    if |t| == 0 then 0
    else if t[0].key == k then t[0].count
    else CountOf(t[1..], k)
  }

  /** The sum of all counts in the table. */
  function Total(t: Table): nat
  {
    if |t| == 0 then 0 else t[0].count + Total(t[1..])
  }

  /**
    `table[v] = (table[v] || 0) + 1`: an existing property is updated where
    it stands, a new one is created at the end with count 1.
   */
  function Bump(t: Table, v: string): Table
  {
    if |t| == 0 then [Entry(v, 1)]
    else if t[0].key == v then [Entry(v, t[0].count + 1)] + t[1..]
    else [t[0]] + Bump(t[1..], v)
  }

  lemma KeysCons(e: Entry, t: Table)
    ensures Keys([e] + t) == [e.key] + Keys(t)
  {
  }

  /** Counting `v` keeps the key order and appends `v` only when it is new. */
  lemma {:induction false} BumpKeys(t: Table, v: string)
    ensures Keys(Bump(t, v)) == if v in Keys(t) then Keys(t) else Keys(t) + [v]
    decreases |t|
  {
    if |t| > 0 {
      var h, r := t[0], t[1..];
      assert t == [h] + r;
      KeysCons(h, r);
      if h.key == v {
        KeysCons(Entry(v, h.count + 1), r);
        assert Keys(t)[0] == v;
      } else {
        BumpKeys(r, v);
        KeysCons(h, Bump(r, v));
        assert v in Keys(t) <==> v in Keys(r);
        if v !in Keys(r) {
          assert [h.key] + (Keys(r) + [v]) == ([h.key] + Keys(r)) + [v];
        }
      }
    }
  }

  /** Counting `v` raises the count of `v` by one and leaves every other count alone. */
  lemma {:induction false} BumpCounts(t: Table, v: string, k: string)
    ensures CountOf(Bump(t, v), k) == CountOf(t, k) + if k == v then 1 else 0
    decreases |t|
  {
    if |t| > 0 && t[0].key != v {
      BumpCounts(t[1..], v, k);
    }
  }

  /** Counting one value adds exactly one to the table's total. */
  lemma {:induction false} BumpTotal(t: Table, v: string)
    ensures Total(Bump(t, v)) == Total(t) + 1
    decreases |t|
  {
    if |t| > 0 && t[0].key != v {
      BumpTotal(t[1..], v);
    }
  }

  /** Counting preserves distinct keys and positive counts. */
  lemma BumpWellFormed(t: Table, v: string)
    requires WellFormed(t)
    ensures WellFormed(Bump(t, v))
  {
    var b := Bump(t, v);
    BumpKeys(t, v);
    BumpLength(t, v);
    BumpEntries(t, v);
    forall i, j | 0 <= i < j < |b|
      ensures b[i].key != b[j].key
    {
      assert Keys(b)[i] == b[i].key && Keys(b)[j] == b[j].key;
    }
    forall i | 0 <= i < |b|
      ensures b[i].count >= 1
    {
      if i < |t| {
        assert b[i].count >= t[i].count;
      }
    }
  }

  /** Counting an existing key keeps the table's length; counting a new key appends it with count one. */
  lemma {:induction false} BumpLength(t: Table, v: string)
    ensures v in Keys(t) ==> |Bump(t, v)| == |t|
    ensures v !in Keys(t) ==> Bump(t, v) == t + [Entry(v, 1)]
    decreases |t|
  {
    if |t| > 0 && t[0].key != v {
      BumpLength(t[1..], v);
      assert v in Keys(t) <==> v in Keys(t[1..]) by {
        KeysCons(t[0], t[1..]);
        assert t == [t[0]] + t[1..];
      }
      if v !in Keys(t) {
        assert [t[0]] + (t[1..] + [Entry(v, 1)]) == t + [Entry(v, 1)];
      }
    }
  }

  /** Counting leaves every other key's entry as it was, and lowers no count. */
  lemma {:induction false} BumpEntries(t: Table, v: string)
    ensures |Bump(t, v)| >= |t|
    ensures forall i :: 0 <= i < |t| && t[i].key != v ==> Bump(t, v)[i] == t[i]
    ensures forall i :: 0 <= i < |t| ==> Bump(t, v)[i].key == t[i].key && Bump(t, v)[i].count >= t[i].count
    decreases |t|
  {
    if |t| > 0 && t[0].key != v {
      var r := t[1..];
      BumpEntries(r, v);
      forall i | 0 < i < |t|
        ensures Bump(t, v)[i] == Bump(r, v)[i - 1] && t[i] == r[i - 1]
      {
      }
    }
  }

  /** In a table with distinct keys, an entry's own count is what a lookup of its key returns. */
  lemma {:induction false} CountOfEntry(t: Table, i: nat)
    requires DistinctKeys(t) && i < |t|
    ensures CountOf(t, t[i].key) == t[i].count
    decreases i
  {
    if i > 0 {
      CountOfEntry(t[1..], i - 1);
    }
  }

  /** Looking up an absent key gives 0. */
  lemma {:induction false} CountOfAbsent(t: Table, k: string)
    requires k !in Keys(t)
    ensures CountOf(t, k) == 0
    decreases |t|
  {
    if |t| > 0 {
      assert Keys(t[1..]) == Keys(t)[1..];
      CountOfAbsent(t[1..], k);
    }
  }

  /** In a well-formed table a key is present exactly when its count is positive. */
  lemma {:induction false} PresentIffCounted(t: Table, k: string)
    requires WellFormed(t)
    ensures k in Keys(t) <==> CountOf(t, k) >= 1
  {
    if k in Keys(t) {
      var i :| 0 <= i < |t| && t[i].key == k;
      CountOfEntry(t, i);
    } else {
      CountOfAbsent(t, k);
    }
  }

  /** Two tables with distinct keys and the same entries answer every lookup alike. */
  lemma SameEntriesSameCounts(a: Table, b: Table, k: string)
    requires DistinctKeys(a) && DistinctKeys(b)
    requires forall y :: y in a <==> y in b
    ensures CountOf(a, k) == CountOf(b, k)
    ensures k in Keys(a) <==> k in Keys(b)
  {
    if k in Keys(a) {
      var i :| 0 <= i < |a| && a[i].key == k;
      assert a[i] in b;
      var j :| 0 <= j < |b| && b[j] == a[i];
      CountOfEntry(a, i);
      CountOfEntry(b, j);
    } else {
      forall j | 0 <= j < |b|
        ensures b[j].key != k
      {
        assert b[j] in a;
      }
      CountOfAbsent(a, k);
      CountOfAbsent(b, k);
    }
  }

  /** Two tables with the same entries have the same keys. */
  lemma SameEntriesSameKeys(a: Table, b: Table)
    requires forall y :: y in a <==> y in b
    ensures forall k :: k in Keys(a) <==> k in Keys(b)
  {
    forall k | k in Keys(a)
      ensures k in Keys(b)
    {
      var i :| 0 <= i < |a| && a[i].key == k;
      assert a[i] in b;
      var j :| 0 <= j < |b| && b[j] == a[i];
      assert Keys(b)[j] == k;
    }
    forall k | k in Keys(b)
      ensures k in Keys(a)
    {
      var j :| 0 <= j < |b| && b[j].key == k;
      assert b[j] in a;
      var i :| 0 <= i < |a| && a[i] == b[j];
      assert Keys(a)[i] == k;
    }
  }
}
