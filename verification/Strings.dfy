/**
  The few JavaScript string operations the data pipeline relies on:
  `toLowerCase` (restricted to ASCII), `includes`/`indexOf`, and the
  `join`/`split` pair used to render and read back a comma-separated list.
 */
module Strings {

  /** ASCII lower-casing of one character; every other character is kept. */
  function LowerChar(c: char): char
  {
    if 'A' <= c <= 'Z' then (c as int + 32) as char else c
  }

  /** `s.toLowerCase()`, restricted to the ASCII letters. */
  function Lower(s: string): (r: string)
    ensures |r| == |s|
    ensures forall i :: 0 <= i < |s| ==> r[i] == LowerChar(s[i])
  {
    seq(|s|, i requires 0 <= i < |s| => LowerChar(s[i]))
  }

  /** `sub` occurs in `s` starting at position `i`. */
  predicate OccursAt(sub: string, s: string, i: int)
  {
    0 <= i && i + |sub| <= |s| && s[i..i + |sub|] == sub
  }

  /**
    `s.indexOf(sub, from)`: the least position at or after `from` where `sub`
    occurs, or -1 when there is none.
   */
  function IndexOf(s: string, sub: string, from: nat): (r: int)
    ensures r == -1 || from <= r
    ensures r != -1 ==> OccursAt(sub, s, r)
    ensures forall i :: from <= i && (r == -1 || i < r) ==> !OccursAt(sub, s, i)
    decreases |s| - from
  {
    if from + |sub| > |s| then -1
    else if s[from..from + |sub|] == sub then from
    else IndexOf(s, sub, from + 1)
  }

  /** `s.includes(sub)`. */
  function Includes(s: string, sub: string): (b: bool)
    ensures b <==> exists i :: OccursAt(sub, s, i)
  {
    IndexOf(s, sub, 0) != -1
  }

  /** `ks.join(sep)`. */
  function Join(ks: seq<string>, sep: string): string
  {
    if |ks| == 0 then ""
    else if |ks| == 1 then ks[0]
    else ks[0] + sep + Join(ks[1..], sep)
  }

  /** `s.split(sep)` for a non-empty separator. */
  function Split(s: string, sep: string): (r: seq<string>)
    requires |sep| > 0
    ensures |r| >= 1
    decreases |s|
  {
    var i := IndexOf(s, sep, 0);
    if i == -1 then [s] else [s[..i]] + Split(s[i + |sep|..], sep)
  }

  /** No element of `ks` contains the character `c`. */
  predicate Avoids(ks: seq<string>, c: char)
  {
    forall i :: 0 <= i < |ks| ==> c !in ks[i]
  }

  /** A string that avoids the separator's first character has no occurrence of it. */
  lemma NoOccurrence(k: string, sep: string)
    requires |sep| > 0 && sep[0] !in k
    ensures IndexOf(k, sep, 0) == -1
  {
    forall i | 0 <= i && i + |sep| <= |k|
      ensures !OccursAt(sep, k, i)
    {
      assert k[i..i + |sep|][0] == k[i];
    }
  }

  /** The first separator in `k + sep + rest` is the one right after `k`. */
  lemma FirstSeparator(k: string, sep: string, rest: string)
    requires |sep| > 0 && sep[0] !in k
    ensures IndexOf(k + sep + rest, sep, 0) == |k|
  {
    var s := k + sep + rest;
    forall i | 0 <= i < |k| && i + |sep| <= |s|
      ensures !OccursAt(sep, s, i)
    {
      assert s[i..i + |sep|][0] == s[i] == k[i];
    }
    assert s[|k|..|k| + |sep|] == sep;
    assert OccursAt(sep, s, |k|);
  }

  /** Splitting a joined list gives the list back, provided no element contains the separator's first character. */
  lemma {:induction false} SplitJoin(ks: seq<string>, sep: string)
    requires |ks| >= 1 && |sep| > 0
    requires Avoids(ks, sep[0])
    ensures Split(Join(ks, sep), sep) == ks
    decreases |ks|
  {
    if |ks| == 1 {
      NoOccurrence(ks[0], sep);
    } else {
      var k, tail := ks[0], ks[1..];
      var rest := Join(tail, sep);
      var s := k + sep + rest;
      assert Join(ks, sep) == s;
      FirstSeparator(k, sep, rest);
      assert s[..|k|] == k;
      assert s[|k| + |sep|..] == rest;
      assert Split(s, sep) == [k] + Split(rest, sep);
      assert Avoids(tail, sep[0]);
      SplitJoin(tail, sep);
      assert ks == [k] + tail;
    }
  }

  /** The joined text is empty exactly when the list is, provided its elements are non-empty. */
  lemma JoinEmpty(ks: seq<string>, sep: string)
    requires forall i :: 0 <= i < |ks| ==> ks[i] != ""
    ensures Join(ks, sep) == "" <==> |ks| == 0
  {
    if |ks| >= 2 {
      assert |Join(ks, sep)| >= |ks[0]| > 0;
    }
  }

  /** Every character of the joined text comes from an element or from the separator. */
  lemma {:induction false} JoinChars(ks: seq<string>, sep: string, c: char)
    requires Avoids(ks, c) && c !in sep
    ensures c !in Join(ks, sep)
    decreases |ks|
  {
    if |ks| >= 2 {
      JoinChars(ks[1..], sep, c);
      assert Join(ks, sep) == ks[0] + sep + Join(ks[1..], sep);
    }
  }
}
