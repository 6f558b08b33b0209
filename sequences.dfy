/** Sequence helpers for the ORDER BY ... DESC LIMIT ... OFFSET ... queries. */
module Sequences {

  /** The sequence read back to front. */
  function Reverse<T>(s: seq<T>): (r: seq<T>)
    ensures |r| == |s|
    ensures forall k :: 0 <= k < |s| ==> r[k] == s[|s| - 1 - k]
    ensures multiset(r) == multiset(s)
  {
    if s == [] then []
    else
      assert s == [s[0]] + s[1..];
      Reverse(s[1..]) + [s[0]]
  }

  /** LIMIT `limit` OFFSET `offset`: skip `offset` elements, then keep at most `limit`. */
  function Page<T>(s: seq<T>, limit: nat, offset: nat): (r: seq<T>)
    ensures |r| <= limit
    ensures |r| == if offset >= |s| then 0 else if |s| - offset < limit then |s| - offset else limit
    ensures forall k :: 0 <= k < |r| ==> r[k] == s[offset + k]
  {
    if offset >= |s| then []
    else if |s| - offset < limit then s[offset..]
    else s[offset..offset + limit]
  }

  /** Two consecutive pages are the page that spans both: a listing can be resumed by offset. */
  lemma PagesJoin<T>(s: seq<T>, first: nat, second: nat, offset: nat)
    ensures Page(s, first, offset) + Page(s, second, offset + first) == Page(s, first + second, offset)
  {
    var a, b, c := Page(s, first, offset), Page(s, second, offset + first), Page(s, first + second, offset);
    assert |a + b| == |c|;
    forall k | 0 <= k < |c| ensures (a + b)[k] == c[k] {
      if k >= |a| {
        assert |a| == first;
      }
    }
  }

  /** A page holds only elements of the sequence it was cut from. */
  lemma PageWithin<T>(s: seq<T>, limit: nat, offset: nat)
    ensures forall x :: x in Page(s, limit, offset) ==> x in s
  {
    var r := Page(s, limit, offset);
    forall x | x in r ensures x in s {
      var k :| 0 <= k < |r| && r[k] == x;
      assert s[offset + k] == x;
    }
  }
}
