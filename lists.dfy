/** The list operation both to-do copies are built on: JavaScript's
    `Array.prototype.filter`, which returns a new array holding, in their
    original order, the elements for which the callback returned true.
    The callback is an item predicate, so it is modelled as a total arrow. */
module Lists {

  /** `s.filter(p)`: the elements of `s` that satisfy `p`, in order. */
  function Filter<T>(p: T -> bool, s: seq<T>): (r: seq<T>)
    ensures |r| <= |s|
    ensures forall x :: x in r ==> x in s && p(x)
    ensures forall x :: x in s && p(x) ==> x in r
  {
    if s == [] then []
    else if p(s[0]) then [s[0]] + Filter(p, s[1..])
    else Filter(p, s[1..])
  }

  /** The positions `i` of `s` with `p(s[i])`, in ascending order: where
      each element of `Filter(p, s)` came from. */
  function Positions<T>(p: T -> bool, s: seq<T>): (idx: seq<nat>)
    ensures forall k :: 0 <= k < |idx| ==> idx[k] < |s|
  {
    if s == [] then []
    else if p(s[0]) then [0] + Shifted(Positions(p, s[1..]))
    else Shifted(Positions(p, s[1..]))
  }

  /** Every position moved one place to the right. */
  function Shifted(idx: seq<nat>): (r: seq<nat>)
    ensures |r| == |idx|
    ensures forall k :: 0 <= k < |idx| ==> r[k] == idx[k] + 1
  {
    if idx == [] then [] else [idx[0] + 1] + Shifted(idx[1..])
  }

  /** `r` is the subsequence of `s` picked out by the ascending positions `idx`. */
  ghost predicate PicksOut<T>(r: seq<T>, s: seq<T>, idx: seq<nat>)
  {
    && |idx| == |r|
    && (forall k :: 0 <= k < |idx| ==> idx[k] < |s| && r[k] == s[idx[k]])
    && (forall j, k :: 0 <= j < k < |idx| ==> idx[j] < idx[k])
  }

  lemma {:induction false} PositionsAscending<T>(p: T -> bool, s: seq<T>)
    ensures forall j, k :: 0 <= j < k < |Positions(p, s)| ==> Positions(p, s)[j] < Positions(p, s)[k]
  {
    if s != [] {
      PositionsAscending(p, s[1..]);
    }
  }

  lemma ShiftedHolds(idx: seq<nat>, i: nat)
    requires 0 < i
    ensures i in Shifted(idx) <==> i - 1 in idx
  {
  }

  /** Position 0 is kept exactly when the first element passes. */
  lemma PositionsHead<T>(p: T -> bool, s: seq<T>)
    requires s != []
    ensures 0 in Positions(p, s) <==> p(s[0])
  {
  }

  /** A later position is kept exactly when it is kept in the tail. */
  lemma PositionsTail<T>(p: T -> bool, s: seq<T>, i: nat)
    requires 0 < i < |s|
    ensures i in Positions(p, s) <==> i - 1 in Positions(p, s[1..])
  {
    var rest := Positions(p, s[1..]);
    ShiftedHolds(rest, i);
    assert i in Positions(p, s) <==> i in Shifted(rest);
  }

  lemma {:induction false} PositionsExactly<T>(p: T -> bool, s: seq<T>)
    ensures forall i :: 0 <= i < |s| ==> (i in Positions(p, s) <==> p(s[i]))
  {
    if s != [] {
      PositionsExactly(p, s[1..]);
      forall i | 0 <= i < |s|
        ensures i in Positions(p, s) <==> p(s[i])
      {
        if |s| == 1 {
          assert Positions(p, s[1..]) == [];
        } else {
          if i == 0 {
            PositionsHead(p, s);
          } else {
            PositionsTail(p, s, i);
            assert s[1..][i - 1] == s[i];
          }
        }
      }
    }
  }

  lemma {:induction false} FilterAt<T>(p: T -> bool, s: seq<T>)
    ensures |Positions(p, s)| == |Filter(p, s)|
    ensures forall k :: 0 <= k < |Positions(p, s)| ==> Filter(p, s)[k] == s[Positions(p, s)[k]]
  {
    if s != [] {
      FilterAt(p, s[1..]);
      var r, rest := Filter(p, s), Filter(p, s[1..]);
      var idx, more := Positions(p, s), Positions(p, s[1..]);
      var h := if p(s[0]) then 1 else 0;
      forall k | h <= k < |idx|
        ensures r[k] == s[idx[k]]
      {
        assert r[k] == rest[k - h] && idx[k] == more[k - h] + 1;
        assert s[1..][more[k - h]] == s[more[k - h] + 1];
      }
    }
  }

  /** The filter result is an order-preserving subsequence of the input that
      keeps position `i` exactly when `p(s[i])`; this determines it fully. */
  lemma FilterIsSubsequence<T>(p: T -> bool, s: seq<T>)
    ensures PicksOut(Filter(p, s), s, Positions(p, s))
    ensures forall i :: 0 <= i < |s| ==> (i in Positions(p, s) <==> p(s[i]))
  {
    PositionsAscending(p, s);
    PositionsExactly(p, s);
    FilterAt(p, s);
  }

  /** A filter that every element passes returns the input unchanged. */
  lemma {:induction false} FilterKeepsAll<T>(p: T -> bool, s: seq<T>)
    requires forall i :: 0 <= i < |s| ==> p(s[i])
    ensures Filter(p, s) == s
  {
    if s != [] {
      FilterKeepsAll(p, s[1..]);
    }
  }

  /** A filter that no element passes returns the empty array. */
  lemma {:induction false} FilterDropsAll<T>(p: T -> bool, s: seq<T>)
    requires forall i :: 0 <= i < |s| ==> !p(s[i])
    ensures Filter(p, s) == []
  {
    if s != [] {
      FilterDropsAll(p, s[1..]);
    }
  }

  /** Filtering twice by the same predicate is filtering once. */
  lemma FilterIdempotent<T>(p: T -> bool, s: seq<T>)
    ensures Filter(p, Filter(p, s)) == Filter(p, s)
  {
  }

  /** Filtering distributes over concatenation. */
  lemma {:induction false} FilterAppend<T>(p: T -> bool, s: seq<T>, t: seq<T>)
    ensures Filter(p, s + t) == Filter(p, s) + Filter(p, t)
  {
    if s == [] {
      assert s + t == t;
    } else {
      assert (s + t)[0] == s[0];
      assert (s + t)[1..] == s[1..] + t;
      FilterAppend(p, s[1..], t);
    }
  }

  /** Two complementary filters split the input: their lengths add up to its
      length and their contents make up its multiset of elements. */
  lemma {:induction false} FilterComplement<T>(p: T -> bool, q: T -> bool, s: seq<T>)
    requires forall i :: 0 <= i < |s| ==> q(s[i]) == !p(s[i])
    ensures |Filter(p, s)| + |Filter(q, s)| == |s|
    ensures multiset(Filter(p, s)) + multiset(Filter(q, s)) == multiset(s)
  {
    if s != [] {
      FilterComplement(p, q, s[1..]);
      assert s == [s[0]] + s[1..];
    }
  }

  /** Replacing one element changes the filter's length by the difference in
      whether the old and the new element pass. */
  lemma {:induction false} FilterUpdateLength<T>(p: T -> bool, s: seq<T>, i: nat, x: T)
    requires i < |s|
    ensures |Filter(p, s[i := x])| + (if p(s[i]) then 1 else 0)
         == |Filter(p, s)| + (if p(x) then 1 else 0)
  {
    if i == 0 {
      assert s[i := x][1..] == s[1..];
    } else {
      assert s[i := x][0] == s[0];
      assert s[i := x][1..] == s[1..][i - 1 := x];
      FilterUpdateLength(p, s[1..], i - 1, x);
    }
  }

  /** `s.map(g)`: `g` applied to every element, in order. */
  function Map<A, B>(g: A -> B, s: seq<A>): (r: seq<B>)
    ensures |r| == |s|
    ensures forall k :: 0 <= k < |s| ==> r[k] == g(s[k])
  {
    if s == [] then [] else [g(s[0])] + Map(g, s[1..])
  }

  /** Mapping and then filtering by `p` is filtering by `p` after `g` and
      then mapping. */
  lemma {:induction false} FilterMap<A, B>(p: B -> bool, q: A -> bool, g: A -> B, s: seq<A>)
    requires forall x :: q(x) == p(g(x))
    ensures Filter(p, Map(g, s)) == Map(g, Filter(q, s))
  {
    if s != [] {
      FilterMap(p, q, g, s[1..]);
      assert Map(g, s)[1..] == Map(g, s[1..]);
      if q(s[0]) {
        assert Map(g, [s[0]] + Filter(q, s[1..])) == [g(s[0])] + Map(g, Filter(q, s[1..]));
      }
    }
  }

  /** Mapping distributes over concatenation. */
  lemma MapAppend<A, B>(g: A -> B, s: seq<A>, t: seq<A>)
    ensures Map(g, s + t) == Map(g, s) + Map(g, t)
  {
  }
}
