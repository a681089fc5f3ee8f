/**
 * Index sorting. pandas `sort_values` and numpy `argsort` return the positions of a
 * key sequence in ascending key order; this module gives a stable insertion sort on
 * positions, proves it sorts and permutes, and supplies the reversal used for a
 * descending order.
 */
module Sorting {

  /** The positions 0, 1, ..., n-1 in order. */
  function Range(n: nat): (r: seq<nat>)
    ensures |r| == n
    ensures forall i :: 0 <= i < n ==> r[i] == i
  {
    if n == 0 then [] else Range(n - 1) + [n - 1]
  }

  /** `o` lists every position below `n` exactly once. */
  ghost predicate IsPermutation(o: seq<nat>, n: nat) {
    multiset(o) == multiset(Range(n))
  }

  /** Every entry of `o` is a position of `keys`. */
  ghost predicate InBounds(o: seq<nat>, n: nat) {
    forall i :: 0 <= i < |o| ==> o[i] < n
  }

  /** The keys read through `o` never decrease. */
  ghost predicate SortedBy(keys: seq<real>, o: seq<nat>)
    requires InBounds(o, |keys|)
  {
    forall i, j :: 0 <= i < j < |o| ==> keys[o[i]] <= keys[o[j]]
  }

  /** The keys read through `o` never increase. */
  ghost predicate SortedDescBy(keys: seq<real>, o: seq<nat>)
    requires InBounds(o, |keys|)
  {
    forall i, j :: 0 <= i < j < |o| ==> keys[o[i]] >= keys[o[j]]
  }

  ghost predicate Sorted(v: seq<real>) {
    forall i, j :: 0 <= i < j < |v| ==> v[i] <= v[j]
  }

  /** Inserts position `x` into `o`, after every position whose key is not above `x`'s. */
  function Insert(keys: seq<real>, x: nat, o: seq<nat>): (r: seq<nat>)
    requires x < |keys| && InBounds(o, |keys|)
    ensures |r| == |o| + 1 && InBounds(r, |keys|)
    ensures multiset(r) == multiset(o) + multiset{x}
  {
    if o == [] then [x]
    else if keys[x] < keys[o[0]] then [x] + o
    else
      assert o == [o[0]] + o[1..];
      [o[0]] + Insert(keys, x, o[1..])
  }

  lemma {:induction false} InsertMembers(keys: seq<real>, x: nat, o: seq<nat>)
    requires x < |keys| && InBounds(o, |keys|)
    ensures forall y :: y in Insert(keys, x, o) ==> y == x || y in o
  {
    if o != [] && keys[o[0]] <= keys[x] {
      InsertMembers(keys, x, o[1..]);
    }
  }

  /** A position whose key is not above any key of a sorted order can go in front of it. */
  lemma PrependSorted(keys: seq<real>, y: nat, rest: seq<nat>)
    requires y < |keys| && InBounds(rest, |keys|) && SortedBy(keys, rest)
    requires forall z :: z in rest ==> keys[y] <= keys[z]
    ensures SortedBy(keys, [y] + rest)
  {
    var r := [y] + rest;
    forall i, j | 0 <= i < j < |r| ensures keys[r[i]] <= keys[r[j]] {
      assert r[j] == rest[j - 1] && r[j] in rest;
      if i > 0 { assert r[i] == rest[i - 1]; }
    }
  }

  /** Every key of a sorted order is at least the key of its first position. */
  lemma HeadIsLeast(keys: seq<real>, o: seq<nat>)
    requires o != [] && InBounds(o, |keys|) && SortedBy(keys, o)
    ensures forall z :: z in o ==> keys[o[0]] <= keys[z]
  {
    forall z | z in o ensures keys[o[0]] <= keys[z] {
      var k :| 0 <= k < |o| && o[k] == z;
      if k > 0 { assert keys[o[0]] <= keys[o[k]]; }
    }
  }

  lemma {:induction false} InsertSorted(keys: seq<real>, x: nat, o: seq<nat>)
    requires x < |keys| && InBounds(o, |keys|) && SortedBy(keys, o)
    ensures SortedBy(keys, Insert(keys, x, o))
  {
    if o == [] {
    } else if keys[x] < keys[o[0]] {
      HeadIsLeast(keys, o);
      PrependSorted(keys, x, o);
    } else {
      var tail := o[1..];
      assert SortedBy(keys, tail) by {
        forall i, j | 0 <= i < j < |tail| ensures keys[tail[i]] <= keys[tail[j]] {
          assert tail[i] == o[i + 1] && tail[j] == o[j + 1];
        }
      }
      InsertSorted(keys, x, tail);
      InsertMembers(keys, x, tail);
      HeadIsLeast(keys, o);
      assert forall z :: z in tail ==> z in o;
      PrependSorted(keys, o[0], Insert(keys, x, tail));
    }
  }

  /** The positions 0 .. n-1 of `keys` sorted by key, equal keys kept in position order. */
  function SortPrefix(keys: seq<real>, n: nat): (o: seq<nat>)
    requires n <= |keys|
    ensures |o| == n && InBounds(o, |keys|)
  {
    if n == 0 then [] else Insert(keys, n - 1, SortPrefix(keys, n - 1))
  }

  lemma {:induction false} SortPrefixSorts(keys: seq<real>, n: nat)
    requires n <= |keys|
    ensures IsPermutation(SortPrefix(keys, n), n) && SortedBy(keys, SortPrefix(keys, n))
  {
    if n > 0 {
      SortPrefixSorts(keys, n - 1);
      assert Range(n) == Range(n - 1) + [n - 1];
      InsertSorted(keys, n - 1, SortPrefix(keys, n - 1));
    }
  }

  /** The ascending order of all positions of `keys`. */
  function SortOrder(keys: seq<real>): (o: seq<nat>)
    ensures |o| == |keys| && InBounds(o, |keys|)
  {
    SortPrefix(keys, |keys|)
  }

  /** The sort order lists every position once, in ascending key order. */
  lemma SortOrderSorts(keys: seq<real>)
    ensures IsPermutation(SortOrder(keys), |keys|) && SortedBy(keys, SortOrder(keys))
  {
    SortPrefixSorts(keys, |keys|);
  }

  /** The values of `keys` in ascending order: a sorted rearrangement of `keys`. */
  function SortedValues(keys: seq<real>): (v: seq<real>)
    ensures |v| == |keys| && Sorted(v)
    ensures multiset(v) == multiset(keys)
    ensures forall i :: 0 <= i < |v| ==> exists r :: 0 <= r < |keys| && v[i] == keys[r]
  {
    var o := SortOrder(keys);
    SortOrderSorts(keys);
    var v := Gather(keys, o);
    assert multiset(v) == multiset(keys) by {
      GatherSortPrefix(keys, |keys|);
      assert keys[..|keys|] == keys;
    }
    assert forall i :: 0 <= i < |v| ==> v[i] == keys[o[i]] && o[i] < |keys|;
    v
  }

  /** Reading the keys through an insertion adds exactly the inserted key. */
  lemma {:induction false} GatherInsert(keys: seq<real>, x: nat, o: seq<nat>)
    requires x < |keys| && InBounds(o, |keys|)
    ensures multiset(Gather(keys, Insert(keys, x, o))) == multiset(Gather(keys, o)) + multiset{keys[x]}
  {
    if o == [] {
      assert Gather(keys, [x]) == [keys[x]];
    } else if keys[x] < keys[o[0]] {
      GatherConcat(keys, [x], o);
      assert Gather(keys, [x]) == [keys[x]];
    } else {
      var rest := Insert(keys, x, o[1..]);
      assert Insert(keys, x, o) == [o[0]] + rest;
      GatherInsert(keys, x, o[1..]);
      GatherConcat(keys, [o[0]], rest);
      GatherConcat(keys, [o[0]], o[1..]);
      assert o == [o[0]] + o[1..];
    }
  }

  lemma GatherConcat(keys: seq<real>, a: seq<nat>, b: seq<nat>)
    requires InBounds(a, |keys|) && InBounds(b, |keys|)
    ensures InBounds(a + b, |keys|) && Gather(keys, a + b) == Gather(keys, a) + Gather(keys, b)
  {
  }

  /** Reading the keys through the sorted first n positions gives the first n keys, rearranged. */
  lemma {:induction false} GatherSortPrefix(keys: seq<real>, n: nat)
    requires n <= |keys|
    ensures multiset(Gather(keys, SortPrefix(keys, n))) == multiset(keys[..n])
  {
    if n > 0 {
      var o := SortPrefix(keys, n - 1);
      GatherSortPrefix(keys, n - 1);
      GatherNextPrefix(keys, n, o);
    }
  }

  /** One insertion step of `GatherSortPrefix`: inserting position n-1 extends the prefix by keys[n-1]. */
  lemma GatherNextPrefix(keys: seq<real>, n: nat, o: seq<nat>)
    requires 0 < n <= |keys| && InBounds(o, |keys|)
    requires multiset(Gather(keys, o)) == multiset(keys[..n - 1])
    ensures multiset(Gather(keys, Insert(keys, n - 1, o))) == multiset(keys[..n])
  {
    GatherInsert(keys, n - 1, o);
    assert keys[..n] == keys[..n - 1] + [keys[n - 1]];
  }

  function Reverse<T>(s: seq<T>): (r: seq<T>)
    ensures |r| == |s|
    ensures forall i :: 0 <= i < |s| ==> r[i] == s[|s| - 1 - i]
  {
    if s == [] then [] else Reverse(s[1..]) + [s[0]]
  }

  lemma {:induction false} ReverseMultiset<T>(s: seq<T>)
    ensures multiset(Reverse(s)) == multiset(s)
  {
    if s != [] {
      ReverseMultiset(s[1..]);
      assert s == [s[0]] + s[1..];
    }
  }

  /** Reading a sorted order backwards gives a descending order. */
  lemma ReverseSortedIsDescending(keys: seq<real>, o: seq<nat>)
    requires InBounds(o, |keys|) && SortedBy(keys, o)
    ensures InBounds(Reverse(o), |keys|) && SortedDescBy(keys, Reverse(o))
  {
    var r := Reverse(o);
    forall i, j | 0 <= i < j < |r| ensures keys[r[i]] >= keys[r[j]] {
      assert r[i] == o[|o| - 1 - i] && r[j] == o[|o| - 1 - j];
    }
  }

  lemma {:induction false} RangeCount(n: nat, v: nat)
    ensures multiset(Range(n))[v] == if v < n then 1 else 0
  {
    if n > 0 {
      RangeCount(n - 1, v);
      var r, last: nat := Range(n - 1), n - 1;
      assert Range(n) == r + [last];
      assert multiset(r + [last]) == multiset(r) + multiset{last};
      assert multiset{last}[v] == if v == last then 1 else 0;
    }
  }

  /** A permutation of positions has every position below `n` and no position twice. */
  lemma PermutationFacts(o: seq<nat>, n: nat)
    requires IsPermutation(o, n)
    ensures |o| == n
    ensures forall v: nat :: v < n <==> v in o
    ensures forall i, j :: 0 <= i < j < |o| ==> o[i] != o[j]
    ensures forall v: nat :: multiset(o)[v] <= 1
  {
    assert |o| == |multiset(o)| == |multiset(Range(n))| == n;
    forall v: nat ensures v < n <==> v in o {
      RangeCount(n, v);
    }
    forall v: nat ensures multiset(o)[v] <= 1 {
      RangeCount(n, v);
    }
    forall i, j | 0 <= i < j < |o| ensures o[i] != o[j] {
      TwoOccurrences(o, i, j);
    }
  }

  lemma TwoOccurrences<T>(s: seq<T>, i: nat, j: nat)
    requires i < j < |s|
    ensures multiset(s)[s[i]] >= 1 + (if s[i] == s[j] then 1 else 0)
  {
    assert s == s[..i] + [s[i]] + s[i + 1..j] + [s[j]] + s[j + 1..];
  }

  /** Two sequences that agree at every position an order lists, and the order lists every position, are equal. */
  lemma AgreeThroughPermutation<T>(o: seq<nat>, a: seq<T>, b: seq<T>)
    requires |a| == |b| && InBounds(o, |a|)
    requires forall r :: 0 <= r < |a| ==> r in o
    requires forall i :: 0 <= i < |o| ==> a[o[i]] == b[o[i]]
    ensures a == b
  {
    forall r | 0 <= r < |a| ensures a[r] == b[r] {
      var i := IndexOf(o, r);
    }
  }

  /** The place of the first `x` in `o`. */
  function IndexOf<T(==)>(o: seq<T>, x: T): (k: nat)
    requires x in o
    ensures k < |o| && o[k] == x
  {
    if o[0] == x then 0 else 1 + IndexOf(o[1..], x)
  }

  /** Sorting an already ascending sequence leaves every position where it is. */
  lemma {:induction false} SortPrefixOfSorted(keys: seq<real>, n: nat)
    requires n <= |keys| && Sorted(keys)
    ensures SortPrefix(keys, n) == Range(n)
  {
    if n > 0 {
      SortPrefixOfSorted(keys, n - 1);
      InsertAtEnd(keys, n - 1, Range(n - 1));
    }
  }

  lemma {:induction false} InsertAtEnd(keys: seq<real>, x: nat, o: seq<nat>)
    requires x < |keys| && InBounds(o, |keys|)
    requires forall i :: 0 <= i < |o| ==> keys[o[i]] <= keys[x]
    ensures Insert(keys, x, o) == o + [x]
  {
    if o != [] {
      InsertAtEnd(keys, x, o[1..]);
    }
  }

  /** The entries of `s` at the positions `o`, in that order. */
  function Gather<T>(s: seq<T>, o: seq<nat>): (r: seq<T>)
    requires InBounds(o, |s|)
    ensures |r| == |o| && forall k :: 0 <= k < |o| ==> r[k] == s[o[k]]
  {
    seq(|o|, k requires 0 <= k < |o| => s[o[k]])
  }

  /** Gathering through a permutation loses no entry and invents none. */
  lemma GatherPermutation<T>(s: seq<T>, o: seq<nat>)
    requires InBounds(o, |s|) && IsPermutation(o, |s|)
    ensures forall x :: x in Gather(s, o) <==> x in s
  {
    PermutationFacts(o, |s|);
    forall x | x in s ensures x in Gather(s, o) {
      var c :| 0 <= c < |s| && s[c] == x;
      assert Gather(s, o)[IndexOf(o, c)] == x;
    }
  }
}
