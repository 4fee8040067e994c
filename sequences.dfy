/** The few JavaScript array operations the room server relies on, as functions on
    sequences: projecting records to keys (`map`), dropping the records with one key
    (`filter`), collecting a sequence into a `Set`, and the length `slice(0, end)` keeps. */
module Sequences {

  /** No element occurs twice. */
  predicate Distinct<T(==)>(s: seq<T>) {
    forall i, j :: 0 <= i < j < |s| ==> s[i] != s[j]
  }

  /** `new Set(s)`: the elements of s. */
  function SetOf<T(==)>(s: seq<T>): set<T> {
    set x | x in s
  }

  /** A sequence without repetitions loses nothing when collected into a set. */
  lemma {:induction false} DistinctSetSize<T>(s: seq<T>)
    requires Distinct(s)
    ensures |SetOf(s)| == |s|
  {
    if s != [] {
      DistinctTail(s);
      DistinctSetSize(s[1..]);
      SetOfCons(s);
    }
  }

  /** Dropping the first element keeps a sequence free of repetitions. */
  lemma DistinctTail<T>(s: seq<T>)
    requires Distinct(s) && s != []
    ensures Distinct(s[1..])
  {
    var rest := s[1..];
    forall i, j | 0 <= i < j < |rest| ensures rest[i] != rest[j] {
      assert rest[i] == s[i + 1] && rest[j] == s[j + 1];
    }
  }

  /** The set of a repetition-free non-empty sequence: the head, not among the
      elements of the tail, joined to them. */
  lemma SetOfCons<T>(s: seq<T>)
    requires Distinct(s) && s != []
    ensures SetOf(s) == {s[0]} + SetOf(s[1..])
    ensures s[0] !in SetOf(s[1..])
  {
    var rest := s[1..];
    forall k | 0 <= k < |rest| ensures rest[k] != s[0] {
      assert rest[k] == s[k + 1];
    }
    assert s == [s[0]] + rest;
  }

  /** Length of `a.slice(0, end)` for an array `a` of length len: a negative end
      counts back from the end of the array, and an end past the array stops at len. */
  function SliceEnd(len: nat, end: int): (m: nat)
    ensures m <= len
  {
    if end < 0 then (if len + end < 0 then 0 else len + end)
    else if end < len then end
    else len
  }

  /** `s.map(key)`. */
  function Keys<T, K>(s: seq<T>, key: T -> K): (r: seq<K>)
    ensures |r| == |s|
    ensures forall i :: 0 <= i < |s| ==> r[i] == key(s[i])
  {
    seq(|s|, i requires 0 <= i < |s| => key(s[i]))
  }

  /** The keys of a non-empty sequence: the head's key, then the keys of the tail. */
  lemma KeysCons<T, K>(s: seq<T>, key: T -> K)
    requires s != []
    ensures Keys(s, key) == [key(s[0])] + Keys(s[1..], key)
  {
  }

  /** `s.filter(x => key(x) !== k)`: keeps, in order, the elements whose key is not k. */
  function Filter<T(==,!new), K(==)>(s: seq<T>, key: T -> K, k: K): (r: seq<T>)
    ensures |r| <= |s|
    ensures forall x :: x in r <==> x in s && key(x) != k
  {
    if s == [] then []
    else
      assert s == [s[0]] + s[1..];
      if key(s[0]) == k then Filter(s[1..], key, k)
      else [s[0]] + Filter(s[1..], key, k)
  }

  /** One step of the filter: the head is kept exactly when its key is not k. */
  lemma FilterCons<T(!new), K>(s: seq<T>, key: T -> K, k: K)
    requires s != []
    ensures Filter(s, key, k) == if key(s[0]) == k then Filter(s[1..], key, k) else [s[0]] + Filter(s[1..], key, k)
  {
  }

  /** The keys left after filtering are exactly the other keys. */
  lemma {:induction false} FilterKeys<T(!new), K>(s: seq<T>, key: T -> K, k: K)
    ensures forall x :: x in Keys(Filter(s, key, k), key) <==> x in Keys(s, key) && x != k
  {
    var r := Filter(s, key, k);
    forall x ensures x in Keys(r, key) <==> x in Keys(s, key) && x != k {
      if x in Keys(r, key) {
        var i :| 0 <= i < |r| && Keys(r, key)[i] == x;
        assert r[i] in s;
        var j :| 0 <= j < |s| && s[j] == r[i];
        assert Keys(s, key)[j] == x;
      }
      if x in Keys(s, key) && x != k {
        var j :| 0 <= j < |s| && Keys(s, key)[j] == x;
        assert s[j] in r;
        var i :| 0 <= i < |r| && r[i] == s[j];
        assert Keys(r, key)[i] == x;
      }
    }
  }

  /** Filtering keeps the keys pairwise different. */
  lemma {:induction false} FilterDistinct<T(!new), K>(s: seq<T>, key: T -> K, k: K)
    requires Distinct(Keys(s, key))
    ensures Distinct(Keys(Filter(s, key, k), key))
  {
    if s != [] {
      var rest := s[1..];
      KeysCons(s, key);
      DistinctTail(Keys(s, key));
      FilterDistinct(rest, key, k);
      var fr := Filter(rest, key, k);
      if key(s[0]) != k {
        assert Filter(s, key, k) == [s[0]] + fr;
        KeysCons([s[0]] + fr, key);
        assert ([s[0]] + fr)[1..] == fr;
        FilterKeys(rest, key, k);
        SetOfCons(Keys(s, key));
        DistinctCons(key(s[0]), Keys(fr, key));
      }
    }
  }

  lemma DistinctCons<T>(x: T, t: seq<T>)
    requires Distinct(t)
    requires x !in t
    ensures Distinct([x] + t)
  {
    var r := [x] + t;
    forall i, j | 0 <= i < j < |r| ensures r[i] != r[j] {
      assert r[j] == t[j - 1];
      if i > 0 {
        assert r[i] == t[i - 1];
      }
    }
  }

  /** With keys pairwise different, filtering out a present key drops exactly one element. */
  lemma {:induction false} FilterDropsOne<T(!new), K>(s: seq<T>, key: T -> K, k: K)
    requires Distinct(Keys(s, key))
    requires k in Keys(s, key)
    ensures |Filter(s, key, k)| == |s| - 1
  {
    var rest := s[1..];
    assert Keys(rest, key) == Keys(s, key)[1..];
    if key(s[0]) == k {
      assert k !in Keys(rest, key) by {
        forall j | 0 <= j < |rest| ensures Keys(rest, key)[j] != k {
          assert Keys(rest, key)[j] == Keys(s, key)[j + 1] && Keys(s, key)[0] == k;
        }
      }
      FilterAbsent(rest, key, k);
    } else {
      assert k in Keys(rest, key) by {
        var j :| 0 <= j < |s| && Keys(s, key)[j] == k;
        assert j != 0;
        assert Keys(rest, key)[j - 1] == k;
      }
      FilterDropsOne(rest, key, k);
    }
  }

  /** With keys pairwise different, filtering out the key of position p removes exactly
      that position and keeps every other element in its order. */
  lemma {:induction false} FilterAt<T(!new), K>(s: seq<T>, key: T -> K, k: K, p: nat)
    requires Distinct(Keys(s, key))
    requires p < |s| && key(s[p]) == k
    ensures Filter(s, key, k) == s[..p] + s[p + 1..]
  {
    if p == 0 {
      FilterAtHead(s, key, k);
      assert s[..0] + s[1..] == s[1..];
    } else {
      FilterAtLater(s, key, k, p);
      FilterAt(s[1..], key, k, p - 1);
      RemoveAtCons(s, p);
    }
  }

  /** Removing position p > 0 keeps the head in front of the tail with position p - 1 removed. */
  lemma RemoveAtCons<T>(s: seq<T>, p: nat)
    requires 0 < p < |s|
    ensures s[..p] + s[p + 1..] == [s[0]] + (s[1..][..p - 1] + s[1..][p..])
  {
    var rest := s[1..];
    assert s[..p] == [s[0]] + rest[..p - 1];
    assert s[p + 1..] == rest[p..];
  }

  lemma FilterAtHead<T(!new), K>(s: seq<T>, key: T -> K, k: K)
    requires Distinct(Keys(s, key))
    requires s != [] && key(s[0]) == k
    ensures Filter(s, key, k) == s[1..]
  {
    FilterCons(s, key, k);
    KeysCons(s, key);
    SetOfCons(Keys(s, key));
    FilterAbsent(s[1..], key, k);
  }

  lemma FilterAtLater<T(!new), K>(s: seq<T>, key: T -> K, k: K, p: nat)
    requires Distinct(Keys(s, key))
    requires 0 < p < |s| && key(s[p]) == k
    ensures Filter(s, key, k) == [s[0]] + Filter(s[1..], key, k)
    ensures Distinct(Keys(s[1..], key)) && s[1..][p - 1] == s[p]
  {
    assert Keys(s, key)[0] != Keys(s, key)[p];
    FilterCons(s, key, k);
    KeysCons(s, key);
    DistinctTail(Keys(s, key));
  }

  /** Filtering out a key that no element has changes nothing. */
  lemma {:induction false} FilterAbsent<T(!new), K>(s: seq<T>, key: T -> K, k: K)
    requires k !in Keys(s, key)
    ensures Filter(s, key, k) == s
  {
    if s != [] {
      var rest := s[1..];
      assert Keys(s, key)[0] == key(s[0]);
      assert Keys(rest, key) == Keys(s, key)[1..];
      FilterAbsent(rest, key, k);
      assert s == [s[0]] + rest;
    }
  }
}
