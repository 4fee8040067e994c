/** Random draws and the Fisher-Yates shuffle (lib/random.ts).

    The random source is a stream `rand: nat -> Word` of 32-bit words; the draw made
    at loop index i is `rand(i)` reduced modulo i + 1, as on the crypto path of
    getSecureRandomNumber. Every property below holds for every stream, and every
    value in [0, max) is reachable by some word (EveryDrawReachable), so "for every
    stream" covers every sequence of draws the implementation can make. */
module Random {
  import opened Sequences

  /** One entry of a Uint32Array filled by crypto.getRandomValues. */
  type Word = w: int | 0 <= w < 0x1_0000_0000

  /** getSecureRandomNumber(max): a random word reduced modulo max. */
  function SecureRandomNumber(word: Word, max: nat): (r: nat)
    requires 0 < max
    ensures r < max
  {
    word % max
  }

  /** The abstraction loses no draw: each value in [0, max) comes from some word. */
  lemma EveryDrawReachable(max: nat, j: nat)
    requires j < max <= 0x1_0000_0000
    ensures exists w: Word :: SecureRandomNumber(w, max) == j
  {
    var w: Word := j;
    assert j / max == 0;
    assert SecureRandomNumber(w, max) == j;
  }

  /** `[s[i], s[j]] = [s[j], s[i]]`. */
  function Swap<T>(s: seq<T>, i: nat, j: nat): (r: seq<T>)
    requires i < |s| && j < |s|
    ensures |r| == |s| && r[i] == s[j] && r[j] == s[i]
    ensures forall k :: 0 <= k < |s| && k != i && k != j ==> r[k] == s[k]
  {
    s[i := s[j]][j := s[i]]
  }

  /** Iterations i, i - 1, ..., 1 of the shuffle loop, applied to s; each is a swap of
      position i with a drawn position in [0, i]. */
  function ShuffleFrom<T>(s: seq<T>, i: nat, rand: nat -> Word): (r: seq<T>)
    requires i < |s| || i == 0
    ensures |r| == |s|
    decreases i
  {
    if i == 0 then s
    else ShuffleFrom(Swap(s, i, SecureRandomNumber(rand(i), i + 1)), i - 1, rand)
  }

  /** One iteration of the loop: position i is swapped with the position drawn for it. */
  lemma ShuffleStep<T>(s: seq<T>, i: nat, rand: nat -> Word)
    requires 0 < i < |s|
    ensures ShuffleFrom(s, i, rand) == ShuffleFrom(Swap(s, i, SecureRandomNumber(rand(i), i + 1)), i - 1, rand)
  {
  }

  /** Each iteration swaps two elements, so the iterations permute s. */
  lemma {:induction false} ShuffleFromPermutation<T>(s: seq<T>, i: nat, rand: nat -> Word)
    requires i < |s| || i == 0
    ensures multiset(ShuffleFrom(s, i, rand)) == multiset(s)
    decreases i
  {
    if i > 0 {
      var j := SecureRandomNumber(rand(i), i + 1);
      var swapped := Swap(s, i, j);
      assert swapped == s[i := s[j]][j := s[i]];
      assert multiset(swapped) == multiset(s);
      ShuffleFromPermutation(swapped, i - 1, rand);
    }
  }

  /** shuffleArray(s) as a value: the whole loop, starting at the last index. The result
      is a permutation of s, and a sequence of length 0 or 1 comes back unchanged
      because the loop body runs only while i > 0. */
  function Shuffle<T>(s: seq<T>, rand: nat -> Word): (r: seq<T>)
    ensures |r| == |s|
    ensures multiset(r) == multiset(s)
    ensures |s| <= 1 ==> r == s
  {
    ShuffleFromPermutation(s, if |s| == 0 then 0 else |s| - 1, rand);
    ShuffleFrom(s, if |s| == 0 then 0 else |s| - 1, rand)
  }

  /** shuffleArray: copies the input into a fresh array and runs the descending swap
      loop on the copy. The input array is not in any frame, so it is left as it was. */
  method ShuffleArray<T>(input: array<T>, rand: nat -> Word) returns (shuffled: array<T>)
    ensures fresh(shuffled)
    ensures shuffled[..] == Shuffle(input[..], rand)
    ensures multiset(shuffled[..]) == multiset(input[..])
  {
    shuffled := CopyArray(input);
    SwapLoop(shuffled, rand);
  }

  /** `[...array]`: a fresh array with the same contents. */
  method CopyArray<T>(input: array<T>) returns (copy: array<T>)
    ensures fresh(copy)
    ensures copy[..] == input[..]
  {
    copy := new T[input.Length](k requires 0 <= k < input.Length reads input => input[k]);
    assert copy[..] == input[..] by {
      forall k | 0 <= k < input.Length ensures copy[k] == input[k] { }
    }
  }

  /** The loop of shuffleArray, run in place on a: for i from the last index down to 1,
      swap a[i] with a[j] for the drawn j in [0, i]. */
  method SwapLoop<T>(a: array<T>, rand: nat -> Word)
    modifies a
    ensures a[..] == Shuffle(old(a[..]), rand)
  {
    ghost var goal := Shuffle(a[..], rand);
    var i := a.Length - 1;
    while i > 0
      invariant -1 <= i < a.Length
      invariant i < 0 ==> a.Length == 0 && a[..] == goal
      invariant 0 <= i ==> ShuffleFrom(a[..], i, rand) == goal
    {
      var j := SecureRandomNumber(rand(i), i + 1);
      ghost var before := a[..];
      ShuffleStep(before, i, rand);
      a[i], a[j] := a[j], a[i];
      assert a[..] == before[i := before[j]][j := before[i]];
      i := i - 1;
    }
  }

  /** Swapping two positions keeps a sequence free of repetitions. */
  lemma SwapDistinct<T>(s: seq<T>, i: nat, j: nat)
    requires i < |s| && j < |s|
    requires Distinct(s)
    ensures Distinct(Swap(s, i, j))
  {
    var r := Swap(s, i, j);
    forall p, q | 0 <= p < q < |r| ensures r[p] != r[q] {
      var p' := if p == i then j else if p == j then i else p;
      var q' := if q == i then j else if q == j then i else q;
      assert r[p] == s[p'] && r[q] == s[q'] && p' != q';
    }
  }

  /** A shuffle of a sequence without repetitions has none either. */
  lemma {:induction false} ShuffleFromDistinct<T>(s: seq<T>, i: nat, rand: nat -> Word)
    requires i < |s| || i == 0
    requires Distinct(s)
    ensures Distinct(ShuffleFrom(s, i, rand))
    decreases i
  {
    if i > 0 {
      var j := SecureRandomNumber(rand(i), i + 1);
      var swapped := Swap(s, i, j);
      SwapDistinct(s, i, j);
      ShuffleFromDistinct(swapped, i - 1, rand);
      assert ShuffleFrom(s, i, rand) == ShuffleFrom(swapped, i - 1, rand);
    }
  }

  lemma ShuffleDistinct<T>(s: seq<T>, rand: nat -> Word)
    requires Distinct(s)
    ensures Distinct(Shuffle(s, rand))
  {
    ShuffleFromDistinct(s, if |s| == 0 then 0 else |s| - 1, rand);
  }

  /** `Array.from({ length: n }, (_, i) => i + 1)`: the 1-based positions 1..n. */
  function Positions(n: nat): seq<nat> {
    seq(n, i requires 0 <= i < n => i + 1)
  }

  /** generateImposterIndices(playerCount, imposterCount): the first imposterCount
      entries of a shuffle of 1..playerCount. They are pairwise different positions,
      and there are min(imposterCount, playerCount) of them for a non-negative count. */
  function ImposterIndices(playerCount: nat, imposterCount: int, rand: nat -> Word): (r: seq<nat>)
    ensures |r| == SliceEnd(playerCount, imposterCount)
    ensures 0 <= imposterCount ==> |r| == if imposterCount < playerCount then imposterCount else playerCount
    ensures Distinct(r)
    ensures forall x :: x in r ==> 1 <= x <= playerCount
  {
    var positions := Positions(playerCount);
    var shuffled := Shuffle(positions, rand);
    var r := shuffled[..SliceEnd(playerCount, imposterCount)];
    ShuffleDistinct(positions, rand);
    assert Distinct(r) by {
      forall p, q | 0 <= p < q < |r| ensures r[p] != r[q] {
        assert r[p] == shuffled[p] && r[q] == shuffled[q];
      }
    }
    assert forall x :: x in r ==> 1 <= x <= playerCount by {
      forall x | x in r ensures 1 <= x <= playerCount {
        assert x in multiset(shuffled);
        assert x in positions;
      }
    }
    r
  }
}
