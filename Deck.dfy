/**
 * Deck construction of the memory game: the first `pairs` card images are
 * each taken twice, and the resulting list is shuffled in place by a
 * Fisher-Yates loop (GameManager.UpdateGrid and GameManager.Shuffle).
 *
 * The engine's random generator is not modelled: the indices that
 * `Random.Range(i, n)` returned are an input sequence `picks`.
 */
module Deck {

  /** The identity of a card's front sprite: two cards form a pair when these are equal. */
  type Sprite = int

  datatype Option<T> = None | Some(value: T)

  /** `picks` is what `Random.Range(i, n)` can return for i = 0, 1, ..., n - 1 (upper bound exclusive). */
  predicate IsRangeTrace(picks: seq<int>, n: nat) {
    |picks| == n && forall i :: 0 <= i < n ==> i <= picks[i] < n
  }

  /** No sprite occurs twice in `images`. */
  predicate Distinct(images: seq<Sprite>) {
    forall i, j :: 0 <= i < j < |images| ==> images[i] != images[j]
  }

  /** The unshuffled deck: image k/2 at position k, so each of the first `pairs` images twice in a row. */
  function Paired(images: seq<Sprite>, pairs: nat): (deck: seq<Sprite>)
    requires pairs <= |images|
  {
    seq(2 * pairs, k requires 0 <= k < 2 * pairs => images[k / 2])
  }

  /**
   * The selection loop of UpdateGrid: image i is appended twice for every i below `pairs`.
   * Reading `images[i]` past the end of the pool fails, which is `None` here.
   */
  method SelectImages(images: seq<Sprite>, pairs: nat) returns (r: Option<seq<Sprite>>)
    ensures r.Some? <==> pairs <= |images|
    ensures r.Some? ==> r.value == Paired(images, pairs)
  {
    var selected: seq<Sprite> := [];
    for i := 0 to pairs
      invariant i <= |images|
      invariant |selected| == 2 * i
      invariant forall k :: 0 <= k < 2 * i ==> selected[k] == images[k / 2]
    {
      if i >= |images| {
        return None;
      }
      selected := selected + [images[i]];
      selected := selected + [images[i]];
    }
    return Some(selected);
  }

  /** One step of the shuffle: the elements at `i` and `j` trade places. */
  function SwapAt(s: seq<Sprite>, i: nat, j: nat): (t: seq<Sprite>)
    requires i < |s| && j < |s|
    ensures |t| == |s|
  {
    s[i := s[j]][j := s[i]]
  }

  /** Trading two places keeps the multiset of sprites. */
  lemma SwapPermutes(s: seq<Sprite>, i: nat, j: nat)
    requires i < |s| && j < |s|
    ensures multiset(SwapAt(s, i, j)) == multiset(s)
  {
  }

  /** The list that the shuffle loop leaves behind when it resumes at index `i`. */
  function ShuffleFrom(s: seq<Sprite>, picks: seq<int>, i: nat): (shuffled: seq<Sprite>)
    requires IsRangeTrace(picks, |s|) && i <= |s|
    decreases |s| - i
  {
    if i == |s| then s else ShuffleFrom(SwapAt(s, i, picks[i]), picks, i + 1)
  }

  /** The shuffle is a permutation: it keeps the length and the multiset of sprites. */
  lemma {:induction false} ShufflePermutes(s: seq<Sprite>, picks: seq<int>, i: nat)
    requires IsRangeTrace(picks, |s|) && i <= |s|
    ensures |ShuffleFrom(s, picks, i)| == |s|
    ensures multiset(ShuffleFrom(s, picks, i)) == multiset(s)
    decreases |s| - i
  {
    if i < |s| {
      SwapPermutes(s, i, picks[i]);
      ShufflePermutes(SwapAt(s, i, picks[i]), picks, i + 1);
    }
  }

  /** The shuffle leaves the positions before `i` alone: only the rest of the list is reordered. */
  lemma {:induction false} ShuffleKeepsPrefix(s: seq<Sprite>, picks: seq<int>, i: nat)
    requires IsRangeTrace(picks, |s|) && i <= |s|
    ensures |ShuffleFrom(s, picks, i)| == |s|
    ensures ShuffleFrom(s, picks, i)[..i] == s[..i]
    decreases |s| - i
  {
    ShufflePermutes(s, picks, i);
    if i < |s| {
      var t := SwapAt(s, i, picks[i]);
      ShuffleKeepsPrefix(t, picks, i + 1);
      assert t[..i] == s[..i];
    }
  }

  /** Fisher-Yates shuffle in place: position i trades with `picks[i]`, a position at or after it. */
  method Shuffle(a: array<Sprite>, picks: seq<int>)
    requires IsRangeTrace(picks, a.Length)
    modifies a
    ensures a[..] == ShuffleFrom(old(a[..]), picks, 0)
    ensures multiset(a[..]) == multiset(old(a[..]))
  {
    for i := 0 to a.Length
      invariant ShuffleFrom(a[..], picks, i) == ShuffleFrom(old(a[..]), picks, 0)
    {
      ghost var before := a[..];
      var temp := a[i];
      var randomIndex := picks[i];
      a[i] := a[randomIndex];
      a[randomIndex] := temp;
      assert a[..] == SwapAt(before, i, randomIndex) by {
        assert a[..] == before[i := before[randomIndex]][randomIndex := before[i]];
      }
    }
    assert ShuffleFrom(a[..], picks, a.Length) == a[..];
    ShufflePermutes(old(a[..]), picks, 0);
  }

  /**
   * The deck UpdateGrid deals before placing cards: the selection loop followed by the
   * shuffle, run on a fresh list. `None` when the image pool is too short.
   */
  method DealDeck(images: seq<Sprite>, pairs: nat, picks: seq<int>) returns (r: Option<seq<Sprite>>)
    requires IsRangeTrace(picks, 2 * pairs)
    ensures r.Some? <==> pairs <= |images|
    ensures r.Some? ==> r.value == ShuffleFrom(Paired(images, pairs), picks, 0)
    ensures r.Some? ==> |r.value| == 2 * pairs
    ensures r.Some? ==> multiset(r.value) == multiset(images[..pairs]) + multiset(images[..pairs])
  {
    var selected := SelectImages(images, pairs);
    if selected.None? {
      return None;
    }
    var deck := selected.value;
    var list := new Sprite[|deck|](k requires 0 <= k < |deck| => deck[k]);
    assert list[..] == deck;
    Shuffle(list, picks);
    ShufflePermutes(deck, picks, 0);
    PairedMultiset(images, pairs);
    return Some(list[..]);
  }

  /** The unshuffled deck holds every one of the first `pairs` images twice and nothing else. */
  lemma {:induction false} PairedMultiset(images: seq<Sprite>, pairs: nat)
    requires pairs <= |images|
    ensures multiset(Paired(images, pairs)) == multiset(images[..pairs]) + multiset(images[..pairs])
  {
    if pairs == 0 {
      assert Paired(images, 0) == [];
    } else {
      var x := images[pairs - 1];
      PairedMultiset(images, pairs - 1);
      assert Paired(images, pairs) == Paired(images, pairs - 1) + [x, x];
      assert images[..pairs] == images[..pairs - 1] + [x];
    }
  }

  /** In a list without repetitions every element occurs exactly once. */
  lemma {:induction false} DistinctOnce(images: seq<Sprite>, y: Sprite)
    requires Distinct(images)
    ensures multiset(images)[y] == if y in images then 1 else 0
  {
    if images != [] {
      var rest := images[1..];
      assert images == [images[0]] + rest;
      assert Distinct(rest) by {
        forall i, j | 0 <= i < j < |rest| ensures rest[i] != rest[j] {
          assert rest[i] == images[i + 1] && rest[j] == images[j + 1];
        }
      }
      DistinctOnce(rest, y);
      if y == images[0] {
        assert y !in rest by {
          forall k | 0 <= k < |rest| ensures rest[k] != y {
            assert rest[k] == images[k + 1];
          }
        }
      }
    }
  }

  /**
   * The deck UpdateGrid deals: when the first `pairs` images are distinct, the shuffled deck has
   * 2 * pairs cards and every one of those images appears on exactly two of them, no other on any.
   */
  lemma DeckPairing(images: seq<Sprite>, pairs: nat, picks: seq<int>)
    requires pairs <= |images| && Distinct(images[..pairs])
    requires IsRangeTrace(picks, 2 * pairs)
    ensures |ShuffleFrom(Paired(images, pairs), picks, 0)| == 2 * pairs
    ensures forall y :: multiset(ShuffleFrom(Paired(images, pairs), picks, 0))[y]
                        == if y in images[..pairs] then 2 else 0
  {
    ShufflePermutes(Paired(images, pairs), picks, 0);
    PairedMultiset(images, pairs);
    forall y
      ensures multiset(ShuffleFrom(Paired(images, pairs), picks, 0))[y]
              == if y in images[..pairs] then 2 else 0
    {
      DistinctOnce(images[..pairs], y);
    }
  }
}
