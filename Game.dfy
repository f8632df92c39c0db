/**
 * The session state machine of the memory game: the cards (Card.cs) and the
 * manager that deals them, queues the player's picks, resolves pairs and
 * counts down the timer (GameManager.cs).
 *
 * Card and GameManager refer to each other (a card calls back into its
 * manager), so both classes live in this one module.
 *
 * Engine effects are reduced to the state they stand for: sprite swaps on
 * screen are the `isFlipped` flag, the two end screens are `showsWin` and
 * `showsLoss`. Coroutines become explicit steps: BeginCheck runs when the
 * match check is started, ResolveCheck stands for the moment after its
 * delay, and Tick/Expire are one round of the countdown loop and the check
 * after it.
 */
module Game {
  import opened Deck

  /** How UpdateGrid ends: with a full grid, or at one of the two list reads that can go out of range. */
  datatype GridOutcome =
    | Built
    | MissingCardImage      // `cardImages[i]` read past the end of the image pool
    | MissingSelectedImage  // `selectedImages[i]` read past the end of the dealt deck

  class Card {
    /** `frontSprite`: set once when the card is initialised, never reassigned. */
    const face: Sprite
    /** The manager this card reports clicks to and scores into. */
    const manager: GameManager
    var isFlipped: bool
    var isMatched: bool

    /** Instantiation followed by `Initialize(frontImage, manager)`. */
    constructor (frontImage: Sprite, gameManager: GameManager)
      ensures face == frontImage && manager == gameManager
      ensures GetCardImage() == frontImage
      ensures !isFlipped && !isMatched
    {
      face := frontImage;
      manager := gameManager;
      isFlipped := false;
      isMatched := false;
    }

    /** The card's front sprite, the one it was initialised with. */
    function GetCardImage(): (front: Sprite)
      ensures front == face
    {
      face
    }

    /** Turns the card face up or down, unless it is already matched. */
    method FlipCard(showFront: bool)
      modifies this
      ensures isMatched == old(isMatched)
      ensures isFlipped == if old(isMatched) then old(isFlipped) else showFront
    {
      if isMatched {
        return;
      }
      isFlipped := showFront;
    }

    /**
     * A click is ignored on a face-up card and while the manager is checking a pair;
     * otherwise the card turns face up and is queued with the manager.
     */
    method OnCardClicked()
      requires manager.Valid() && this in manager.cards
      modifies this, manager`firstSelectedCard, manager`secondSelectedCard, manager`isCheckingMatch
      ensures manager.Valid()
      ensures isMatched == old(isMatched)
      ensures old(isFlipped || manager.isCheckingMatch) ==> unchanged(this, manager)
      ensures old(isMatched) ==> unchanged(this, manager)
      ensures !old(isFlipped || manager.isCheckingMatch) ==>
        && isFlipped
        && (if old(|manager.firstSelectedCard| == |manager.secondSelectedCard|)
            then manager.firstSelectedCard == old(manager.firstSelectedCard) + [this]
                 && manager.secondSelectedCard == old(manager.secondSelectedCard)
            else manager.secondSelectedCard == old(manager.secondSelectedCard) + [this]
                 && manager.firstSelectedCard == old(manager.firstSelectedCard))
        && (manager.isCheckingMatch <==> |manager.secondSelectedCard| == 1)
    {
      if isFlipped || manager.IsCheckingMatch() {
        return;
      }
      FlipCard(true);
      manager.OnCardSelected(this);
    }

    /** Marks the card matched for good and adds 5 to the manager's score. */
    method SetMatched()
      modifies this, manager`score
      ensures isMatched && isFlipped == old(isFlipped)
      ensures manager.score == old(manager.score) + 5
    {
      isMatched := true;
      FlipCard(true);
      manager.score := manager.score + 5;
    }

    /** Turns the card face down, even if it is matched. */
    method Unmatch()
      modifies this
      ensures !isFlipped && isMatched == old(isMatched)
    {
      isFlipped := false;
      FlipCard(false);
    }
  }

  class GameManager {
    var timerLimit: int
    var isGameFinished: bool
    var score: int
    var columns: nat
    var rows: nat
    var cards: seq<Card>
    var firstSelectedCard: seq<Card>
    var secondSelectedCard: seq<Card>
    var isCheckingMatch: bool
    var totalMatches: nat
    var currentMatches: nat
    var selectedImages: seq<Sprite>
    /** The end screen's win panel (child 0) is active. */
    var showsWin: bool
    /** The end screen's time-out panel (child 1) is active. */
    var showsLoss: bool

    /** The cards of the grid that have been matched so far. */
    ghost var matchedCards: set<Card>

    /**
     * Every card belongs to this manager, a matched card is face up, and `matchedCards` holds
     * exactly the matched cards of the grid.
     */
    ghost predicate CardsValid()
      reads this`cards, this`matchedCards, cards
    {
      && (forall c | c in cards ::
            && c.manager == this
            && (c.isMatched ==> c.isFlipped)
            && (c.isMatched <==> c in matchedCards))
      && (forall c | c in matchedCards :: c in cards)
    }

    /** The grid and the counters: matches, score and the won state agree with the matched cards. */
    ghost predicate Progress()
      reads this`cards, this`matchedCards, this`totalMatches, this`currentMatches, this`score
      reads this`isGameFinished, this`showsWin, cards
    {
      && CardsValid()
      && |cards| == 2 * totalMatches
      && |matchedCards| == 2 * currentMatches
      && currentMatches <= totalMatches
      && score == 10 * currentMatches
      && (isGameFinished <==> 0 < currentMatches == totalMatches)
      && showsWin == isGameFinished
    }

    /**
     * The two pick lists differ in length by at most one and neither ever holds a second card;
     * the check runs exactly when both hold one; a queued card is a face-up unmatched grid card.
     */
    ghost predicate Queues()
      reads this`cards, this`firstSelectedCard, this`secondSelectedCard, this`isCheckingMatch, cards
    {
      && |secondSelectedCard| <= |firstSelectedCard| <= |secondSelectedCard| + 1
      && |firstSelectedCard| <= 1
      && (isCheckingMatch <==> |secondSelectedCard| == 1)
      && (|firstSelectedCard| == 1 ==> firstSelectedCard[0] in cards && Waiting(firstSelectedCard[0]))
      && (|secondSelectedCard| == 1 ==> secondSelectedCard[0] in cards && Waiting(secondSelectedCard[0]))
      && (|secondSelectedCard| == 1 ==> firstSelectedCard[0] != secondSelectedCard[0])
    }

    /** The session invariant every operation after dealing keeps. */
    ghost predicate Valid()
      reads this, cards
    {
      Progress() && Queues()
    }

    /** A picked card waiting in a queue: a card of this grid, face up and not yet matched. */
    ghost predicate Waiting(c: Card)
      reads this`cards, c
    {
      c in cards && c.isFlipped && !c.isMatched
    }

    /** The state of a freshly loaded scene, before the grid is dealt. */
    ghost predicate Unstarted()
      reads this
    {
      && currentMatches == 0 && score == 0
      && firstSelectedCard == [] && secondSelectedCard == []
      && !isCheckingMatch && !isGameFinished && !showsWin
    }

    /**
     * Scene load: the inspector's `timerLimit` and the fields' initial values. The serialized
     * pick lists, declared `null`, start empty as the engine's serializer creates them; the
     * serialized counters and grid size are taken to keep their declared defaults of 0.
     */
    constructor (timerLimit: int)
      ensures Valid() && Unstarted()
      ensures this.timerLimit == timerLimit && cards == [] && !showsLoss
    {
      this.timerLimit := timerLimit;
      isGameFinished := false;
      score := 0;
      columns, rows := 0, 0;
      cards := [];
      firstSelectedCard, secondSelectedCard := [], [];
      isCheckingMatch := false;
      totalMatches, currentMatches := 0, 0;
      selectedImages := [];
      showsWin, showsLoss := false, false;
      matchedCards := {};
    }

    /**
     * Deals a `cols` by `rws` grid: each of the first `cols * rws / 2` images twice, shuffled with
     * the positions `picks` that the random generator chose, one fresh face-down card per entry.
     */
    method UpdateGrid(cols: nat, rws: nat, cardImages: seq<Sprite>, picks: seq<int>)
      returns (outcome: GridOutcome)
      requires IsRangeTrace(picks, 2 * (cols * rws / 2))
      modifies this
      ensures columns == cols && rows == rws && totalMatches == cols * rws / 2
      ensures currentMatches == old(currentMatches) && score == old(score)
      ensures firstSelectedCard == old(firstSelectedCard) && secondSelectedCard == old(secondSelectedCard)
      ensures isCheckingMatch == old(isCheckingMatch) && isGameFinished == old(isGameFinished)
      ensures showsWin == old(showsWin) && showsLoss == old(showsLoss) && timerLimit == old(timerLimit)
      ensures outcome == if |cardImages| < cols * rws / 2 then MissingCardImage
                         else if (cols * rws) % 2 == 1 then MissingSelectedImage
                         else Built
      ensures outcome == MissingCardImage ==>
        cards == [] && selectedImages == Paired(cardImages, |cardImages|)
      ensures outcome != MissingCardImage ==>
        && selectedImages == ShuffleFrom(Paired(cardImages, cols * rws / 2), picks, 0)
        && |selectedImages| == 2 * (cols * rws / 2)
        && multiset(selectedImages)
           == multiset(cardImages[..cols * rws / 2]) + multiset(cardImages[..cols * rws / 2])
        && |cards| == (if outcome == Built then cols * rws else cols * rws - 1)
        && (forall k :: 0 <= k < |cards| ==>
             && fresh(cards[k]) && cards[k].manager == this
             && cards[k].face == selectedImages[k]
             && !cards[k].isFlipped && !cards[k].isMatched)
        && (forall j, k :: 0 <= j < k < |cards| ==> cards[j] != cards[k])
      ensures outcome == Built && old(Unstarted()) ==> Valid()
    {
      cards := [];
      columns, rows := cols, rws;
      var totalCards := cols * rws;
      totalMatches := totalCards / 2;
      var deck := DealDeck(cardImages, totalCards / 2, picks);
      if deck.None? {
        // the selection loop has appended every image of the pool twice before its read fails
        selectedImages := Paired(cardImages, |cardImages|);
        return MissingCardImage;
      }
      selectedImages := deck.value;
      cards := Instantiate(selectedImages, totalCards);
      matchedCards := {};
      if |cards| < totalCards {
        return MissingSelectedImage;
      }
      return Built;
    }

    /**
     * The instantiation loop of UpdateGrid: card i shows `selectedImages[i]`, for i below
     * `totalCards`; reading past the end of the deck stops the loop with the cards made so far.
     */
    method Instantiate(selectedImages: seq<Sprite>, totalCards: nat) returns (dealt: seq<Card>)
      ensures |dealt| == if totalCards <= |selectedImages| then totalCards else |selectedImages|
      ensures forall k :: 0 <= k < |dealt| ==>
        && fresh(dealt[k]) && dealt[k].manager == this
        && dealt[k].face == selectedImages[k]
        && !dealt[k].isFlipped && !dealt[k].isMatched
      ensures forall j, k :: 0 <= j < k < |dealt| ==> dealt[j] != dealt[k]
    {
      dealt := [];
      var i := 0;
      while i < totalCards
        invariant i <= totalCards && i <= |selectedImages|
        invariant |dealt| == i
        invariant forall k :: 0 <= k < i ==>
          && fresh(dealt[k]) && dealt[k].manager == this
          && dealt[k].face == selectedImages[k]
          && !dealt[k].isFlipped && !dealt[k].isMatched
        invariant forall j, k :: 0 <= j < k < i ==> dealt[j] != dealt[k]
      {
        if i >= |selectedImages| {
          return;
        }
        var card := new Card(selectedImages[i], this);
        dealt := dealt + [card];
        i := i + 1;
      }
    }

    /** The flag clicks consult: a pair is waiting to be compared. */
    function IsCheckingMatch(): (checking: bool)
      reads this, cards
      requires Valid()
      ensures checking <==> |firstSelectedCard| == 1 && |secondSelectedCard| == 1
    {
      isCheckingMatch
    }

    /** Queues a clicked card: into the first list when both are equal in length, else the second. */
    method OnCardSelected(selectedCard: Card)
      requires Valid() && !isCheckingMatch
      requires selectedCard in cards && selectedCard.isFlipped && !selectedCard.isMatched
      requires selectedCard !in firstSelectedCard && selectedCard !in secondSelectedCard
      modifies this`firstSelectedCard, this`secondSelectedCard, this`isCheckingMatch
      ensures Valid()
      ensures if old(|firstSelectedCard| == |secondSelectedCard|)
              then firstSelectedCard == old(firstSelectedCard) + [selectedCard]
                   && secondSelectedCard == old(secondSelectedCard)
              else secondSelectedCard == old(secondSelectedCard) + [selectedCard]
                   && firstSelectedCard == old(firstSelectedCard)
      ensures isCheckingMatch <==> |firstSelectedCard| == 1 && |secondSelectedCard| == 1
    {
      if |firstSelectedCard| == |secondSelectedCard| {
        firstSelectedCard := firstSelectedCard + [selectedCard];
      } else {
        secondSelectedCard := secondSelectedCard + [selectedCard];
      }
      if |firstSelectedCard| == 1 && |secondSelectedCard| == 1 {
        BeginCheck();
      }
    }

    /** The part of the match check that runs when it is started, before its first delay. */
    method BeginCheck()
      modifies this`isCheckingMatch
      ensures isCheckingMatch
    {
      isCheckingMatch := true;
    }

    /**
     * The match check after its delay: the two head cards are compared by face; a pair is
     * matched and counted (and may finish the game), a mismatch is turned face down; then
     * both heads leave their queues and the flag is cleared.
     */
    method ResolveCheck()
      requires Valid() && isCheckingMatch
      modifies this, firstSelectedCard[0], secondSelectedCard[0]
      ensures Valid() && !isCheckingMatch
      ensures firstSelectedCard == old(firstSelectedCard[1..])
      ensures secondSelectedCard == old(secondSelectedCard[1..])
      ensures firstSelectedCard == [] && secondSelectedCard == []
      ensures cards == old(cards) && totalMatches == old(totalMatches)
      ensures columns == old(columns) && rows == old(rows) && selectedImages == old(selectedImages)
      ensures timerLimit == old(timerLimit) && showsLoss == old(showsLoss)
      ensures var a, b := old(firstSelectedCard[0]), old(secondSelectedCard[0]);
        if a.face == b.face then
          && a.isMatched && b.isMatched && a.isFlipped && b.isFlipped
          && currentMatches == old(currentMatches) + 1
          && score == old(score) + 10
          && (isGameFinished <==> currentMatches == totalMatches)
        else
          && !a.isFlipped && !b.isFlipped && !a.isMatched && !b.isMatched
          && currentMatches == old(currentMatches) && score == old(score)
          && isGameFinished == old(isGameFinished)
    {
      var first := firstSelectedCard[0];
      var second := secondSelectedCard[0];
      if first.GetCardImage() == second.GetCardImage() {
        CommitMatch(first, second);
      } else {
        CommitMismatch(first, second);
      }
      firstSelectedCard := firstSelectedCard[1..];
      secondSelectedCard := secondSelectedCard[1..];
      // the flag is cleared, and set again at once if another pair is already queued
      isCheckingMatch := |firstSelectedCard| > 0 && |secondSelectedCard| > 0;
    }

    /** The match branch of the check: both cards matched, one more match, perhaps the win. */
    method CommitMatch(first: Card, second: Card)
      requires Progress() && Waiting(first) && Waiting(second) && first != second
      modifies this`matchedCards, this`currentMatches, this`score, this`isGameFinished, this`showsWin
      modifies first, second
      ensures Progress()
      ensures first.isMatched && second.isMatched && first.isFlipped && second.isFlipped
      ensures currentMatches == old(currentMatches) + 1 && score == old(score) + 10
      ensures isGameFinished <==> currentMatches == totalMatches
    {
      MatchPair(first, second);
      currentMatches := currentMatches + 1;
      if currentMatches == totalMatches {
        isGameFinished := true;
        showsWin := true;
      }
    }

    /** Both cards of a found pair are set matched, each adding its 5 points. */
    method MatchPair(first: Card, second: Card)
      requires CardsValid() && Waiting(first) && Waiting(second) && first != second
      modifies this`matchedCards, this`score, first, second
      ensures CardsValid()
      ensures first.isMatched && second.isMatched && first.isFlipped && second.isFlipped
      ensures |matchedCards| == old(|matchedCards|) + 2 <= |cards|
      ensures score == old(score) + 10
    {
      first.SetMatched();
      second.SetMatched();
      PairFits(matchedCards, first, second, cards);
      matchedCards := matchedCards + {first, second};
      forall c | c in cards
        ensures c.manager == this && (c.isMatched ==> c.isFlipped) && (c.isMatched <==> c in matchedCards)
      {
        if c != first && c != second {
          assert c.isMatched == old(c.isMatched) && c.isFlipped == old(c.isFlipped);
        }
      }
    }

    /** The mismatch branch of the check: both cards turn face down again. */
    method CommitMismatch(first: Card, second: Card)
      requires Progress() && Waiting(first) && Waiting(second)
      modifies first, second
      ensures Progress()
      ensures !first.isFlipped && !second.isFlipped && !first.isMatched && !second.isMatched
    {
      first.Unmatch();
      second.Unmatch();
    }

    /** One round of the countdown loop: while time is left and the game runs, one second less. */
    method Tick() returns (counting: bool)
      modifies this`timerLimit
      ensures counting == (old(timerLimit) > 0 && !isGameFinished)
      ensures timerLimit == if counting then old(timerLimit) - 1 else old(timerLimit)
      ensures counting ==> 0 <= timerLimit < old(timerLimit)
      ensures old(Valid()) ==> Valid()
    {
      counting := timerLimit > 0 && !isGameFinished;
      if counting {
        timerLimit := timerLimit - 1;
      }
    }

    /** After the countdown loop: the time-out screen appears only if the game has not been won. */
    method Expire() returns (timedOut: bool)
      requires timerLimit <= 0 || isGameFinished
      modifies this`showsLoss
      ensures timedOut == !isGameFinished
      ensures showsLoss == (old(showsLoss) || timedOut)
      ensures old(Valid()) ==> Valid()
    {
      timedOut := !isGameFinished;
      if timedOut {
        showsLoss := true;
      }
    }
  }

  /** A sequence has at most as many distinct elements as entries. */
  lemma {:induction false} DistinctAtMost<T>(s: seq<T>)
    ensures |set x | x in s| <= |s|
  {
    if s != [] {
      DistinctAtMost(s[1..]);
      assert (set x | x in s) == {s[0]} + (set x | x in s[1..]);
    }
  }

  /** A subset is no larger, and a subset as large as its superset is all of it. */
  lemma SubsetSize<T>(a: set<T>, b: set<T>)
    requires a <= b
    ensures |a| <= |b|
    ensures |a| == |b| ==> a == b
  {
    assert b == a + (b - a);
  }

  /** A set drawn from the elements of a sequence has at most as many members as the sequence has entries. */
  lemma ElementsBound<T>(m: set<T>, s: seq<T>)
    requires forall x | x in m :: x in s
    ensures |m| <= |s|
    ensures |m| == |s| ==> forall x | x in s :: x in m
  {
    var elements := set x | x in s;
    DistinctAtMost(s);
    SubsetSize(m, elements);
  }

  /** Two more distinct cards of the grid, not matched yet, still fit within the grid. */
  lemma PairFits(matched: set<Card>, a: Card, b: Card, grid: seq<Card>)
    requires forall x | x in matched :: x in grid
    requires a in grid && b in grid && a != b && a !in matched && b !in matched
    ensures |matched + {a, b}| == |matched| + 2 <= |grid|
  {
    assert matched + {a, b} == matched + {a} + {b};
    ElementsBound(matched + {a, b}, grid);
  }

  /** A won game has every card of the grid matched, so every card is face up and ignores clicks. */
  lemma FinishedMeansAllMatched(gm: GameManager)
    requires gm.Valid() && gm.isGameFinished
    ensures forall c | c in gm.cards :: c.isMatched && c.isFlipped
  {
    ElementsBound(gm.matchedCards, gm.cards);
  }
}
