# Memory game session model

A Dafny model of the session core of a Unity memory (tile-matching) game. A
`GameManager` deals a `columns` by `rows` grid of face-down cards, each of the first
`columns * rows / 2` card images on exactly two cards, shuffled with a Fisher-Yates loop.
The player clicks cards; the manager queues the picks in two lists and, once a pair is
queued, compares the two cards after a short delay: a pair stays face up and scores, a
mismatch turns face down again. The game is won when every pair is found; a countdown
timer shows the time-out screen if it runs out first.

Two modules:

- `Deck` (`Deck.dfy`): the image selection loop and the in-place shuffle of
  `GameManager.UpdateGrid`/`GameManager.Shuffle`, specified by the functions `Paired` (the
  unshuffled deck) and `ShuffleFrom` (what the shuffle loop leaves behind), with lemmas that
  the shuffle is a permutation and that a deck dealt from distinct images holds each of them
  exactly twice. The random generator is an input: `picks[i]` is the value
  `Random.Range(i, n)` returned in round `i` (`IsRangeTrace`).
- `Game` (`Game.dfy`): the classes `Card` and `GameManager` with the fields the source updates
  in place. `GameManager.Valid()` is the session invariant: a matched card is face up, the set
  of matched cards has `2 * currentMatches` members, `score == 10 * currentMatches`, the game
  is finished exactly when all `totalMatches` pairs are found, and the two pick lists hold at
  most one card each, a face-up unmatched card of the grid. Every operation after dealing keeps
  it.

The coroutines are split into steps a caller drives: `BeginCheck` is the start of
`CheckMatch`, `ResolveCheck` the part after its delay; `Tick` is one round of the countdown
loop and `Expire` the test after it. The two end-screen panels are the flags `showsWin` and
`showsLoss`; a card's visible sprite is its `isFlipped` flag.

Behaviour of the source worth knowing:

- A found pair adds 10 to the score: `SetMatched` adds 5 and is called for both cards
  (`Card.cs:45`, `GameManager.cs:145-146`).
- Running out of time only shows the time-out panel (`GameManager.cs:189-193`); it does not
  set `isGameFinished`, and clicks are still accepted afterwards.
- Clicks are refused while a check is pending (`Card.cs:35`) and picks are queued. Because
  clicks are refused, each list never holds more than one card, so the re-run of the check at
  `GameManager.cs:163-166` never happens; `ResolveCheck` ends with both lists empty.
- The comparison at `GameManager.cs:143` calls `GetCardImageName`, which `Card.cs` does not
  define; the model compares the cards' front sprites (`GetCardImage`, `Card.cs:55-58`).
- An odd `columns * rows` is not rejected: the instantiation loop reads one entry past the
  dealt deck at `GameManager.cs:105`, after `columns * rows - 1` cards were made and added to
  `cards`; the last card object, created at line 104, is never initialised or added. The model
  returns `MissingSelectedImage` there; too short an image pool fails at `GameManager.cs:96`
  before any card is made (`MissingCardImage`), after the selection loop has appended every
  image of the pool twice.

## Model

| member | source | states |
|---|---|---|
| Deck.SelectImages | Assets/Scripts/GameManager.cs:93-98 | succeeds exactly when the image pool holds `pairs` images, and then yields image k/2 at every position k of a list of length `2 * pairs` |
| Deck.Shuffle | Assets/Scripts/GameManager.cs:110-119 | the in-place loop leaves the array equal to `ShuffleFrom` of its old contents, and keeps its multiset of sprites |
| Deck.ShufflePermutes | Assets/Scripts/GameManager.cs:110-119 | the shuffle keeps the length and the multiset of the list, whatever the random picks |
| Deck.ShuffleKeepsPrefix | Assets/Scripts/GameManager.cs:112-118 | the rounds from index i onward never move an element before index i |
| Deck.DealDeck | Assets/Scripts/GameManager.cs:92-99 | the dealt deck exists exactly when the pool is long enough; it is the shuffle of the paired list, has `2 * pairs` entries and holds each of the first `pairs` images twice |
| Deck.PairedMultiset | Assets/Scripts/GameManager.cs:94-98 | the unshuffled list holds the multiset of the first `pairs` images twice over |
| Deck.DeckPairing | Assets/Scripts/GameManager.cs:89-99 | with distinct images, the shuffled deck has `2 * pairs` cards, each of the first `pairs` images on exactly two of them and no other image on any |
| Game.Card.constructor | Assets/Scripts/Card.cs:18-23 | a new card shows the given front image, reports to the given manager, and is face down and unmatched |
| Game.Card.GetCardImage | Assets/Scripts/Card.cs:55-58 | returns the card's front sprite, the constant `face` set by the constructor and never changed |
| Game.Card.FlipCard | Assets/Scripts/Card.cs:25-31 | a matched card keeps its side; any other card shows the requested side; the matched flag never changes |
| Game.Card.OnCardClicked | Assets/Scripts/Card.cs:33-39 | a click on a face-up card or during a check changes nothing; otherwise the card turns face up and joins the first list when both lists are equal in length, else the second, and the check starts when the second list gets its card; the session invariant is kept |
| Game.Card.SetMatched | Assets/Scripts/Card.cs:41-47 | the card becomes matched, keeps its side (the flip inside is refused once matched), and the manager's score rises by 5 |
| Game.Card.Unmatch | Assets/Scripts/Card.cs:49-53 | the card ends face down with its matched flag unchanged |
| Game.GameManager.constructor | Assets/Scripts/GameManager.cs:14-43 | a loaded scene has no cards, no matches, score 0, empty pick lists, no check pending, nothing finished, and the configured time limit |
| Game.GameManager.UpdateGrid | Assets/Scripts/GameManager.cs:89-107 | records the grid size and `totalMatches = columns * rows / 2`; fails with `MissingCardImage` (no cards, the deck holding every pool image twice) when the pool is too short, with `MissingSelectedImage` (one card short) for an odd product, else builds the grid; the deck is the shuffled paired list, card k is a fresh face-down card showing deck entry k, all cards distinct; score, matches, pick lists and timer are untouched; a built grid in a fresh scene satisfies the session invariant |
| Game.GameManager.Instantiate | Assets/Scripts/GameManager.cs:102-107 | makes one fresh, distinct, face-down unmatched card per deck entry, in deck order, up to `totalCards` or the end of the deck |
| Game.GameManager.IsCheckingMatch | Assets/Scripts/GameManager.cs:169-172 | the flag is set exactly when both pick lists hold a card |
| Game.GameManager.OnCardSelected | Assets/Scripts/GameManager.cs:121-135 | the card is appended to the first list when the lists are equal in length, else to the second; the check is started exactly when both hold one card; the session invariant is kept |
| Game.GameManager.BeginCheck | Assets/Scripts/GameManager.cs:137-139 | the check flag is raised |
| Game.GameManager.ResolveCheck | Assets/Scripts/GameManager.cs:141-166 | two heads with the same face are both matched and face up, one more match is counted, the score rises by 10 and the game is finished exactly when all pairs are found; otherwise both turn face down and counters, score and finished flag stay; both heads leave their lists, which end empty, the flag is cleared, and the session invariant is kept |
| Game.GameManager.CommitMatch | Assets/Scripts/GameManager.cs:143-154 | both cards end matched and face up, `currentMatches` and score rise by 1 and 10, and the win is declared exactly when `currentMatches` reaches `totalMatches` |
| Game.GameManager.MatchPair | Assets/Scripts/GameManager.cs:145-146 | both cards become matched and stay face up, the matched set grows by two within the grid, and the score rises by 10 |
| Game.GameManager.CommitMismatch | Assets/Scripts/GameManager.cs:155-159 | both cards end face down and unmatched, and the grid invariant `Progress()` (matched cards face up, counters and score agreeing with them) is kept |
| Game.GameManager.Tick | Assets/Scripts/GameManager.cs:183-188 | the loop runs a round exactly when time is left and the game is not won, and that round takes exactly one second off; the session invariant is kept |
| Game.GameManager.Expire | Assets/Scripts/GameManager.cs:189-193 | the time-out panel is shown exactly when the game was not won |
| Game.FinishedMeansAllMatched | Assets/Scripts/GameManager.cs:147-153 | in a won game every card of the grid is matched and face up, so no click is accepted any more |

## Left out

- Scene layout, dropdown parsing and cell-size arithmetic (`GameManager.cs:59-87`): floating
  point and UI; the grid size arrives as two natural numbers.
- Destroying the previous card objects and the prefab instantiation under the layout
  (`GameManager.cs:60-63`, `104`): engine effects; a card is a fresh `Card` object.
- Sprites, animator, score and timer texts (`UpdateScore`, `GameManager.cs:174-177`), the
  end-screen objects: reduced to `isFlipped`, `showsWin`, `showsLoss`.
- `Random.Range`: its results are the `picks` input; the model says nothing about the
  distribution of permutations.
- Coroutine timing (the 0.5 s and 1 s waits): `BeginCheck`/`ResolveCheck` and
  `Tick`/`Expire` are the steps between the waits; a caller decides when they run.
- `StartGame` and `RestartScene` (`GameManager.cs:50-55`, `196-199`): scene control.
- Saving and resuming a session: no code in `GameManager.cs` or `Card.cs` does it.
- Game.Card.OnCardClicked: requires the manager's session invariant and that the card is one
  of its grid cards, which holds for every card on a dealt grid; clicks before dealing or on
  foreign cards are not modelled.
- Game.GameManager.OnCardSelected: requires what its only caller, `OnCardClicked`,
  establishes (no check pending, the card face up, unmatched and not yet queued).
- Game.GameManager.UpdateGrid: the session invariant is promised only for a grid built in a
  freshly loaded scene, the only way `StartGame` is reached; re-dealing over a running
  session keeps its score and pick lists, which the invariant does not allow. After a
  failure the fields set before the failing line keep their new values, the grid size and
  `totalMatches` in both cases: after `MissingCardImage` the card list is empty and
  `selectedImages` holds every pool image twice, unshuffled; after `MissingSelectedImage`
  `selectedImages` is the whole shuffled deck and the card list holds `columns * rows - 1`
  cards. The uninitialised card object created at `GameManager.cs:104` before the failing
  read is not modelled.
- Game.GameManager.ResolveCheck: requires the session invariant and a pending check, which
  holds whenever `OnCardSelected` starts it; the re-run at `GameManager.cs:163-166` is folded
  into the flag assignment because the invariant rules it out.
- Game.GameManager.Expire: requires that the countdown loop has ended (no time left or the
  game won), the condition under which the source reaches it.
- Game.GameManager.Tick: `timerLimit` is an unbounded integer; the source's `int` cannot
  underflow here because the loop only decrements positive values.
