# Squiggle relay game: the client's replicated game state

Every browser running `draw.js` holds its own copy of the game: the roster
of players, the phase of the round (drawing the original, viewing it,
recreating it, the gallery), the current drawer, the strokes on the canvas,
the collected recreations and one pending countdown timer. The clients share
no state. A relay server forwards each message to every other client, never
back to the sender, so each client runs the same message handler and the
game stays in step only as long as the messages agree.

This project models one such client as a pure transition function
`Client.Step(state, event) -> Outcome(next, sent)`. An event is an incoming
message, a one-second timer tick, or a UI action: choosing an icon, the join
and start buttons, lifting the pen, clicking a gallery entry, or closing the
page. It then proves properties of the pieces:

- `ids.dfy`: the id order used by the roster sort (`Ids.Less`), a strict
  total order.
- `roster.dfy`: the roster operations. `Roster` has lookup, insertion and
  the stable sort. `RosterOps` has the remote join (push and re-sort unless
  the id is present), the leave filter, and the order-independence of
  remote joins.
- `recreations.dfy`: strokes, the first-wins recreation store and the icon
  lookup.
- `turn_order.dfy`: the next-drawer rotation and its behaviour over many
  rounds.
- `timer.dfy`: the countdown and the ten-cell timer bar.
- `client.dfy`: the client state, the message handler (`Client.Handle`),
  the timer callbacks (`Client.Complete`), `Client.Step` and `Client.Run`.
- `client_properties.dfy`: lemmas about what `Step` does, event by event,
  the parts of the state each event may change, and the invariants it
  keeps.
- `scenarios.dfy`: concrete three-player runs showing behaviour the code
  has where messages arrive in unexpected orders.

The model follows `draw.js` as written. Where that differs from a protocol
with exactly-once delivery and a roster frozen for the round:

- The gallery quorum is compared against the live roster size at each
  `recreationSubmitted`. It is not compared against a snapshot frozen at
  the start of the round.
- The gallery is announced every time a submission arrives while the
  quorum is met, duplicates included (`ClientProperties.GalleryRepeats`).
  It is not announced exactly once.
- No phase is entered on a vote: `voteSubmitted` only records the winner
  and starts the five-second timer (`ClientProperties.VoteSubmittedStep`).
- Apart from `stroke`, no message is gated on the current phase.
- A timer is only replaced, never cancelled. A client that does not start
  a new timer keeps its old one pending (`Scenarios.StaleVoteTimer`).
- A local join appends without sorting (`Scenarios.UnsortedLocalJoin`).

Where the definitions come from, in `draw.js`:

- `Ids.Less`: the `localeCompare` comparator of the roster sort, line 75.
- `Client.Handle`: `handleMessage`, lines 66-188, one case per message type.
- `Client.Complete`: the callbacks passed to `startTimer`, lines 271-276,
  306-309, 329-354 and 472-474, with `startNextRound` at lines 477-490.
- `Client.Initial`: the global game state before anything happens, lines
  6-30.
- `Client.StartTimer`: the start of `startTimer`, lines 196-201, which sets
  `timeLeft` and `totalTime` and replaces the pending interval.
- `Client.Step`: `handleMessage`, the interval tick of `startTimer`
  (lines 203-210) and the UI handlers at lines 617-747.
- `Client.BeginRound`: the round start, `startOriginalDrawing`, lines 240-286.
- `Client.StartViewing`: `startViewingPhase`, lines 288-310.
- `Client.StartRecreatingPhase`: `startRecreatingPhase`, lines 312-356.
- `Client.ShowGalleryPhase`: `showGallery`, lines 358-435.
- `Client.ShowVoteResult`: `showVoteResult`, lines 437-475.
- `Client.CanDraw`: `canDraw`, lines 610-613.

What each of them does is stated by the lemmas in `client_properties.dfy`
listed below.

JavaScript details made explicit:

- `null === null` is true, so a client that has not joined counts as the
  drawer of a round with no drawer. Ids are therefore `Option<Id>`.
- `myPlayerId` is truthy only when it is set and non-empty.
- `icon || '🎨'` falls back to the default for an empty icon as well.
- `Array.prototype.sort` is stable, and so is the insertion sort used here.
- `startNextRound` on an empty roster throws before it sends anything. The
  model sends nothing and changes nothing beyond clearing the timer.

## Model

| member | source | states |
|---|---|---|
| `Ids.LessIrreflexive` | draw.js:75 | no id sorts before itself |
| `Ids.LessAsymmetric` | draw.js:75 | two ids are never each before the other |
| `Ids.LessTransitive` | draw.js:75 | the id order is transitive, so the comparator is a consistent ordering |
| `Ids.LessTotal` | draw.js:75 | of two different ids one sorts first, so a sort has no ties between distinct ids |
| `Roster.FindById` | draw.js:71-72 | `players.find` by id: nothing exactly when no entry has the id, otherwise the first entry that has it |
| `Roster.IndexOf` | draw.js:479 | `players.findIndex` by id: -1 exactly when the drawer is null or absent, otherwise the position of the first entry with that id |
| `Roster.InsertByIdSorted` | draw.js:75 | inserting into a sorted roster keeps it sorted |
| `Roster.SortById` | draw.js:657 | the sort returns a permutation of the roster ordered by id |
| `RosterOps.SortByIdStrict` | draw.js:657 | with distinct ids the sorted roster is strictly increasing |
| `RosterOps.SortedUnique` | draw.js:75 | two strictly sorted rosters with the same entries are identical, so the sorted order does not depend on arrival order |
| `RosterOps.JoinRemote` | draw.js:71-76 | a known id leaves the roster unchanged; for a new id the result holds exactly the old entries plus the new player, as a multiset, and is sorted |
| `RosterOps.JoinRemoteDistinct` | draw.js:71-76 | a remote join keeps ids distinct and, for a new id, leaves the roster strictly sorted |
| `RosterOps.JoinRemoteIdempotent` | draw.js:71-76 | delivering the same join twice has the effect of delivering it once |
| `RosterOps.JoinKeepsIds` | draw.js:71-76 | every id present before a join is present after it |
| `RosterOps.JoinAddsOnly` | draw.js:71-76 | a join introduces no id other than the joiner's |
| `RosterOps.JoinRemoteCommutes` | draw.js:87-92 | two joins with consistent ids give the same roster in either order |
| `RosterOps.JoinAllSorted` | draw.js:87-92 | starting from a strictly sorted roster, and with no id reused, any series of remote joins leaves it strictly sorted and holding exactly the players heard of |
| `RosterOps.JoinAllConverges` | draw.js:87-92 | two clients starting from strictly sorted rosters that heard, through remote joins, of the same players, in any order and with repeats, hold identical rosters |
| `RosterOps.Remove` | draw.js:98 | a leave keeps exactly the entries with a different id, and is a no-op when the id is absent |
| `RosterOps.RemoveAbsent` | draw.js:98 | no entry carries the departed id afterwards |
| `RosterOps.RemoveSorted` | draw.js:98 | a leave keeps a sorted roster sorted |
| `RosterOps.RemoveStrict` | draw.js:98 | a leave keeps a strictly sorted roster strictly sorted |
| `RosterOps.RemoveDistinct` | draw.js:98 | a leave keeps ids distinct |
| `RosterOps.RemoveConcat` | draw.js:98 | a leave keeps the survivors in their relative order |
| `RosterOps.RemoveIdempotent` | draw.js:98 | a repeated leave changes nothing |
| `Recreations.IconFor` | draw.js:138 | a recreation's icon is the first matching player's icon when that is non-empty, and the default when there is no match or the icon is empty; it is never empty |
| `Recreations.Offer` | draw.js:142-146 | a recreation is stored only when its player has none; nothing stored is replaced and at most one entry per player is kept |
| `Recreations.OfferAllKeys` | draw.js:142-146 | from a store with at most one entry per submitter, any series of deliveries leaves one entry per distinct submitter and keeps what it had |
| `Recreations.UniqueKeysCount` | draw.js:149-150 | with one entry per submitter, the stored count is the number of submitters |
| `Recreations.CountIsDistinctSubmitters` | draw.js:142-150 | the count compared with the quorum is the number of distinct submitters, however often each was delivered |
| `TurnOrder.NextDrawer` | draw.js:477-481 | there is a next drawer exactly when the roster is non-empty; it is a roster entry, and the first one when the drawer is not in the roster |
| `TurnOrder.NextDrawerIsModular` | draw.js:479-481 | the next drawer is the entry at `(findIndex + 1) % players.length` |
| `TurnOrder.NextDrawerAfter` | draw.js:479-481 | with distinct ids, position `j` is followed by `j + 1`, and the last position by the first |
| `TurnOrder.DrawerAfterStep` | draw.js:477-490 | each round change moves the pen from position `j` to its successor |
| `TurnOrder.FirstDrawer` | draw.js:477-481 | the first drawer chosen sits at some roster position |
| `TurnOrder.DrawerAfterPosition` | draw.js:477-490 | the `k`-th drawer sits `k - 1` positions after the first, wrapping round the roster |
| `TurnOrder.RotationDistinct` | draw.js:477-490 | over `n` rounds on `n` distinct players nobody draws twice |
| `TurnOrder.RotationCovers` | draw.js:477-490 | over `n` rounds every player draws, each in a round named explicitly |
| `TurnOrder.RotationPeriodic` | draw.js:477-490 | round `n + 1` returns the pen to the drawer of round 1 |
| `Timer.FilledBars` | draw.js:219 | the filled-cell count is the ceiling of `timeLeft * 10 / totalTime`; it lies in 0..10 while the clock runs, is 10 at the start and at most 0 once time is up |
| `Timer.FilledBarsMonotone` | draw.js:219 | more time left never shows fewer filled cells |
| `Timer.BarShowsFilled` | draw.js:221-228 | the bar text has as many green cells as the filled count, clamped to 0..10 |
| `Timer.FilledBarsPositive` | draw.js:219 | any time left at all shows at least one filled cell |
| `Timer.TickDown` | draw.js:203-210 | the bar redrawn on the tick that completes the timer is empty, and on every other tick of a running timer it still shows a filled cell |
| `Timer.CountdownCompletes` | draw.js:196-212 | a timer started for `n` seconds stays silent for `n - 1` ticks and completes on tick `n` |
| `Client.SubmitterIds` | draw.js:403-420 | the gallery entries' vote targets are the submitters, in gallery order |
| `ClientProperties.PlayerJoinedStep` | draw.js:70-84 | a remote join changes only the roster, only for a new id, keeps it sorted and distinct, and is answered with `playerInfo` exactly when this client has joined and the newcomer is someone else |
| `ClientProperties.PlayerInfoStep` | draw.js:86-95 | `playerInfo` updates the roster as a join does and sends nothing |
| `ClientProperties.JoinIdempotent` | draw.js:71-73 | repeating a join or info message leaves the state unchanged |
| `ClientProperties.JoinsCommute` | draw.js:87-92 | two info messages for different players lead to the same state in either order |
| `ClientProperties.PlayerLeftStep` | draw.js:97-98 | `playerLeft` removes exactly that id, keeps the rest, keeps sortedness, and does nothing when the id is absent |
| `ClientProperties.JoinClickedStep` | draw.js:627-643 | the join button does nothing without an icon; otherwise it sets this client's id, appends the player unsorted and announces it |
| `ClientProperties.LocalJoinSorted` | draw.js:633 | a local join keeps a strictly sorted roster strictly sorted if and only if the new id exceeds all ids present |
| `ClientProperties.StartGameStep` | draw.js:104-115 | with fewer than three players nothing changes; otherwise the first roster entry draws, the round fields are cleared and `gameStarted` names that drawer |
| `ClientProperties.StartClickedStep` | draw.js:647-662 | with three or more players the start button sorts the roster and proposes the least id; with fewer it does nothing |
| `ClientProperties.RoundStartResets` | draw.js:240-277 | `gameStarted` and `nextRound` adopt the drawer, clear every per-round field, and start the drawing timer on the drawer's client only |
| `ClientProperties.StrokeGate` | draw.js:176-181 | a remote stroke is appended while drawing the original and ignored in every other phase |
| `ClientProperties.PenUpTurns` | draw.js:610-613 | a finished path changes nothing while waiting, viewing or in the gallery, nor on a client whose turn it is not; on the drawer's client while drawing, and on everyone else's while recreating, the path is appended as a stroke, and it is sent only while drawing |
| `ClientProperties.OneOriginalArtist` | draw.js:610-613 | clients that agree on phase and drawer cannot both draw the original unless they are the same player, and the drawer never recreates |
| `ClientProperties.PenUpGate` | draw.js:687-707 | a pen path is kept exactly when `canDraw` holds and it is non-empty, and then exactly `Stroke(points, drawColor, myPlayerId)` is appended to the unchanged canvas and nothing else changes; it is broadcast exactly when it is also the original-drawing phase |
| `ClientProperties.DrawingTimeUp` | draw.js:270-275 | when the drawing timer runs out the canvas becomes the original, is broadcast, and viewing starts with its three-second timer |
| `ClientProperties.OriginalCompleteStep` | draw.js:124-127 | `originalComplete` shows the announced drawing and starts viewing with its timer |
| `ClientProperties.ViewingTimeUp` | draw.js:288-310 | when the viewing timer runs out recreating starts locally and is announced |
| `ClientProperties.StartRecreatingStep` | draw.js:312-329 | `startRecreating` clears the canvas and starts the recreation timer on non-drawers only |
| `ClientProperties.RosterFrame` | draw.js:66-188 | only remote joins and leaves and the join and start buttons change the roster |
| `ClientProperties.RecreationsFrame` | draw.js:66-188 | the stored recreations change only on a submission, an adopted gallery, a round start, or the recreation or vote-result timer running out |
| `ClientProperties.StrokesFrame` | draw.js:66-188 | the canvas changes only by strokes, `clear`, the phase-switching messages and timers, and a round start |
| `ClientProperties.IdentityFrame` | draw.js:617-643 | this client's id changes only on the join button and its icon only when one is chosen |
| `ClientProperties.QuietMessages` | draw.js:66-188 | only `playerJoined`, `startGame` and `recreationSubmitted` are answered, and a message of unknown type changes nothing |
| `ClientProperties.UnloadStep` | draw.js:743-747 | closing the page sends `playerLeft` exactly when this client has joined |
| `ClientProperties.RecreationStep` | draw.js:133-155 | at most one recreation per player is stored, the first wins, and the gallery opens with a `showGallery` broadcast exactly when the count reaches the live roster size minus one |
| `ClientProperties.GalleryRepeats` | draw.js:149-154 | once the quorum is met, a duplicate submission announces the gallery again |
| `ClientProperties.OwnSubmission` | draw.js:328-356 | when the recreation timer runs out the client broadcasts its canvas, appends exactly its own canvas with the selected icon unless it already holds an entry under its id, and does not check the quorum |
| `ClientProperties.ShowGalleryStep` | draw.js:157-161 | `showGallery` adopts the announced collection, and only the drawer's client gets vote targets, one per entry |
| `ClientProperties.VoteSubmittedStep` | draw.js:163-167 | a vote records the winner, closes voting and starts the five-second next-round timer without changing phase |
| `ClientProperties.VoteClickedStep` | draw.js:412-420 | a click on gallery entry `k` sends and records a vote for that entry's player; a click outside the entries does nothing |
| `ClientProperties.NextRoundDueStep` | draw.js:477-490 | when the vote-result timer runs out on an empty roster nothing else happens; a drawer missing from the roster hands over to the first entry |
| `ClientProperties.NextRoundRotates` | draw.js:477-490 | when the vote-result timer runs out, the player after the drawer, wrapping round, is announced and starts a fresh round |
| `ClientProperties.QuietTicks` | draw.js:196-206 | a timer started for `n` seconds changes nothing but its countdown for `n - 1` ticks |
| `ClientProperties.TimerFiresOnTime` | draw.js:196-212 | the `n`-th tick of an `n`-second timer runs its callback |
| `ClientProperties.StepKeepsDistinctIds` | draw.js:70-98 | no event gives two roster entries the same id, provided a locally generated id is fresh |
| `ClientProperties.StepKeepsUniqueRecreations` | draw.js:142-146 | no event stores two recreations from one player, provided an adopted gallery list has none |
| `Scenarios.DuplicateThenQuorum` | draw.js:142-154 | with three players, `B`'s duplicate is dropped, the gallery opens exactly when `C`'s recreation arrives, and a later duplicate announces it again |
| `Scenarios.StaleVoteTimer` | draw.js:266-280 | a non-drawer's vote-result timer survives `nextRound`; when it runs out it announces the next player mid-round and skips the announced drawer's turn |
| `Scenarios.UnsortedLocalJoin` | draw.js:633 | a player joining locally with the least id holds an unsorted roster, and on `startGame` picks a different drawer from a client with the sorted roster |

## Left out

- server.js, the relay itself, is not part of this model. Its behaviour enters only as the assumption that a message reaches the other clients and never its sender.
- The WebSocket connection, reconnection, JSON encoding and the connection check in `sendMessage` are left out. Messages a client sends are returned in `sent`, and whether they are delivered is up to the caller.
- DOM updates, screen switching, status icons, the players bar, canvas rendering and `drawDrawingOnCanvas` are presentation and are left out.
- Pen-down and pen-move handling, and the stroke size, thinning, smoothing and streamline parameters, are left out. A finished path arrives as the `PenUp` event, and a stroke keeps its points, colour and player id.
- Wall-clock time becomes explicit `Tick` events. Id generation (`Date.now` plus `Math.random`) becomes the id passed with `JoinClicked`.
- Highlighting the winner in `showVoteResult` is presentation and is left out. It matches icons in label text.
- The timer bar's filled-cell count is computed in exact rational arithmetic instead of floating point. For the timer lengths the program uses (3, 5 and 10 seconds) and whole-second time left, `Math.ceil((timeLeft / totalTime) * 10)` in double precision equals the exact ceiling, so the two agree on every input the program produces.
- Ids.Less: `localeCompare` is modelled as code-point lexicographic order. Locale collation is not modelled. Generated ids consist of digits, lower-case letters and `-`.
- `clear` is modelled as emptying the canvas. No code path in the client sends it.
