/** One client's game state and the transition function every client runs:
    relay messages (`handleMessage`), timer completions (the callbacks given
    to `startTimer`) and the local UI actions, with the DOM and the socket
    removed. Messages a step sends are returned in order; the relay does not
    echo them back to the sender. */
module Client {
  import opened Wrappers
  import opened Ids
  import opened Roster
  import opened RosterOps
  import opened Drawing
  import opened Recreations
  import opened TurnOrder
  import opened Timer

  /** `gameState`. There is no separate vote-result phase. */
  datatype Phase = Waiting | OriginalDrawing | Viewing | Recreating | Gallery

  /** What a timer does when it runs out. */
  datatype Callback =
    | FinishDrawing     // drawer: capture the strokes and broadcast them
    | FinishViewing     // anyone: broadcast and enter recreating
    | SubmitRecreation  // non-drawer: submit the recreation
    | NextRoundDue      // anyone: pick and announce the next drawer

  /** The single pending interval (`timerInterval`): starting a timer
      replaces whatever was pending. */
  datatype PendingTimer = PendingTimer(clock: Countdown, onComplete: Callback)

  /** The message envelope `{type, data}`, one case per `type`. */
  datatype Message =
    | PlayerJoined(player: Player)
    | PlayerInfo(player: Player)
    | PlayerLeft(id: Id)
    | StartGame(drawer: Id)
    | GameStarted(drawer: Id)
    | OriginalComplete(drawing: Strokes)
    | StartRecreating
    | RecreationSubmitted(playerId: Option<Id>, drawing: Strokes)
    | ShowGallery(recreations: seq<Recreation>)
    | VoteSubmitted(winnerId: Option<Id>)
    | NextRound(drawer: Id)
    | StrokeMsg(stroke: Stroke)
    | Clear
    | Unrecognized(kind: string)

  datatype Event =
    | Receive(msg: Message)
    | Tick                            // one second of the pending timer
    | SelectIcon(icon: string)
    | JoinClicked(id: Id)             // the freshly generated player id
    | StartClicked
    | PenUp(points: seq<(int, int)>)  // the finished pen path
    | VoteClicked(index: nat)         // a click on the index-th gallery entry
    | Unload

  datatype State = State(
    me: Option<Id>,                 // myPlayerId
    selectedIcon: string,
    players: seq<Player>,
    phase: Phase,                   // gameState
    drawer: Option<Id>,             // currentDrawer
    strokes: Strokes,               // allSquibbles
    original: Strokes,              // originalDrawing
    myRecreation: Strokes,
    recreations: seq<Recreation>,   // allRecreations
    votedWinner: Option<Id>,
    ballot: seq<Option<Id>>,        // gallery entries that currently accept a vote click
    timer: Option<PendingTimer>)

  datatype Outcome = Outcome(next: State, sent: seq<Message>)

  const DrawColor: string := "#000000"

  function Initial(): State
  {
    State(None, "", [], Waiting, None, [], [], [], [], None, [], None)
  }

  /** `currentDrawer === myPlayerId`; two nulls compare equal. */
  predicate IsDrawer(s: State)
  {
    s.drawer == s.me
  }

  /** `myPlayerId` is truthy: set and non-empty. */
  predicate Joined(s: State)
  {
    s.me.Some? && s.me.value != ""
  }

  /** `canDraw()`. */
  predicate CanDraw(s: State)
  {
    (s.phase == OriginalDrawing && IsDrawer(s)) || (s.phase == Recreating && !IsDrawer(s))
  }

  function StartTimer(s: State, seconds: int, cb: Callback): State
  {
    s.(timer := Some(PendingTimer(Countdown(seconds, seconds), cb)))
  }

  /** `gameState = 'originalDrawing'; currentDrawer = d; startOriginalDrawing()`:
      every per-round field is cleared and only the drawer starts a timer. */
  function BeginRound(s: State, d: Option<Id>): State
  {
    var c := s.(phase := OriginalDrawing, drawer := d, strokes := [], original := [],
                myRecreation := [], recreations := [], votedWinner := None, ballot := []);
    if IsDrawer(c) then StartTimer(c, DrawSeconds, FinishDrawing) else c
  }

  /** `startViewingPhase`: show the original and start the viewing timer. */
  function StartViewing(s: State): State
  {
    StartTimer(s.(phase := Viewing, strokes := s.original), ViewSeconds, FinishViewing)
  }

  /** `startRecreatingPhase`: clear the canvas; only non-drawers start a timer. */
  function StartRecreatingPhase(s: State): State
  {
    var c := s.(phase := Recreating, strokes := []);
    if IsDrawer(c) then c else StartTimer(c, RecreateSeconds, SubmitRecreation)
  }

  /** The player ids of the gallery entries, in gallery order. */
  function SubmitterIds(recs: seq<Recreation>): (ids: seq<Option<Id>>)
    ensures |ids| == |recs|
    ensures forall i :: 0 <= i < |recs| ==> ids[i] == recs[i].playerId
  {
    if |recs| == 0 then [] else [recs[0].playerId] + SubmitterIds(recs[1..])
  }

  /** `showGallery`: only the drawer's gallery entries take vote clicks. */
  function ShowGalleryPhase(s: State): State
  {
    s.(phase := Gallery, ballot := if IsDrawer(s) then SubmitterIds(s.recreations) else [])
  }

  /** `showVoteResult`: click handlers are removed and the five-second timer
      to the next round starts; the phase is left as it is. */
  function ShowVoteResult(s: State): State
  {
    StartTimer(s.(ballot := []), VoteResultSeconds, NextRoundDue)
  }

  /** The body of a timer callback, run after the interval was cleared. */
  function Complete(s: State, cb: Callback): Outcome
  {
    match cb
    case FinishDrawing =>
      Outcome(StartViewing(s.(original := s.strokes)), [OriginalComplete(s.strokes)])
    case FinishViewing =>
      Outcome(StartRecreatingPhase(s), [StartRecreating])
    case SubmitRecreation =>
      var mine := Recreation(s.me, s.strokes, s.selectedIcon);
      Outcome(s.(myRecreation := s.strokes, recreations := Offer(s.recreations, mine)),
              [RecreationSubmitted(s.me, s.strokes)])
    case NextRoundDue =>
      match NextDrawer(s.players, s.drawer)
      case None => Outcome(s, [])
      case Some(p) => Outcome(BeginRound(s, Some(p.id)), [NextRound(p.id)])
  }

  /** `handleMessage`. */
  function Handle(s: State, m: Message): Outcome
  {
    match m
    case PlayerJoined(p) =>
      var reply := if Joined(s) && Some(p.id) != s.me
                   then [PlayerInfo(Player(s.me.value, s.selectedIcon))] else [];
      Outcome(s.(players := JoinRemote(s.players, p)), reply)
    case PlayerInfo(p) =>
      Outcome(s.(players := JoinRemote(s.players, p)), [])
    case PlayerLeft(id) =>
      Outcome(s.(players := Remove(s.players, id)), [])
    case StartGame(_) =>
      if |s.players| >= 3 then
        Outcome(BeginRound(s, Some(s.players[0].id)), [GameStarted(s.players[0].id)])
      else Outcome(s, [])
    case GameStarted(d) =>
      Outcome(BeginRound(s, Some(d)), [])
    case OriginalComplete(drawing) =>
      Outcome(StartViewing(s.(original := drawing)), [])
    case StartRecreating =>
      Outcome(StartRecreatingPhase(s), [])
    case RecreationSubmitted(pid, drawing) =>
      var recs := Offer(s.recreations, Recreation(pid, drawing, IconFor(s.players, pid)));
      var c := s.(recreations := recs);
      if |recs| >= |s.players| - 1 then Outcome(ShowGalleryPhase(c), [ShowGallery(recs)])
      else Outcome(c, [])
    case ShowGallery(recs) =>
      Outcome(ShowGalleryPhase(s.(recreations := recs)), [])
    case VoteSubmitted(w) =>
      Outcome(ShowVoteResult(s.(votedWinner := w)), [])
    case NextRound(d) =>
      Outcome(BeginRound(s, Some(d)), [])
    case StrokeMsg(st) =>
      if s.phase == OriginalDrawing then Outcome(s.(strokes := s.strokes + [st]), [])
      else Outcome(s, [])
    case Clear =>
      Outcome(s.(strokes := []), [])
    case Unrecognized(_) =>
      Outcome(s, [])
  }

  /** The transition function: one event in, the next state and the
      messages sent out. */
  function Step(s: State, e: Event): Outcome
  {
    match e
    case Receive(m) => Handle(s, m)
    case Tick =>
      (match s.timer
       case None => Outcome(s, [])
       case Some(t) =>
         var (clock, done) := TickDown(t.clock);
         if done then Complete(s.(timer := None), t.onComplete)
         else Outcome(s.(timer := Some(t.(clock := clock))), []))
    case SelectIcon(icon) =>
      Outcome(s.(selectedIcon := icon), [])
    case JoinClicked(id) =>
      if s.selectedIcon != "" then
        var p := Player(id, s.selectedIcon);
        Outcome(s.(me := Some(id), players := s.players + [p]), [PlayerJoined(p)])
      else Outcome(s, [])
    case StartClicked =>
      if |s.players| >= 3 then
        var sorted := SortById(s.players);
        Outcome(s.(players := sorted), [StartGame(sorted[0].id)])
      else Outcome(s, [])
    case PenUp(points) =>
      if CanDraw(s) && |points| > 0 then
        var st := Stroke(points, DrawColor, s.me);
        Outcome(s.(strokes := s.strokes + [st]),
                if s.phase == OriginalDrawing then [StrokeMsg(st)] else [])
      else Outcome(s, [])
    case VoteClicked(k) =>
      if k < |s.ballot| then
        Outcome(ShowVoteResult(s.(votedWinner := s.ballot[k])), [VoteSubmitted(s.ballot[k])])
      else Outcome(s, [])
    case Unload =>
      Outcome(s, if Joined(s) then [PlayerLeft(s.me.value)] else [])
  }

  /** A series of events, the messages of each step concatenated in order. */
  function Run(s: State, es: seq<Event>): Outcome
    decreases |es|
  {
    if |es| == 0 then Outcome(s, [])
    else
      var o := Step(s, es[0]);
      var rest := Run(o.next, es[1..]);
      Outcome(rest.next, o.sent + rest.sent)
  }
}
