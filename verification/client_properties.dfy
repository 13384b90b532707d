/** Properties of one client's transition function, one group per kind of
    event. */
module ClientProperties {
  import opened Wrappers
  import opened Ids
  import opened Roster
  import opened RosterOps
  import opened Drawing
  import opened Recreations
  import opened TurnOrder
  import opened Timer
  import opened Client

  /** Every per-round field is back to empty or null. */
  predicate RoundCleared(s: State)
  {
    s.strokes == [] && s.original == [] && s.myRecreation == [] && s.recreations == []
    && s.votedWinner == None && s.ballot == []
  }

  // ---------------------------------------------------------------- roster

  /** A remote `playerJoined` adds the player only when its id is absent,
      re-sorts the roster when it does, keeps ids distinct, and is answered
      with this client's own `playerInfo` whenever this client has joined and
      the newcomer is someone else, whether or not it was already known. */
  lemma PlayerJoinedStep(s: State, p: Player)
    ensures var o := Step(s, Receive(PlayerJoined(p)));
            && o.next == s.(players := o.next.players)
            && (HasId(s.players, p.id) ==> o.next == s)
            && (!HasId(s.players, p.id) ==>
                  SortedById(o.next.players) && Elems(o.next.players) == Elems(s.players) + {p})
            && (DistinctIds(s.players) ==> DistinctIds(o.next.players))
            && (o.sent != [] <==> Joined(s) && s.me != Some(p.id))
            && (o.sent != [] ==> o.sent == [PlayerInfo(Player(s.me.value, s.selectedIcon))])
  {
    if DistinctIds(s.players) { JoinRemoteDistinct(s.players, p); }
  }

  /** `playerInfo` updates the roster exactly as a join does and sends nothing. */
  lemma PlayerInfoStep(s: State, p: Player)
    ensures var o := Step(s, Receive(PlayerInfo(p)));
            && o.sent == []
            && o.next == Step(s, Receive(PlayerJoined(p))).next
            && (HasId(s.players, p.id) ==> o.next == s)
            && (!HasId(s.players, p.id) ==>
                  SortedById(o.next.players) && Elems(o.next.players) == Elems(s.players) + {p})
            && (DistinctIds(s.players) ==> DistinctIds(o.next.players))
  {
    if DistinctIds(s.players) { JoinRemoteDistinct(s.players, p); }
  }

  /** A repeated join leaves the state as the first delivery made it. */
  lemma JoinIdempotent(s: State, p: Player)
    ensures var s1 := Step(s, Receive(PlayerJoined(p))).next;
            Step(s1, Receive(PlayerJoined(p))).next == s1
            && Step(s1, Receive(PlayerInfo(p))).next == s1
  {
  }

  /** Joins of two different players, when ids are not reused, leave the
      same state in either order. */
  lemma JoinsCommute(s: State, p: Player, q: Player)
    requires DistinctIds(s.players) && IdConsistent(Elems(s.players) + {p, q})
    ensures Run(s, [Receive(PlayerInfo(p)), Receive(PlayerInfo(q))]).next
            == Run(s, [Receive(PlayerInfo(q)), Receive(PlayerInfo(p))]).next
  {
    JoinRemoteCommutes(s.players, p, q);
    RunInfos(s, p, q);
    RunInfos(s, q, p);
  }

  /** Two `playerInfo` messages in a row apply two remote joins. */
  lemma RunInfos(s: State, p: Player, q: Player)
    ensures Run(s, [Receive(PlayerInfo(p)), Receive(PlayerInfo(q))]).next
            == s.(players := JoinRemote(JoinRemote(s.players, p), q))
  {
    var es := [Receive(PlayerInfo(p)), Receive(PlayerInfo(q))];
    var s1 := s.(players := JoinRemote(s.players, p));
    assert Step(s, es[0]).next == s1;
    assert es[1..] == [Receive(PlayerInfo(q))];
    assert Run(s1, es[1..]).next == Step(s1, Receive(PlayerInfo(q))).next;
  }

  /** `playerLeft` removes exactly the entries with that id, keeps the order
      of the rest, and changes nothing when the id is absent. */
  lemma PlayerLeftStep(s: State, id: Id)
    ensures var o := Step(s, Receive(PlayerLeft(id)));
            && o.sent == []
            && o.next == s.(players := o.next.players)
            && (forall q :: q in o.next.players <==> q in s.players && q.id != id)
            && !HasId(o.next.players, id)
            && (!HasId(s.players, id) ==> o.next == s)
            && (SortedById(s.players) ==> SortedById(o.next.players))
  {
    RemoveAbsent(s.players, id);
    if SortedById(s.players) { RemoveSorted(s.players, id); }
  }

  /** The local join appends this client's player without sorting and
      announces it; without a selected icon nothing happens. */
  lemma JoinClickedStep(s: State, id: Id)
    ensures var o := Step(s, JoinClicked(id));
            && (s.selectedIcon == "" ==> o == Outcome(s, []))
            && (s.selectedIcon != "" ==>
                  && o.next.me == Some(id)
                  && o.next.players == s.players + [Player(id, s.selectedIcon)]
                  && o.sent == [PlayerJoined(Player(id, s.selectedIcon))]
                  && o.next.phase == s.phase)
  {
  }

  /** A local join keeps a strictly sorted roster strictly sorted if and
      only if the new id is greater than every id already held. */
  lemma LocalJoinSorted(s: State, id: Id)
    requires StrictlySorted(s.players) && s.selectedIcon != ""
    ensures StrictlySorted(Step(s, JoinClicked(id)).next.players)
            <==> forall q :: q in s.players ==> Less(q.id, id)
  {
    var r := Step(s, JoinClicked(id)).next.players;
    assert r == s.players + [Player(id, s.selectedIcon)];
    if forall q :: q in s.players ==> Less(q.id, id) {
      forall i, j | 0 <= i < j < |r| ensures Less(r[i].id, r[j].id) {
        if j == |s.players| {
          assert r[i] in s.players;
        } else {
          assert r[i] == s.players[i] && r[j] == s.players[j];
        }
      }
    }
    if StrictlySorted(r) {
      forall q | q in s.players ensures Less(q.id, id) {
        var i :| 0 <= i < |s.players| && s.players[i] == q;
        assert r[i] == q && r[|s.players|].id == id;
      }
    }
  }

  // ---------------------------------------------------------------- start

  /** `startGame` starts a round only with at least three players: the
      drawer is the first roster entry, the round fields are cleared and
      `gameStarted` names that drawer. With fewer players nothing changes. */
  lemma StartGameStep(s: State, d: Id)
    ensures var o := Step(s, Receive(StartGame(d)));
            && (|s.players| < 3 ==> o == Outcome(s, []))
            && (|s.players| >= 3 ==>
                  && o.next.phase == OriginalDrawing
                  && o.next.drawer == Some(s.players[0].id)
                  && o.sent == [GameStarted(s.players[0].id)]
                  && o.next.players == s.players
                  && RoundCleared(o.next))
  {
  }

  /** The start button acts only with at least three players: it sorts the
      roster and proposes the player of least id, without leaving the
      current phase (the relay does not echo `startGame` back). */
  lemma StartClickedStep(s: State)
    ensures var o := Step(s, StartClicked);
            && (|s.players| < 3 ==> o == Outcome(s, []))
            && (|s.players| >= 3 ==>
                  && o.next == s.(players := o.next.players)
                  && multiset(o.next.players) == multiset(s.players)
                  && SortedById(o.next.players)
                  && o.sent == [StartGame(o.next.players[0].id)]
                  && (forall q :: q in s.players ==> !Less(q.id, o.next.players[0].id)))
  {
    if |s.players| >= 3 {
      var r := SortById(s.players);
      forall q | q in s.players ensures !Less(q.id, r[0].id) {
        assert q in multiset(r);
        var k :| 0 <= k < |r| && r[k] == q;
        if k > 0 {
          assert !Less(r[k].id, r[0].id);
        } else {
          LessIrreflexive(q.id);
        }
      }
    }
  }

  /** `gameStarted` and `nextRound` adopt the announced drawer and start a
      fresh round; only the drawer's client starts the drawing timer. */
  lemma RoundStartResets(s: State, d: Id)
    ensures var a := Step(s, Receive(GameStarted(d)));
            var b := Step(s, Receive(NextRound(d)));
            && a == b
            && a.sent == []
            && a.next.phase == OriginalDrawing && a.next.drawer == Some(d)
            && RoundCleared(a.next)
            && a.next.players == s.players
            && (s.me == Some(d) ==> a.next.timer == Some(PendingTimer(Countdown(DrawSeconds, DrawSeconds), FinishDrawing)))
            && (s.me != Some(d) ==> a.next.timer == s.timer)
  {
  }

  // ---------------------------------------------------------------- strokes

  /** A remote stroke is kept only while drawing the original. */
  lemma StrokeGate(s: State, st: Stroke)
    ensures var o := Step(s, Receive(StrokeMsg(st)));
            && o.sent == []
            && o.next == s.(strokes := o.next.strokes)
            && (s.phase == OriginalDrawing ==> o.next.strokes == s.strokes + [st])
            && (s.phase != OriginalDrawing ==> o.next == s)
  {
  }

  /** The pen draws only on the client whose turn it is: the drawer's while
      drawing the original, everyone else's while recreating. A finished
      path changes nothing in the waiting room, while viewing, in the
      gallery, on a non-drawer while the original is drawn, or on the drawer
      while the others recreate. */
  lemma PenUpTurns(s: State, points: seq<(int, int)>)
    ensures var o := Step(s, PenUp(points));
            && (s.phase in {Waiting, Viewing, Gallery} ==> o == Outcome(s, []))
            && (s.phase == OriginalDrawing && s.drawer != s.me ==> o == Outcome(s, []))
            && (s.phase == Recreating && s.drawer == s.me ==> o == Outcome(s, []))
            && (|points| > 0 && s.phase == OriginalDrawing && s.drawer == s.me ==>
                  o.next.strokes == s.strokes + [Stroke(points, DrawColor, s.me)] && o.sent != [])
            && (|points| > 0 && s.phase == Recreating && s.drawer != s.me ==>
                  o.next.strokes == s.strokes + [Stroke(points, DrawColor, s.me)] && o.sent == [])
  {
  }

  /** Two clients that agree on the phase and the drawer cannot both draw
      the original unless they are the same player, and the drawer never
      recreates. */
  lemma OneOriginalArtist(s1: State, s2: State)
    requires s1.phase == s2.phase && s1.drawer == s2.drawer
    ensures s1.phase == OriginalDrawing && CanDraw(s1) && CanDraw(s2) ==> s1.me == s2.me
    ensures s1.phase == Recreating && CanDraw(s1) ==> s1.me != s1.drawer
  {
  }

  /** A finished pen path is kept only when `canDraw()` holds and the path
      is not empty, and is broadcast only while drawing the original. */
  lemma PenUpGate(s: State, points: seq<(int, int)>)
    ensures var o := Step(s, PenUp(points));
            && (CanDraw(s) && |points| > 0 <==> |o.next.strokes| == |s.strokes| + 1)
            && (!(CanDraw(s) && |points| > 0) ==> o == Outcome(s, []))
            && (o.sent != [] <==> CanDraw(s) && |points| > 0 && s.phase == OriginalDrawing)
            && (o.sent != [] ==> o.sent == [StrokeMsg(o.next.strokes[|s.strokes|])])
            && (CanDraw(s) && |points| > 0 ==> o.next == s.(strokes := s.strokes + [Stroke(points, DrawColor, s.me)]))
  {
  }

  // ---------------------------------------------------------------- phases

  /** When the drawer's drawing timer runs out, the canvas becomes the
      original, is broadcast, and the viewing phase starts with its timer. */
  lemma DrawingTimeUp(s: State)
    requires s.timer.Some? && s.timer.value.onComplete == FinishDrawing
    requires s.timer.value.clock.timeLeft <= 1
    ensures var o := Step(s, Tick);
            && o.sent == [OriginalComplete(s.strokes)]
            && o.next.original == s.strokes && o.next.strokes == s.strokes
            && o.next.phase == Viewing
            && o.next.timer == Some(PendingTimer(Countdown(ViewSeconds, ViewSeconds), FinishViewing))
  {
  }

  /** `originalComplete` shows the announced drawing and starts viewing. */
  lemma OriginalCompleteStep(s: State, drawing: Strokes)
    ensures var o := Step(s, Receive(OriginalComplete(drawing)));
            && o.sent == []
            && o.next.original == drawing && o.next.strokes == drawing
            && o.next.phase == Viewing
            && o.next.timer == Some(PendingTimer(Countdown(ViewSeconds, ViewSeconds), FinishViewing))
            && o.next.players == s.players && o.next.drawer == s.drawer
  {
  }

  /** When the viewing timer runs out, recreating starts here and is
      announced to the others. */
  lemma ViewingTimeUp(s: State)
    requires s.timer.Some? && s.timer.value.onComplete == FinishViewing
    requires s.timer.value.clock.timeLeft <= 1
    ensures var o := Step(s, Tick);
            && o.sent == [StartRecreating]
            && o.next.phase == Recreating && o.next.strokes == []
            && o.next == Step(s.(timer := None), Receive(StartRecreating)).next
  {
  }

  /** `startRecreating` clears the canvas; only a non-drawer starts the
      recreation timer, and the drawer keeps whatever timer it had. */
  lemma StartRecreatingStep(s: State)
    ensures var o := Step(s, Receive(StartRecreating));
            && o.sent == []
            && o.next.phase == Recreating && o.next.strokes == []
            && (s.drawer != s.me ==>
                  o.next.timer == Some(PendingTimer(Countdown(RecreateSeconds, RecreateSeconds), SubmitRecreation)))
            && (s.drawer == s.me ==> o.next.timer == s.timer)
            && o.next.original == s.original && o.next.recreations == s.recreations
  {
  }

  /** Closing the page announces the leave exactly when this client has
      joined, and changes nothing locally. */
  lemma UnloadStep(s: State)
    ensures var o := Step(s, Unload);
            && o.next == s
            && (o.sent != [] <==> s.me.Some? && s.me.value != "")
            && (o.sent != [] ==> o.sent == [PlayerLeft(s.me.value)])
  {
  }

  // ---------------------------------------------------------------- quorum

  /** `recreationSubmitted` stores at most one recreation per player (the
      first received wins, nothing stored is ever replaced) and moves to the
      gallery, broadcasting the collection, exactly when the stored count
      reaches the live roster size minus one. */
  lemma RecreationStep(s: State, pid: Option<Id>, drawing: Strokes)
    ensures var o := Step(s, Receive(RecreationSubmitted(pid, drawing)));
            var quorum := |o.next.recreations| >= |s.players| - 1;
            && s.recreations <= o.next.recreations
            && |o.next.recreations| <= |s.recreations| + 1
            && (HasKey(s.recreations, pid) ==> o.next.recreations == s.recreations)
            && (!HasKey(s.recreations, pid) ==>
                  o.next.recreations[|s.recreations|] == Recreation(pid, drawing, IconFor(s.players, pid)))
            && (UniqueKeys(s.recreations) ==> UniqueKeys(o.next.recreations))
            && (quorum ==> o.next.phase == Gallery && o.sent == [ShowGallery(o.next.recreations)])
            && (!quorum ==> o.sent == [] && o.next == s.(recreations := o.next.recreations))
            && o.next.players == s.players && o.next.drawer == s.drawer && o.next.timer == s.timer
  {
  }

  /** The gallery is not announced exactly once: once the quorum is met, a
      duplicate submission is ignored for storage but announces the gallery
      again. */
  lemma GalleryRepeats(s: State, pid: Option<Id>, drawing: Strokes)
    requires HasKey(s.recreations, pid) && |s.recreations| >= |s.players| - 1
    ensures var o := Step(s, Receive(RecreationSubmitted(pid, drawing)));
            o.next.recreations == s.recreations && o.sent == [ShowGallery(s.recreations)]
  {
  }

  /** A non-drawer's own submission stores its recreation under its id, if
      none is stored yet, and broadcasts it, but never checks the quorum:
      the phase stays where it was. */
  lemma OwnSubmission(s: State)
    requires s.timer.Some? && s.timer.value.onComplete == SubmitRecreation
    requires s.timer.value.clock.timeLeft <= 1
    ensures var o := Step(s, Tick);
            && o.sent == [RecreationSubmitted(s.me, s.strokes)]
            && o.next.myRecreation == s.strokes
            && (HasKey(s.recreations, s.me) ==> o.next.recreations == s.recreations)
            && (!HasKey(s.recreations, s.me) ==>
                  o.next.recreations == s.recreations + [Recreation(s.me, s.strokes, s.selectedIcon)])
            && o.next.phase == s.phase
            && o.next.timer == None
  {
  }

  /** `showGallery` adopts the announced collection as it is. */
  lemma ShowGalleryStep(s: State, recs: seq<Recreation>)
    ensures var o := Step(s, Receive(ShowGallery(recs)));
            && o.sent == []
            && o.next.recreations == recs && o.next.phase == Gallery
            && (o.next.ballot != [] ==> s.drawer == s.me)
            && (s.drawer == s.me ==>
                  |o.next.ballot| == |recs| && forall i :: 0 <= i < |recs| ==> o.next.ballot[i] == recs[i].playerId)
  {
  }

  // ---------------------------------------------------------------- vote

  /** `voteSubmitted` records the winner and starts the five-second timer
      to the next round; the phase does not change. */
  lemma VoteSubmittedStep(s: State, w: Option<Id>)
    ensures var o := Step(s, Receive(VoteSubmitted(w)));
            && o.sent == []
            && o.next.phase == s.phase
            && o.next.votedWinner == w
            && o.next.ballot == []
            && o.next.timer == Some(PendingTimer(Countdown(VoteResultSeconds, VoteResultSeconds), NextRoundDue))
            && o.next.recreations == s.recreations && o.next.players == s.players
  {
  }

  /** The drawer's click on a gallery entry votes for that entry's player,
      closes the ballot and sends the vote; a click outside it does nothing. */
  lemma VoteClickedStep(s: State, k: nat)
    ensures var o := Step(s, VoteClicked(k));
            && (k >= |s.ballot| ==> o == Outcome(s, []))
            && (k < |s.ballot| ==>
                  && o.sent == [VoteSubmitted(s.ballot[k])]
                  && o.next.votedWinner == s.ballot[k]
                  && o.next.ballot == []
                  && o.next.phase == s.phase)
  {
  }

  // ---------------------------------------------------------------- rotation

  /** When the vote-result timer runs out on an empty roster nothing
      happens but the timer is gone; a drawer missing from the roster hands
      over to the first entry. */
  lemma NextRoundDueStep(s: State)
    requires s.timer.Some? && s.timer.value.onComplete == NextRoundDue
    requires s.timer.value.clock.timeLeft <= 1
    ensures var o := Step(s, Tick);
            && (|s.players| == 0 ==> o == Outcome(s.(timer := None), []))
            && (|s.players| > 0 && IndexOf(s.players, s.drawer) == -1 ==>
                  && o.next.drawer == Some(s.players[0].id) && o.sent == [NextRound(s.players[0].id)]
                  && o.next.phase == OriginalDrawing && RoundCleared(o.next))
  {
  }

  /** ... otherwise the player after the current drawer, in roster order
      and wrapping at the end, is announced and starts a fresh round. */
  lemma NextRoundRotates(s: State, i: int)
    requires s.timer.Some? && s.timer.value.onComplete == NextRoundDue
    requires s.timer.value.clock.timeLeft <= 1
    requires DistinctIds(s.players) && 0 <= i < |s.players| && s.drawer == Some(s.players[i].id)
    ensures var o := Step(s, Tick);
            var n := s.players[(i + 1) % |s.players|].id;
            && o.next.drawer == Some(n) && o.sent == [NextRound(n)]
            && o.next.phase == OriginalDrawing && RoundCleared(o.next)
            && o.next.players == s.players
  {
    NextDrawerAfter(s.players, i);
    ModSucc(i, |s.players|);
  }

  // ---------------------------------------------------------------- timers

  function Ticks(k: nat): (es: seq<Event>)
    ensures |es| == k && forall i :: 0 <= i < k ==> es[i] == Tick
  {
    if k == 0 then [] else [Tick] + Ticks(k - 1)
  }

  /** A timer started for `n` seconds leaves the state alone, apart from its
      own countdown, for `n - 1` ticks. */
  lemma {:induction false} QuietTicks(s: State, n: int, k: nat, cb: Callback)
    requires k < n
    requires s.timer == Some(PendingTimer(Countdown(n, n), cb))
    ensures Run(s, Ticks(k)) == Outcome(s.(timer := Some(PendingTimer(Countdown(n - k, n), cb))), [])
    decreases k
  {
    if k > 0 {
      var s1 := s.(timer := Some(PendingTimer(Countdown(n - 1, n), cb)));
      assert Step(s, Tick) == Outcome(s1, []);
      assert Ticks(k)[1..] == Ticks(k - 1);
      QuietTicksFrom(s1, n, n - 1, k - 1, cb);
    }
  }

  lemma {:induction false} QuietTicksFrom(s: State, n: int, left: int, k: nat, cb: Callback)
    requires k < left
    requires s.timer == Some(PendingTimer(Countdown(left, n), cb))
    ensures Run(s, Ticks(k)) == Outcome(s.(timer := Some(PendingTimer(Countdown(left - k, n), cb))), [])
    decreases k
  {
    if k > 0 {
      var s1 := s.(timer := Some(PendingTimer(Countdown(left - 1, n), cb)));
      assert Step(s, Tick) == Outcome(s1, []);
      assert Ticks(k)[1..] == Ticks(k - 1);
      QuietTicksFrom(s1, n, left - 1, k - 1, cb);
      assert s1.(timer := Some(PendingTimer(Countdown(left - 1 - (k - 1), n), cb)))
          == s.(timer := Some(PendingTimer(Countdown(left - k, n), cb)));
    }
  }

  /** ... and the `n`-th tick runs its callback. */
  lemma TimerFiresOnTime(s: State, n: int, cb: Callback)
    requires n >= 1
    requires s.timer == Some(PendingTimer(Countdown(n, n), cb))
    ensures Step(Run(s, Ticks(n - 1)).next, Tick) == Complete(s.(timer := None), cb)
  {
    QuietTicks(s, n, n - 1, cb);
  }

  // ---------------------------------------------------------------- frame

  /** A tick on which the pending timer runs out with callback `cb`. */
  predicate Fires(s: State, e: Event, cb: Callback)
  {
    e.Tick? && s.timer.Some? && s.timer.value.clock.timeLeft <= 1 && s.timer.value.onComplete == cb
  }

  /** The events that edit the roster: remote joins and leaves, and the
      local join and start buttons. */
  predicate RosterEvent(e: Event)
  {
    || (e.Receive? && (e.msg.PlayerJoined? || e.msg.PlayerInfo? || e.msg.PlayerLeft?))
    || e.JoinClicked?
    || e.StartClicked?
  }

  /** Every event other than a roster event leaves the roster as it is. */
  lemma RosterFrame(s: State, e: Event)
    ensures !RosterEvent(e) ==> Step(s, e).next.players == s.players
  {
    if e.Tick? && s.timer.Some? {
      var t := s.timer.value;
      match t.onComplete
      case FinishDrawing =>
      case FinishViewing =>
      case SubmitRecreation =>
      case NextRoundDue =>
    }
  }

  /** The stored recreations change only when one is submitted or the
      gallery is adopted, or when a round starts and clears them. */
  lemma RecreationsFrame(s: State, e: Event)
    ensures Step(s, e).next.recreations != s.recreations ==>
              || (e.Receive? && (e.msg.RecreationSubmitted? || e.msg.ShowGallery?
                                 || e.msg.StartGame? || e.msg.GameStarted? || e.msg.NextRound?))
              || Fires(s, e, SubmitRecreation)
              || Fires(s, e, NextRoundDue)
  {
  }

  /** The canvas changes only by strokes, `clear`, the messages and timers
      that switch phase, and the start of a round. */
  lemma StrokesFrame(s: State, e: Event)
    ensures Step(s, e).next.strokes != s.strokes ==>
              || (e.Receive? && (e.msg.StrokeMsg? || e.msg.Clear? || e.msg.OriginalComplete?
                                 || e.msg.StartRecreating? || e.msg.StartGame?
                                 || e.msg.GameStarted? || e.msg.NextRound?))
              || e.PenUp?
              || Fires(s, e, FinishViewing)
              || Fires(s, e, NextRoundDue)
  {
  }

  /** This client's id is set only by the join button, and its icon only
      by choosing one. */
  lemma IdentityFrame(s: State, e: Event)
    ensures Step(s, e).next.me != s.me ==> e.JoinClicked?
    ensures Step(s, e).next.selectedIcon != s.selectedIcon ==> e.SelectIcon?
  {
    match e
    case Receive(m) => HandleKeepsIdentity(s, m);
    case Tick => TickKeepsIdentity(s);
    case _ =>
  }

  lemma HandleKeepsIdentity(s: State, m: Message)
    ensures Step(s, Receive(m)).next.me == s.me
    ensures Step(s, Receive(m)).next.selectedIcon == s.selectedIcon
  {
  }

  lemma TickKeepsIdentity(s: State)
    ensures Step(s, Tick).next.me == s.me
    ensures Step(s, Tick).next.selectedIcon == s.selectedIcon
  {
    if s.timer.Some? {
      match s.timer.value.onComplete
      case FinishDrawing =>
      case FinishViewing =>
      case SubmitRecreation =>
      case NextRoundDue =>
    }
  }

  /** Of the relay messages only `playerJoined`, `startGame` and
      `recreationSubmitted` are ever answered; an unknown message type
      changes nothing at all. */
  lemma QuietMessages(s: State, m: Message)
    ensures Step(s, Receive(m)).sent != [] ==> m.PlayerJoined? || m.StartGame? || m.RecreationSubmitted?
    ensures m.Unrecognized? ==> Step(s, Receive(m)) == Outcome(s, [])
  {
  }

  // ---------------------------------------------------------------- invariants

  /** No event makes two roster entries share an id, provided the locally
      generated id is fresh. */
  lemma StepKeepsDistinctIds(s: State, e: Event)
    requires DistinctIds(s.players)
    requires e.JoinClicked? ==> !HasId(s.players, e.id)
    ensures DistinctIds(Step(s, e).next.players)
  {
    match e
    case Receive(m) =>
      match m {
        case PlayerJoined(p) => JoinRemoteDistinct(s.players, p);
        case PlayerInfo(p) => JoinRemoteDistinct(s.players, p);
        case PlayerLeft(id) => RemoveDistinct(s.players, id);
        case _ =>
          RosterFrame(s, e);
      }
    case JoinClicked(id) =>
      if s.selectedIcon != "" { DistinctAppend(s.players, Player(id, s.selectedIcon)); }
    case StartClicked =>
      if |s.players| >= 3 {
        var r := SortById(s.players);
        forall i, j | 0 <= i < j < |r| ensures r[i].id != r[j].id {
          SortKeepsDistinct(s.players, i, j);
        }
      }
    case Tick =>
      RosterFrame(s, e);
    case _ =>
  }

  /** Sorting does not create a repeated id. */
  lemma SortKeepsDistinct(s: seq<Player>, i: int, j: int)
    requires DistinctIds(s)
    requires 0 <= i < j < |SortById(s)|
    ensures SortById(s)[i].id != SortById(s)[j].id
  {
    SortByIdStrict(s);
    LessIrreflexive(SortById(s)[i].id);
  }

  /** No event stores two recreations from the same player, provided an
      adopted gallery list has that property itself. */
  lemma StepKeepsUniqueRecreations(s: State, e: Event)
    requires UniqueKeys(s.recreations)
    requires e.Receive? && e.msg.ShowGallery? ==> UniqueKeys(e.msg.recreations)
    ensures UniqueKeys(Step(s, e).next.recreations)
  {
    match e
    case Receive(m) =>
      if m.RecreationSubmitted? {
        RecreationStep(s, m.playerId, m.drawing);
      }
    case Tick =>
    case _ =>
  }
}
