/** Concrete runs with three players `A`, `B`, `C` (ids in that order)
    that show how the code behaves where the message ordering it relies on
    does not hold. */
module Scenarios {
  import opened Wrappers
  import opened Ids
  import opened Roster
  import opened RosterOps
  import opened Drawing
  import opened Recreations
  import opened Timer
  import opened Client
  import ClientProperties

  const PA := Player("A", "a")
  const PB := Player("B", "b")
  const PC := Player("C", "c")

  /** A client that has joined as `me` and knows all three players. */
  function InGame(me: Id, players: seq<Player>, phase: Phase, drawer: Id): State
  {
    Initial().(me := Some(me), selectedIcon := "x", players := players, phase := phase,
               drawer := Some(drawer))
  }

  lemma Icons()
    ensures IconFor([PA, PB, PC], Some("B")) == "b"
    ensures IconFor([PA, PB, PC], Some("C")) == "c"
  {
    assert [PA, PB, PC][1..] == [PB, PC];
    assert [PB, PC][1..] == [PC];
    assert FindById([PC], "C") == Some(PC);
    assert FindById([PB, PC], "C") == Some(PC);
    assert FindById([PA, PB, PC], "B") == Some(PB);
  }

  /** `B`'s first recreation is stored with `B`'s icon; one of three
      players' recreations is not yet a quorum. */
  lemma FirstFromB(s: State, db: Strokes)
    requires s.players == [PA, PB, PC] && s.recreations == []
    ensures Step(s, Receive(RecreationSubmitted(Some("B"), db)))
            == Outcome(s.(recreations := [Recreation(Some("B"), db, "b")]), [])
  {
    Icons();
  }

  /** A second recreation from `B` changes nothing. */
  lemma AgainFromB(s: State, db: Strokes, db2: Strokes)
    requires s.players == [PA, PB, PC] && s.recreations == [Recreation(Some("B"), db, "b")]
    ensures Step(s, Receive(RecreationSubmitted(Some("B"), db2))) == Outcome(s, [])
  {
    assert s.recreations[0].playerId == Some("B");
  }

  /** `C`'s recreation completes the quorum of two. */
  lemma ThenFromC(s: State, db: Strokes, dc: Strokes)
    requires s.players == [PA, PB, PC] && s.recreations == [Recreation(Some("B"), db, "b")]
    ensures var o := Step(s, Receive(RecreationSubmitted(Some("C"), dc)));
            var recs := [Recreation(Some("B"), db, "b"), Recreation(Some("C"), dc, "c")];
            o.next.phase == Gallery && o.next.recreations == recs && o.sent == [ShowGallery(recs)]
  {
    Icons();
    assert !HasKey(s.recreations, Some("C"));
  }

  /** A client of the three players collecting recreations: `B` submits
      twice, then `C` once. The duplicate is dropped and the gallery opens
      exactly when `C`'s recreation arrives; a later duplicate announces it
      again. */
  lemma DuplicateThenQuorum(s0: State, db: Strokes, db2: Strokes, dc: Strokes)
    requires s0.players == [PA, PB, PC] && s0.recreations == []
    ensures var o1 := Step(s0, Receive(RecreationSubmitted(Some("B"), db)));
            var o2 := Step(o1.next, Receive(RecreationSubmitted(Some("B"), db2)));
            var o3 := Step(o2.next, Receive(RecreationSubmitted(Some("C"), dc)));
            var o4 := Step(o3.next, Receive(RecreationSubmitted(Some("B"), db2)));
            && o1.sent == [] && o2.sent == [] && o1.next == o2.next
            && o3.next.phase == Gallery
            && o3.next.recreations == [Recreation(Some("B"), db, "b"), Recreation(Some("C"), dc, "c")]
            && o3.sent == [ShowGallery(o3.next.recreations)]
            && o4.sent == o3.sent
  {
    var o1 := Step(s0, Receive(RecreationSubmitted(Some("B"), db)));
    FirstFromB(s0, db);
    AgainFromB(o1.next, db, db2);
    ThenFromC(o1.next, db, dc);
    var o3 := Step(o1.next, Receive(RecreationSubmitted(Some("C"), dc)));
    assert HasKey(o3.next.recreations, Some("B"));
    ClientProperties.GalleryRepeats(o3.next, Some("B"), db2);
  }

  /** Player `C`'s client saw `A`'s vote, which started its own
      five-second vote-result timer; `A`'s client then announced `B` as
      the next drawer. `C` is not that drawer, so its stale timer stays
      pending; when it runs out, `C`'s client announces `C` as drawer in
      the middle of `B`'s round, and `B` loses its turn. */
  lemma StaleVoteTimer(w: Option<Id>)
    ensures var s0 := InGame("C", [PA, PB, PC], Gallery, "A");
            var s1 := Step(s0, Receive(VoteSubmitted(w))).next;
            var s2 := Step(s1, Receive(NextRound("B"))).next;
            && s2.phase == OriginalDrawing && s2.drawer == Some("B")
            && s2.timer == Some(PendingTimer(Countdown(VoteResultSeconds, VoteResultSeconds), NextRoundDue))
            && var s3 := Run(s2, ClientProperties.Ticks(VoteResultSeconds - 1)).next;
               var o := Step(s3, Tick);
               o.sent == [NextRound("C")] && o.next.drawer == Some("C") && o.next.phase == OriginalDrawing
  {
    var s0 := InGame("C", [PA, PB, PC], Gallery, "A");
    var s1 := Step(s0, Receive(VoteSubmitted(w))).next;
    var s2 := Step(s1, Receive(NextRound("B"))).next;
    assert s2.drawer == Some("B") && s2.me == Some("C");
    ClientProperties.QuietTicks(s2, VoteResultSeconds, VoteResultSeconds - 1, NextRoundDue);
    var s3 := Run(s2, ClientProperties.Ticks(VoteResultSeconds - 1)).next;
    assert s3.players == [PA, PB, PC] && s3.drawer == Some(PB.id);
    assert DistinctIds(s3.players);
    ClientProperties.NextRoundRotates(s3, 1);
  }

  /** A player who joins locally with the least id appends itself at the
      end of its roster. When `startGame` arrives, its client picks the
      first entry of that unsorted roster, while a client holding the
      sorted roster picks the least id: the two disagree on the drawer. */
  lemma UnsortedLocalJoin()
    ensures var joiner := Step(Initial().(selectedIcon := "a", players := [PB, PC]), JoinClicked("A")).next;
            var other := InGame("B", [PA, PB, PC], Waiting, "B").(drawer := None);
            && joiner.players == [PB, PC, PA]
            && Step(joiner, Receive(StartGame("A"))).next.drawer == Some("B")
            && Step(other, Receive(StartGame("A"))).next.drawer == Some("A")
  {
  }
}
