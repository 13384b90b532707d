/** Choosing the next drawer (`startNextRound` in draw.js): the player after
    the current drawer in roster order, wrapping round to the front. */
module TurnOrder {
  import opened Wrappers
  import opened Ids
  import opened Roster

  /** `players[(players.findIndex(p => p.id === currentDrawer) + 1) % players.length]`.
      The index found lies in `-1 .. n - 1`, where the remainder is the
      successor wrapping `n` to `0` (`NextDrawerIsModular`). On an empty
      roster the source reads `.id` of `undefined` and throws, so there is
      no next drawer. */
  function NextDrawer(players: seq<Player>, drawer: Option<Id>): (r: Option<Player>)
    ensures r.None? <==> |players| == 0
    ensures r.Some? ==> r.value in players
    ensures r.Some? && IndexOf(players, drawer) == -1 ==> r.value == players[0]
  {
    if |players| == 0 then None
    else
      var i := IndexOf(players, drawer);
      Some(players[if i + 1 == |players| then 0 else i + 1])
  }

  lemma ModSucc(j: int, n: int)
    requires n > 0 && -1 <= j < n
    ensures (j + 1) % n == if j + 1 == n then 0 else j + 1
  {
    if j + 1 == n {
      assert n == 1 * n + 0;
    } else {
      assert j + 1 == 0 * n + (j + 1);
    }
  }

  /** The successor-with-wrap above is the source's `% players.length`. */
  lemma NextDrawerIsModular(players: seq<Player>, drawer: Option<Id>)
    requires |players| > 0
    ensures NextDrawer(players, drawer)
            == Some(players[(IndexOf(players, drawer) + 1) % |players|])
  {
    ModSucc(IndexOf(players, drawer), |players|);
  }

  /** With distinct ids, the drawer at position `j` is followed by position
      `j + 1`, and the last by the first. */
  lemma NextDrawerAfter(players: seq<Player>, j: int)
    requires DistinctIds(players) && 0 <= j < |players|
    ensures NextDrawer(players, Some(players[j].id))
            == Some(players[if j + 1 == |players| then 0 else j + 1])
  {
    assert IndexOf(players, Some(players[j].id)) == j;
  }

  /** The drawer after `k` round changes starting from drawer `start`. */
  function DrawerAfter(players: seq<Player>, start: Option<Id>, k: nat): Option<Id>
  {
    if k == 0 then start
    else match NextDrawer(players, DrawerAfter(players, start, k - 1))
      case None => None
      case Some(p) => Some(p.id)
  }

  /** One round change moves the drawer from position `j` to the next. */
  lemma DrawerAfterStep(players: seq<Player>, start: Option<Id>, k: nat, j: int)
    requires DistinctIds(players) && 0 <= j < |players| && k >= 1
    requires DrawerAfter(players, start, k - 1) == Some(players[j].id)
    ensures DrawerAfter(players, start, k)
            == Some(players[if j + 1 == |players| then 0 else j + 1].id)
  {
    NextDrawerAfter(players, j);
  }

  /** Roster position of the `k`-th drawer, counted from position `b` of
      the first: `(b + k - 1) mod n` written without `%`. */
  function Position(b: int, k: int, n: int): int
  {
    if b + k - 1 < n then b + k - 1 else b + k - 1 - n
  }

  /** The first drawer chosen from `start` sits at some roster position `b`. */
  lemma FirstDrawer(players: seq<Player>, start: Option<Id>) returns (b: int)
    requires |players| > 0
    ensures 0 <= b < |players| && DrawerAfter(players, start, 1) == Some(players[b].id)
  {
    var i := IndexOf(players, start);
    b := if i + 1 == |players| then 0 else i + 1;
    assert DrawerAfter(players, start, 0) == start;
  }

  lemma {:induction false} DrawerAfterPosition(players: seq<Player>, start: Option<Id>, b: int, k: nat)
    requires DistinctIds(players) && 0 <= b < |players|
    requires DrawerAfter(players, start, 1) == Some(players[b].id)
    requires 1 <= k <= |players| + 1
    ensures 0 <= Position(b, k, |players|) < |players|
    ensures DrawerAfter(players, start, k) == Some(players[Position(b, k, |players|)].id)
  {
    if k > 1 {
      var n := |players|;
      var j := Position(b, k - 1, n);
      DrawerAfterPosition(players, start, b, k - 1);
      DrawerAfterStep(players, start, k, j);
      assert (if j + 1 == n then 0 else j + 1) == Position(b, k, n);
    }
  }

  /** Over `n` consecutive rounds on a roster of `n` distinct players no
      player draws twice. */
  lemma RotationDistinct(players: seq<Player>, start: Option<Id>)
    requires DistinctIds(players) && |players| > 0
    ensures forall k1, k2 :: 1 <= k1 < k2 <= |players| ==>
              DrawerAfter(players, start, k1) != DrawerAfter(players, start, k2)
  {
    var b := FirstDrawer(players, start);
    forall k1, k2 | 1 <= k1 < k2 <= |players|
      ensures DrawerAfter(players, start, k1) != DrawerAfter(players, start, k2)
    {
      DrawerAfterPosition(players, start, b, k1);
      DrawerAfterPosition(players, start, b, k2);
    }
  }

  /** The round, counted from 1, in which roster position `i` draws when
      the first round's drawer sits at position `b`. */
  function Turn(b: int, i: int, n: int): int
  {
    if i >= b then i - b + 1 else i - b + 1 + n
  }

  /** Over `n` consecutive rounds every player of the roster draws, whatever
      the starting drawer: position `i` draws in round `Turn(b, i, n)`. */
  lemma RotationCovers(players: seq<Player>, start: Option<Id>) returns (b: int)
    requires DistinctIds(players) && |players| > 0
    ensures 0 <= b < |players| && DrawerAfter(players, start, 1) == Some(players[b].id)
    ensures forall i :: 0 <= i < |players| ==>
              1 <= Turn(b, i, |players|) <= |players|
              && DrawerAfter(players, start, Turn(b, i, |players|)) == Some(players[i].id)
  {
    var n := |players|;
    b := FirstDrawer(players, start);
    forall i | 0 <= i < n
      ensures 1 <= Turn(b, i, n) <= n && DrawerAfter(players, start, Turn(b, i, n)) == Some(players[i].id)
    {
      var k := Turn(b, i, n);
      assert 1 <= k <= n && Position(b, k, n) == i;
      DrawerAfterPosition(players, start, b, k);
    }
  }

  /** Round `n + 1` hands the pen back to the drawer of round 1. */
  lemma RotationPeriodic(players: seq<Player>, start: Option<Id>)
    requires DistinctIds(players) && |players| > 0
    ensures DrawerAfter(players, start, |players| + 1) == DrawerAfter(players, start, 1)
  {
    var b := FirstDrawer(players, start);
    DrawerAfterPosition(players, start, b, |players| + 1);
  }
}
