/** Strokes and drawings: opaque payloads as far as the game state is concerned. */
module Drawing {
  import opened Wrappers
  import opened Ids

  /** One pen stroke. The pressure-shaping parameters (size, thinning,
      smoothing, streamline) are floating point and only read by the
      renderer, so the model keeps the path, the colour and the author. */
  datatype Stroke = Stroke(points: seq<(int, int)>, color: string, playerId: Option<Id>)

  type Strokes = seq<Stroke>
}

/** The collection of recreations (`allRecreations` in draw.js): at most one
    entry per submitting player, the first one received wins. */
module Recreations {
  import opened Wrappers
  import opened Ids
  import opened Roster
  import opened Drawing

  datatype Recreation = Recreation(playerId: Option<Id>, drawing: Strokes, playerIcon: string)

  /** The icon shown when the submitter is unknown or has an empty icon. */
  const DefaultIcon: string := "\U{1F3A8}"

  /** `players.find(p => p.id === id)?.icon || '🎨'`: the first roster entry's
      icon, unless there is none or it is the empty (falsy) string. */
  function IconFor(players: seq<Player>, id: Option<Id>): (icon: string)
    ensures icon != ""
    ensures (id.None? || !HasId(players, id.value)) ==> icon == DefaultIcon
    ensures icon != DefaultIcon ==>
              exists i :: 0 <= i < |players| && Some(players[i].id) == id && players[i].icon == icon
                          && forall j :: 0 <= j < i ==> Some(players[j].id) != id
    ensures id.Some? && FindById(players, id.value).Some? ==>
              icon == if FindById(players, id.value).value.icon != "" then FindById(players, id.value).value.icon
                      else DefaultIcon
  {
    if id.None? then DefaultIcon
    else match FindById(players, id.value)
      case None => DefaultIcon
      case Some(p) => if p.icon != "" then p.icon else DefaultIcon
  }

  predicate HasKey(recs: seq<Recreation>, key: Option<Id>)
  {
    exists i :: 0 <= i < |recs| && recs[i].playerId == key
  }

  function Keys(recs: seq<Recreation>): set<Option<Id>>
  {
    set r | r in recs :: r.playerId
  }

  /** At most one recreation per submitting player. */
  predicate UniqueKeys(recs: seq<Recreation>)
  {
    forall i, j :: 0 <= i < j < |recs| ==> recs[i].playerId != recs[j].playerId
  }

  /** Stores `r` unless a recreation from the same player is already held
      (`findIndex(...) === -1` before `push`). */
  function Offer(recs: seq<Recreation>, r: Recreation): (out: seq<Recreation>)
    ensures recs <= out
    ensures HasKey(recs, r.playerId) ==> out == recs
    ensures !HasKey(recs, r.playerId) ==> |out| == |recs| + 1 && out[|recs|] == r
    ensures HasKey(out, r.playerId)
    ensures UniqueKeys(recs) ==> UniqueKeys(out)
    ensures Keys(out) == Keys(recs) + {r.playerId}
  {
    if HasKey(recs, r.playerId) then
      var i :| 0 <= i < |recs| && recs[i].playerId == r.playerId;
      assert recs[i] in recs;
      recs
    else
      var out := recs + [r];
      assert out[|recs|] == r;
      assert Keys(out) == Keys(recs) + {r.playerId} by {
        forall k ensures k in Keys(out) <==> k in Keys(recs) + {r.playerId} {
          if k in Keys(out) {
            var x :| x in out && x.playerId == k;
            if x != r { assert x in recs; }
          }
        }
      }
      out
  }

  /** Delivers a series of recreations in the order given. */
  function OfferAll(recs: seq<Recreation>, rs: seq<Recreation>): seq<Recreation>
    decreases |rs|
  {
    if |rs| == 0 then recs else OfferAll(Offer(recs, rs[0]), rs[1..])
  }

  /** However many times each recreation is delivered, the collection ends up
      with exactly one entry per distinct submitter, and what was already
      stored is never replaced. */
  lemma {:induction false} OfferAllKeys(recs: seq<Recreation>, rs: seq<Recreation>)
    requires UniqueKeys(recs)
    ensures UniqueKeys(OfferAll(recs, rs))
    ensures Keys(OfferAll(recs, rs)) == Keys(recs) + Keys(rs)
    ensures recs <= OfferAll(recs, rs)
    decreases |rs|
  {
    if |rs| > 0 {
      KeysCons(rs);
      OfferAllKeys(Offer(recs, rs[0]), rs[1..]);
    }
  }

  /** The keys of a collection split at its first entry. */
  lemma KeysCons(rs: seq<Recreation>)
    requires |rs| > 0
    ensures Keys(rs) == {rs[0].playerId} + Keys(rs[1..])
  {
    assert rs == [rs[0]] + rs[1..];
    forall k ensures k in Keys(rs) <==> k in {rs[0].playerId} + Keys(rs[1..]) {
      if k in Keys(rs) {
        var x :| x in rs && x.playerId == k;
        if x != rs[0] { assert x in rs[1..]; }
      }
      if k in Keys(rs[1..]) {
        var x :| x in rs[1..] && x.playerId == k;
        assert x in rs;
      }
    }
  }

  /** The keys of a collection with one more entry at the end. */
  lemma KeysSnoc(init: seq<Recreation>, last: Recreation)
    ensures Keys(init + [last]) == Keys(init) + {last.playerId}
  {
    var recs := init + [last];
    forall k ensures k in Keys(recs) <==> k in Keys(init) + {last.playerId} {
      if k in Keys(recs) {
        var x :| x in recs && x.playerId == k;
        if x != last {
          var i :| 0 <= i < |recs| && recs[i] == x;
          assert i < |init| && init[i] == x;
        }
      }
    }
  }

  /** Dropping the last entry keeps keys unique, and that entry's key is
      not among the rest. */
  lemma UniqueKeysInit(recs: seq<Recreation>)
    requires UniqueKeys(recs) && |recs| > 0
    ensures UniqueKeys(recs[..|recs| - 1])
    ensures recs[|recs| - 1].playerId !in Keys(recs[..|recs| - 1])
  {
    var init := recs[..|recs| - 1];
    forall x | x in init ensures x.playerId != recs[|recs| - 1].playerId {
      var i :| 0 <= i < |init| && init[i] == x;
      assert recs[i] == x;
    }
  }

  /** A last entry with a new key adds one key. */
  lemma KeysCountStep(recs: seq<Recreation>)
    requires |recs| > 0 && recs[|recs| - 1].playerId !in Keys(recs[..|recs| - 1])
    ensures |Keys(recs)| == |Keys(recs[..|recs| - 1])| + 1
  {
    KeysSnoc(recs[..|recs| - 1], recs[|recs| - 1]);
    assert recs == recs[..|recs| - 1] + [recs[|recs| - 1]];
  }

  /** With one entry per submitter, the count is the number of submitters. */
  lemma {:induction false} UniqueKeysCount(recs: seq<Recreation>)
    requires UniqueKeys(recs)
    ensures |Keys(recs)| == |recs|
  {
    if |recs| > 0 {
      var init := recs[..|recs| - 1];
      UniqueKeysInit(recs);
      UniqueKeysCount(init);
      KeysCountStep(recs);
    }
  }

  /** Starting from an empty collection, the number stored equals the number
      of distinct submitters among everything delivered, so duplicate
      deliveries never bring the count closer to the quorum. */
  lemma CountIsDistinctSubmitters(rs: seq<Recreation>)
    ensures |OfferAll([], rs)| == |Keys(rs)|
  {
    OfferAllKeys([], rs);
    UniqueKeysCount(OfferAll([], rs));
    assert Keys([]) == {};
  }
}
