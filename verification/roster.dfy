/** The player roster (`players` in draw.js): a sequence of players that the
    remote-join handlers keep sorted by id and free of repeated ids. */
module Roster {
  import opened Wrappers
  import opened Ids

  datatype Player = Player(id: Id, icon: string)

  /** Some entry of the roster carries id `id` (`players.find(p => p.id === id)`). */
  predicate HasId(s: seq<Player>, id: Id)
  {
    exists i :: 0 <= i < |s| && s[i].id == id
  }

  function Elems(s: seq<Player>): set<Player>
  {
    set p | p in s
  }

  predicate DistinctIds(s: seq<Player>)
  {
    forall i, j :: 0 <= i < j < |s| ==> s[i].id != s[j].id
  }

  /** Non-decreasing by id: what `sort` with the id comparator produces. */
  predicate SortedById(s: seq<Player>)
  {
    forall i, j :: 0 <= i < j < |s| ==> !Less(s[j].id, s[i].id)
  }

  /** Strictly increasing by id: sorted and no id repeated. */
  predicate StrictlySorted(s: seq<Player>)
  {
    forall i, j :: 0 <= i < j < |s| ==> Less(s[i].id, s[j].id)
  }

  /** No two different players of `xs` share an id: ids are never reused. */
  predicate IdConsistent(xs: set<Player>)
  {
    forall x, y :: x in xs && y in xs && x.id == y.id ==> x == y
  }

  /** The first entry with id `id`, as `players.find` returns it. */
  function FindById(s: seq<Player>, id: Id): (r: Option<Player>)
    ensures r.None? <==> !HasId(s, id)
    ensures r.Some? ==> exists i :: 0 <= i < |s| && s[i] == r.value && s[i].id == id
                                    && forall j :: 0 <= j < i ==> s[j].id != id
  {
    if |s| == 0 then None
    else if s[0].id == id then Some(s[0])
    else
      var r := FindById(s[1..], id);
      assert HasId(s[1..], id) ==> HasId(s, id) by {
        if HasId(s[1..], id) {
          var i :| 0 <= i < |s[1..]| && s[1..][i].id == id;
          assert s[i + 1].id == id;
        }
      }
      assert HasId(s, id) ==> HasId(s[1..], id) by {
        if HasId(s, id) {
          var i :| 0 <= i < |s| && s[i].id == id;
          assert i > 0 && s[1..][i - 1].id == id;
        }
      }
      if r.Some? then
        assert exists i :: 0 <= i < |s| && s[i] == r.value && s[i].id == id
                           && forall j :: 0 <= j < i ==> s[j].id != id by {
          var i :| 0 <= i < |s[1..]| && s[1..][i] == r.value && s[1..][i].id == id
                   && forall j :: 0 <= j < i ==> s[1..][j].id != id;
          assert forall j :: 0 <= j < i + 1 ==> s[j].id != id by {
            forall j | 0 <= j < i + 1 ensures s[j].id != id {
              if j > 0 { assert s[j] == s[1..][j - 1]; }
            }
          }
        }
        r
      else r
  }

  /** `players.findIndex(p => p.id === id)`: the first index holding `id`,
      or -1. A null id (`None`) matches nobody. */
  function IndexOf(s: seq<Player>, id: Option<Id>): (i: int)
    ensures -1 <= i < |s|
    ensures i == -1 <==> (id.None? || !HasId(s, id.value))
    ensures i >= 0 ==> id == Some(s[i].id) && forall j :: 0 <= j < i ==> s[j].id != id.value
  {
    if id.None? || |s| == 0 then -1
    else if s[0].id == id.value then 0
    else
      var k := IndexOf(s[1..], id);
      assert HasId(s, id.value) ==> HasId(s[1..], id.value) by {
        if HasId(s, id.value) {
          var i :| 0 <= i < |s| && s[i].id == id.value;
          assert i > 0 && s[1..][i - 1].id == id.value;
        }
      }
      if k == -1 then -1
      else
        assert HasId(s, id.value) by { assert s[k + 1].id == id.value; }
        k + 1
  }

  /** Inserts `p` after every entry whose id is not greater than `p.id`:
      the position a stable sort gives an element appended last. */
  function InsertById(s: seq<Player>, p: Player): (r: seq<Player>)
    ensures multiset(r) == multiset(s) + multiset{p}
    ensures |r| == |s| + 1
  {
    if |s| == 0 then [p]
    else if Less(p.id, s[0].id) then [p] + s
    else
      assert s == [s[0]] + s[1..];
      [s[0]] + InsertById(s[1..], p)
  }

  /** A player placed before a sorted roster whose every entry is not
      smaller keeps it sorted. */
  lemma PrependSorted(x: Player, t: seq<Player>)
    requires SortedById(t)
    requires forall y :: y in t ==> !Less(y.id, x.id)
    ensures SortedById([x] + t)
  {
    var r := [x] + t;
    forall i, j | 0 <= i < j < |r| ensures !Less(r[j].id, r[i].id) {
      if i == 0 {
        assert r[j] in t;
      } else {
        assert r[i] == t[i - 1] && r[j] == t[j - 1];
      }
    }
  }

  lemma PrependStrict(x: Player, t: seq<Player>)
    requires StrictlySorted(t)
    requires forall y :: y in t ==> Less(x.id, y.id)
    ensures StrictlySorted([x] + t)
  {
    var r := [x] + t;
    forall i, j | 0 <= i < j < |r| ensures Less(r[i].id, r[j].id) {
      if i == 0 {
        assert r[j] in t;
      } else {
        assert r[i] == t[i - 1] && r[j] == t[j - 1];
      }
    }
  }

  /** Inserting into a sorted roster keeps it sorted. */
  lemma {:induction false} InsertByIdSorted(s: seq<Player>, p: Player)
    requires SortedById(s)
    ensures SortedById(InsertById(s, p))
  {
    if |s| > 0 {
      var tail := s[1..];
      forall y | y in tail ensures !Less(y.id, s[0].id) {
        var k :| 0 <= k < |tail| && tail[k] == y;
        assert s[k + 1] == y;
      }
      if Less(p.id, s[0].id) {
        forall y | y in s ensures !Less(y.id, p.id) {
          LessAsymmetric(p.id, s[0].id);
          if y != s[0] {
            assert y in tail;
            if y.id != s[0].id {
              LessTotal(y.id, s[0].id);
              LessTransitive(p.id, s[0].id, y.id);
              LessAsymmetric(p.id, y.id);
            }
          }
        }
        PrependSorted(p, s);
      } else {
        InsertByIdSorted(tail, p);
        var t := InsertById(tail, p);
        forall y | y in t ensures !Less(y.id, s[0].id) {
          assert y in multiset(t);
        }
        PrependSorted(s[0], t);
      }
    }
  }

  /** One step of the insertion sort: placing the last entry into the
      sorted rest. */
  lemma SortStep(s: seq<Player>, t: seq<Player>)
    requires |s| > 0
    requires multiset(t) == multiset(s[..|s| - 1]) && SortedById(t)
    ensures multiset(InsertById(t, s[|s| - 1])) == multiset(s)
    ensures SortedById(InsertById(t, s[|s| - 1]))
  {
    InsertByIdSorted(t, s[|s| - 1]);
    assert s == s[..|s| - 1] + [s[|s| - 1]];
  }

  /** `players.sort((a, b) => a.id.localeCompare(b.id))`: a stable sort by
      id, written as insertion sort. */
  function SortById(s: seq<Player>): (r: seq<Player>)
    ensures multiset(r) == multiset(s)
    ensures |r| == |s|
    ensures SortedById(r)
  {
    if |s| == 0 then []
    else
      var t := SortById(s[..|s| - 1]);
      SortStep(s, t);
      InsertById(t, s[|s| - 1])
  }
}

module RosterOps {
  import opened Ids
  import opened Roster

  lemma HasIdMember(s: seq<Player>, p: Player)
    requires p in s
    ensures HasId(s, p.id)
  {
    var i :| 0 <= i < |s| && s[i] == p;
  }

  lemma HasIdWitness(s: seq<Player>, id: Id) returns (p: Player)
    requires HasId(s, id)
    ensures p in s && p.id == id
  {
    var i :| 0 <= i < |s| && s[i].id == id;
    p := s[i];
  }

  lemma StrictlySortedDistinct(s: seq<Player>)
    requires StrictlySorted(s)
    ensures DistinctIds(s)
  {
    forall i, j | 0 <= i < j < |s| ensures s[i].id != s[j].id {
      LessIrreflexive(s[i].id);
    }
  }

  lemma DistinctAppend(s: seq<Player>, p: Player)
    requires DistinctIds(s) && !HasId(s, p.id)
    ensures DistinctIds(s + [p])
  {
    var t := s + [p];
    forall i, j | 0 <= i < j < |t| ensures t[i].id != t[j].id {
      if j < |s| {
        assert t[i] == s[i] && t[j] == s[j];
      }
    }
  }

  /** Inserting an absent id into a strictly sorted roster keeps it strictly sorted. */
  lemma {:induction false} InsertByIdStrict(s: seq<Player>, p: Player)
    requires StrictlySorted(s) && !HasId(s, p.id)
    ensures StrictlySorted(InsertById(s, p))
  {
    if |s| == 0 {
    } else if Less(p.id, s[0].id) {
      var r := InsertById(s, p);
      assert r == [p] + s;
      forall i, j | 0 <= i < j < |r| ensures Less(r[i].id, r[j].id) {
        if i == 0 && j > 1 {
          assert r[j] == s[j - 1];
          LessTransitive(p.id, s[0].id, s[j - 1].id);
        }
      }
    } else {
      assert s[0].id != p.id;
      LessTotal(s[0].id, p.id);
      InsertByIdStrict(s[1..], p);
      var t := InsertById(s[1..], p);
      var r := InsertById(s, p);
      assert r == [s[0]] + t;
      forall i, j | 0 <= i < j < |r| ensures Less(r[i].id, r[j].id) {
        if i == 0 {
          var x := r[j];
          assert x == t[j - 1];
          assert x in multiset(t);
          if x != p {
            assert x in multiset(s[1..]);
            var k :| 0 <= k < |s[1..]| && s[1..][k] == x;
            assert s[k + 1] == x;
          }
        } else {
          assert r[i] == t[i - 1] && r[j] == t[j - 1];
        }
      }
    }
  }

  /** Sorting a roster whose ids are distinct yields a strictly increasing roster. */
  lemma {:induction false} SortByIdStrict(s: seq<Player>)
    requires DistinctIds(s)
    ensures StrictlySorted(SortById(s))
  {
    if |s| > 0 {
      var init := s[..|s| - 1];
      var last := s[|s| - 1];
      assert DistinctIds(init);
      SortByIdStrict(init);
      var t := SortById(init);
      forall i | 0 <= i < |t| ensures t[i].id != last.id {
        assert t[i] in multiset(init);
        var k :| 0 <= k < |init| && init[k] == t[i];
        assert s[k] == t[i];
      }
      InsertByIdStrict(t, last);
    }
  }

  lemma HeadInElems(s: seq<Player>)
    ensures |s| > 0 ==> s[0] in Elems(s)
  {
  }

  /** Two strictly sorted non-empty rosters with the same players start
      with the same player: the one of least id. */
  lemma SortedHeadsEqual(a: seq<Player>, b: seq<Player>)
    requires StrictlySorted(a) && StrictlySorted(b)
    requires Elems(a) == Elems(b) && |a| > 0
    ensures |b| > 0 && a[0] == b[0]
  {
    HeadInElems(a);
    HeadInElems(b);
    var j :| 0 <= j < |b| && b[j] == a[0];
    var k :| 0 <= k < |a| && a[k] == b[0];
    StrictlySortedDistinct(a);
    StrictlySortedDistinct(b);
    LessAsymmetric(a[0].id, b[0].id);
  }

  /** Dropping the common head leaves the same players on both sides. */
  lemma SortedTailsElems(a: seq<Player>, b: seq<Player>)
    requires StrictlySorted(a) && StrictlySorted(b)
    requires Elems(a) == Elems(b) && |a| > 0 && |b| > 0 && a[0] == b[0]
    ensures Elems(a[1..]) == Elems(b[1..])
  {
    LessIrreflexive(a[0].id);
    forall x | x in Elems(a[1..]) ensures x in Elems(b[1..]) {
      var i :| 0 <= i < |a[1..]| && a[1..][i] == x;
      assert a[i + 1] == x;
      assert x in Elems(a);
      var m :| 0 <= m < |b| && b[m] == x;
      assert m > 0 && b[1..][m - 1] == x;
    }
    forall x | x in Elems(b[1..]) ensures x in Elems(a[1..]) {
      var i :| 0 <= i < |b[1..]| && b[1..][i] == x;
      assert b[i + 1] == x;
      assert x in Elems(b);
      var m :| 0 <= m < |a| && a[m] == x;
      assert m > 0 && a[1..][m - 1] == x;
    }
  }

  /** Two strictly sorted rosters holding the same players are the same
      sequence: the order depends only on the set of players present. */
  lemma {:induction false} SortedUnique(a: seq<Player>, b: seq<Player>)
    requires StrictlySorted(a) && StrictlySorted(b)
    requires Elems(a) == Elems(b)
    ensures a == b
    decreases |a|
  {
    if |a| == 0 {
      HeadInElems(b);
    } else {
      SortedHeadsEqual(a, b);
      SortedTailsElems(a, b);
      SortedUnique(a[1..], b[1..]);
      assert a == [a[0]] + a[1..] && b == [b[0]] + b[1..];
    }
  }

  /** A remote `playerJoined` / `playerInfo`: push the player and re-sort,
      unless some entry already carries its id. */
  function JoinRemote(s: seq<Player>, p: Player): (r: seq<Player>)
    ensures HasId(s, p.id) ==> r == s
    ensures !HasId(s, p.id) ==> SortedById(r) && |r| == |s| + 1
    ensures !HasId(s, p.id) ==> Elems(r) == Elems(s) + {p}
    ensures !HasId(s, p.id) ==> multiset(r) == multiset(s) + multiset{p}
    ensures HasId(r, p.id)
  {
    if HasId(s, p.id) then s
    else
      var r := SortById(s + [p]);
      assert Elems(r) == Elems(s) + {p} by {
        forall x ensures x in Elems(r) <==> x in Elems(s) + {p} {
          assert x in r <==> x in multiset(r);
          assert x in s + [p] <==> x in multiset(s + [p]);
        }
      }
      assert p in r by { assert p in multiset(r); }
      HasIdMember(r, p);
      r
  }

  /** A remote join keeps ids distinct, and when it adds a player to a
      roster of distinct ids the result is strictly increasing. */
  lemma JoinRemoteDistinct(s: seq<Player>, p: Player)
    requires DistinctIds(s)
    ensures DistinctIds(JoinRemote(s, p))
    ensures !HasId(s, p.id) ==> StrictlySorted(JoinRemote(s, p))
  {
    if !HasId(s, p.id) {
      DistinctAppend(s, p);
      SortByIdStrict(s + [p]);
      StrictlySortedDistinct(JoinRemote(s, p));
    }
  }

  /** Receiving the same join twice leaves the roster as the first made it. */
  lemma JoinRemoteIdempotent(s: seq<Player>, p: Player)
    ensures JoinRemote(JoinRemote(s, p), p) == JoinRemote(s, p)
  {
  }

  /** A join never drops an id that was present. */
  lemma JoinKeepsIds(s: seq<Player>, p: Player, x: Id)
    requires HasId(s, x)
    ensures HasId(JoinRemote(s, p), x)
  {
    if !HasId(s, p.id) {
      var w := HasIdWitness(s, x);
      assert w in Elems(JoinRemote(s, p));
      HasIdMember(JoinRemote(s, p), w);
    }
  }

  lemma NotHasIdMember(s: seq<Player>, x: Id, q: Player)
    requires !HasId(s, x) && q in Elems(s)
    ensures q.id != x
  {
    var k :| 0 <= k < |s| && s[k] == q;
  }

  /** A join adds no id other than the joining player's. */
  lemma JoinAddsOnly(s: seq<Player>, p: Player, x: Id)
    requires x != p.id && !HasId(s, x)
    ensures !HasId(JoinRemote(s, p), x)
  {
    if !HasId(s, p.id) {
      var r := JoinRemote(s, p);
      forall i | 0 <= i < |r| ensures r[i].id != x {
        if r[i] != p {
          assert r[i] in Elems(r);
          NotHasIdMember(s, x, r[i]);
        }
      }
    }
  }

  /** Two joins of different players give the same roster in either order,
      when no id is reused. */
  lemma JoinRemoteCommutes(s: seq<Player>, p: Player, q: Player)
    requires DistinctIds(s) && IdConsistent(Elems(s) + {p, q})
    ensures JoinRemote(JoinRemote(s, p), q) == JoinRemote(JoinRemote(s, q), p)
  {
    if p.id == q.id {
      assert p == q;
    } else if HasId(s, p.id) {
      JoinKeepsIds(s, q, p.id);
    } else if HasId(s, q.id) {
      JoinKeepsIds(s, p, q.id);
    } else {
      JoinFreshCommutes(s, p, q);
    }
  }

  /** Two fresh players joined one after the other give a strictly sorted
      roster holding both. */
  lemma JoinTwoFresh(s: seq<Player>, p: Player, q: Player)
    requires DistinctIds(s) && p.id != q.id && !HasId(s, p.id) && !HasId(s, q.id)
    ensures StrictlySorted(JoinRemote(JoinRemote(s, p), q))
    ensures Elems(JoinRemote(JoinRemote(s, p), q)) == Elems(s) + {p, q}
  {
    var sp := JoinRemote(s, p);
    JoinAddsOnly(s, p, q.id);
    JoinRemoteDistinct(s, p);
    JoinRemoteDistinct(sp, q);
  }

  lemma JoinFreshCommutes(s: seq<Player>, p: Player, q: Player)
    requires DistinctIds(s) && p.id != q.id && !HasId(s, p.id) && !HasId(s, q.id)
    ensures JoinRemote(JoinRemote(s, p), q) == JoinRemote(JoinRemote(s, q), p)
  {
    var a, b := JoinRemote(JoinRemote(s, p), q), JoinRemote(JoinRemote(s, q), p);
    JoinTwoFresh(s, p, q);
    JoinTwoFresh(s, q, p);
    assert Elems(a) == Elems(b) by { assert {p, q} == {q, p}; }
    SortedUnique(a, b);
  }

  /** Delivers a series of remote joins in the order given. */
  function JoinAll(s: seq<Player>, ps: seq<Player>): seq<Player>
    decreases |ps|
  {
    if |ps| == 0 then s else JoinAll(JoinRemote(s, ps[0]), ps[1..])
  }

  /** One join into a strictly sorted roster, when ids are not reused,
      adds exactly that player and keeps the roster strictly sorted. */
  lemma JoinStepSorted(s: seq<Player>, p: Player)
    requires StrictlySorted(s) && IdConsistent(Elems(s) + {p})
    ensures StrictlySorted(JoinRemote(s, p))
    ensures Elems(JoinRemote(s, p)) == Elems(s) + {p}
  {
    StrictlySortedDistinct(s);
    JoinRemoteDistinct(s, p);
    if HasId(s, p.id) {
      var w := HasIdWitness(s, p.id);
      assert w == p;
    }
  }

  /** Splitting off the first join of a series. */
  lemma JoinAllHead(s: seq<Player>, ps: seq<Player>)
    requires |ps| > 0 && IdConsistent(Elems(s) + Elems(ps))
    ensures IdConsistent(Elems(s) + {ps[0]})
    ensures (Elems(s) + {ps[0]}) + Elems(ps[1..]) == Elems(s) + Elems(ps)
  {
    assert ps == [ps[0]] + ps[1..];
    assert Elems(ps) == {ps[0]} + Elems(ps[1..]);
  }

  lemma {:induction false} JoinAllSorted(s: seq<Player>, ps: seq<Player>)
    requires StrictlySorted(s) && IdConsistent(Elems(s) + Elems(ps))
    ensures StrictlySorted(JoinAll(s, ps))
    ensures Elems(JoinAll(s, ps)) == Elems(s) + Elems(ps)
    decreases |ps|
  {
    if |ps| > 0 {
      JoinAllHead(s, ps);
      JoinStepSorted(s, ps[0]);
      JoinAllSorted(JoinRemote(s, ps[0]), ps[1..]);
    }
  }

  /** Two clients that start from sorted rosters and end up having seen the
      same players, in whatever order the joins arrived, hold the same roster. */
  lemma JoinAllConverges(s1: seq<Player>, ps1: seq<Player>, s2: seq<Player>, ps2: seq<Player>)
    requires StrictlySorted(s1) && StrictlySorted(s2)
    requires Elems(s1) + Elems(ps1) == Elems(s2) + Elems(ps2)
    requires IdConsistent(Elems(s1) + Elems(ps1))
    ensures JoinAll(s1, ps1) == JoinAll(s2, ps2)
  {
    JoinAllSorted(s1, ps1);
    JoinAllSorted(s2, ps2);
    SortedUnique(JoinAll(s1, ps1), JoinAll(s2, ps2));
  }

  /** `players.filter(p => p.id !== id)`. */
  function Remove(s: seq<Player>, id: Id): (r: seq<Player>)
    ensures forall p :: p in r <==> p in s && p.id != id
    ensures !HasId(s, id) ==> r == s
    ensures |r| <= |s|
  {
    if |s| == 0 then []
    else
      var t := Remove(s[1..], id);
      assert s == [s[0]] + s[1..];
      if s[0].id == id then t else [s[0]] + t
  }

  /** After a leave no entry carries the departed id. */
  lemma RemoveAbsent(s: seq<Player>, id: Id)
    ensures !HasId(Remove(s, id), id)
  {
    var r := Remove(s, id);
    forall i | 0 <= i < |r| ensures r[i].id != id {
      assert r[i] in r;
    }
  }

  /** Every survivor of a leave was in the roster after the head. */
  lemma RemoveTailMembers(s: seq<Player>, id: Id)
    requires |s| > 0
    ensures forall y :: y in Remove(s[1..], id) ==> exists k :: 1 <= k < |s| && s[k] == y
  {
    forall y | y in Remove(s[1..], id) ensures exists k :: 1 <= k < |s| && s[k] == y {
      var k :| 0 <= k < |s[1..]| && s[1..][k] == y;
      assert s[k + 1] == y;
    }
  }

  /** A leave keeps a sorted roster sorted. */
  lemma {:induction false} RemoveSorted(s: seq<Player>, id: Id)
    requires SortedById(s)
    ensures SortedById(Remove(s, id))
  {
    if |s| > 0 {
      RemoveSorted(s[1..], id);
      if s[0].id != id {
        RemoveTailMembers(s, id);
        PrependSorted(s[0], Remove(s[1..], id));
      }
    }
  }

  /** A leave keeps a strictly sorted roster strictly sorted. */
  lemma {:induction false} RemoveStrict(s: seq<Player>, id: Id)
    requires StrictlySorted(s)
    ensures StrictlySorted(Remove(s, id))
  {
    if |s| > 0 {
      RemoveStrict(s[1..], id);
      if s[0].id != id {
        RemoveTailMembers(s, id);
        PrependStrict(s[0], Remove(s[1..], id));
      }
    }
  }

  /** The rest of a roster with distinct ids has distinct ids, none equal
      to the head's. */
  lemma DistinctTail(s: seq<Player>)
    requires DistinctIds(s) && |s| > 0
    ensures DistinctIds(s[1..])
    ensures forall y :: y in s[1..] ==> y.id != s[0].id
  {
    forall i, j | 0 <= i < j < |s[1..]| ensures s[1..][i].id != s[1..][j].id {
      assert s[1..][i] == s[i + 1] && s[1..][j] == s[j + 1];
    }
    forall y | y in s[1..] ensures y.id != s[0].id {
      var k :| 0 <= k < |s[1..]| && s[1..][k] == y;
      assert s[k + 1] == y;
    }
  }

  /** A player whose id is new to a roster of distinct ids keeps them
      distinct when placed in front. */
  lemma DistinctCons(x: Player, t: seq<Player>)
    requires DistinctIds(t) && forall y :: y in t ==> y.id != x.id
    ensures DistinctIds([x] + t)
  {
    var r := [x] + t;
    forall i, j | 0 <= i < j < |r| ensures r[i].id != r[j].id {
      if i == 0 {
        assert r[j] == t[j - 1] && t[j - 1] in t;
      } else {
        assert r[i] == t[i - 1] && r[j] == t[j - 1];
      }
    }
  }

  /** A leave keeps ids distinct. */
  lemma {:induction false} RemoveDistinct(s: seq<Player>, id: Id)
    requires DistinctIds(s)
    ensures DistinctIds(Remove(s, id))
  {
    if |s| > 0 {
      DistinctTail(s);
      RemoveDistinct(s[1..], id);
      if s[0].id != id {
        DistinctCons(s[0], Remove(s[1..], id));
      }
    }
  }

  /** Removal keeps the survivors in their relative order: it distributes
      over concatenation. */
  lemma {:induction false} RemoveConcat(a: seq<Player>, b: seq<Player>, id: Id)
    ensures Remove(a + b, id) == Remove(a, id) + Remove(b, id)
  {
    if |a| > 0 {
      assert (a + b)[1..] == a[1..] + b;
      RemoveConcat(a[1..], b, id);
    } else {
      assert a + b == b;
    }
  }

  /** A second `playerLeft` for the same id changes nothing. */
  lemma RemoveIdempotent(s: seq<Player>, id: Id)
    ensures Remove(Remove(s, id), id) == Remove(s, id)
  {
  }
}
