/** Player ids and the order the roster is sorted by.

    The game sorts with `a.id.localeCompare(b.id)`; this model uses plain
    lexicographic order over the characters of the id, a strict total order.
    It is stated through the length of the common prefix so that the order
    is not unfolded character by character in every proof that uses it. */
module Ids {

  type Id = string

  /** Length of the longest common prefix of `a` and `b`. */
  function PrefixLen(a: Id, b: Id): (k: nat)
    ensures k <= |a| && k <= |b|
  {
    if |a| == 0 || |b| == 0 || a[0] != b[0] then 0
    else 1 + PrefixLen(a[1..], b[1..])
  }

  /** The common prefix fits both ids, matches on every position below it,
      and stops at the first difference. */
  lemma {:induction false} PrefixLenFacts(a: Id, b: Id)
    ensures forall m :: 0 <= m < PrefixLen(a, b) ==> a[m] == b[m]
    ensures PrefixLen(a, b) < |a| && PrefixLen(a, b) < |b| ==> a[PrefixLen(a, b)] != b[PrefixLen(a, b)]
  {
    if |a| > 0 && |b| > 0 && a[0] == b[0] {
      PrefixLenFacts(a[1..], b[1..]);
      var k := PrefixLen(a, b);
      forall m | 0 <= m < k ensures a[m] == b[m] {
        if m > 0 { assert a[m] == a[1..][m - 1] && b[m] == b[1..][m - 1]; }
      }
    }
  }

  /** `a` sorts strictly before `b`: at the first difference `a` has the
      smaller character, or `a` is a proper prefix of `b`. */
  predicate Less(a: Id, b: Id)
  {
    var k := PrefixLen(a, b);
    if k == |a| then k < |b| else k < |b| && a[k] < b[k]
  }

  /** The common prefix is at least as long as any prefix the two share. */
  lemma {:induction false} PrefixLenAtLeast(a: Id, b: Id, n: nat)
    requires n <= |a| && n <= |b|
    requires forall m :: 0 <= m < n ==> a[m] == b[m]
    ensures PrefixLen(a, b) >= n
  {
    if n > 0 {
      assert a[0] == b[0];
      assert forall m :: 0 <= m < n - 1 ==> a[1..][m] == b[1..][m] by {
        forall m | 0 <= m < n - 1 ensures a[1..][m] == b[1..][m] {
          assert a[m + 1] == b[m + 1];
        }
      }
      PrefixLenAtLeast(a[1..], b[1..], n - 1);
    }
  }

  lemma PrefixLenSymmetric(a: Id, b: Id)
    ensures PrefixLen(a, b) == PrefixLen(b, a)
  {
    PrefixLenFacts(a, b);
    PrefixLenFacts(b, a);
    PrefixLenAtLeast(b, a, PrefixLen(a, b));
    PrefixLenAtLeast(a, b, PrefixLen(b, a));
  }

  /** A common prefix covering both ids means they are equal. */
  lemma PrefixLenFull(a: Id, b: Id)
    ensures PrefixLen(a, b) == |a| == |b| ==> a == b
  {
    PrefixLenFacts(a, b);
  }

  lemma LessIrreflexive(a: Id)
    ensures !Less(a, a)
  {
    PrefixLenFacts(a, a);
    PrefixLenAtLeast(a, a, |a|);
  }

  lemma LessAsymmetric(a: Id, b: Id)
    ensures Less(a, b) ==> !Less(b, a)
  {
    PrefixLenSymmetric(a, b);
  }

  lemma LessTransitive(a: Id, b: Id, c: Id)
    requires Less(a, b) && Less(b, c)
    ensures Less(a, c)
  {
    var i := PrefixLen(a, b);
    var j := PrefixLen(b, c);
    var n := if i < j then i else j;
    PrefixLenFacts(a, b);
    PrefixLenFacts(b, c);
    PrefixLenFacts(a, c);
    PrefixLenAtLeast(a, c, n);
  }

  /** Any two different ids are ordered one way or the other. */
  lemma LessTotal(a: Id, b: Id)
    requires a != b
    ensures Less(a, b) || Less(b, a)
  {
    PrefixLenFacts(a, b);
    PrefixLenSymmetric(a, b);
    PrefixLenFull(a, b);
  }
}
