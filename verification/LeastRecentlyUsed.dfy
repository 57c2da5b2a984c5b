/** Least-recently-used lists as such: the order of last use of a trace, its suffixes, and
    the misses a bound of a given size takes on a trace. */
module LeastRecentlyUsed {
  import opened Prelude

  function Remove<K(==)>(q: seq<K>, k: K): seq<K> {
    if q == [] then []
    else if q[0] == k then Remove(q[1..], k)
    else [q[0]] + Remove(q[1..], k)
  }

  /** The last `n` elements, or all of them. */
  function Suffix<K>(q: seq<K>, n: nat): (r: seq<K>)
    ensures |r| == Min(|q|, n)
  {
    if |q| <= n then q else q[|q| - n..]
  }

  /** Use `k`: it goes to the back, and the front makes room beyond `capacity`. */
  function Touch<K(==)>(q: seq<K>, k: K, capacity: nat): seq<K> {
    Suffix(Remove(q, k) + [k], capacity)
  }

  /** The distinct keys of a trace, least recently used first. */
  function Recency<K(==)>(trace: seq<K>): seq<K> {
    if trace == [] then []
    else
      var n := |trace| - 1;
      Remove(Recency(trace[..n]), trace[n]) + [trace[n]]
  }

  /** The position of the last use of `k`, or -1. */
  function LastUse<K(==)>(trace: seq<K>, k: K): (i: int)
    ensures -1 <= i < |trace|
    ensures i >= 0 <==> k in trace
    ensures i >= 0 ==> trace[i] == k && forall j :: i < j < |trace| ==> trace[j] != k
  {
    if trace == [] then -1
    else if trace[|trace| - 1] == k then |trace| - 1
    else
      assert trace == trace[..|trace| - 1] + [trace[|trace| - 1]];
      LastUse(trace[..|trace| - 1], k)
  }

  /** Exactly the keys of the trace, each once, ordered by last use. */
  ghost predicate IsRecencyOrder<K(!new)>(trace: seq<K>, q: seq<K>) {
    SameMembers(q, trace) && ByLastUse(trace, q)
  }

  ghost predicate SameMembers<K(!new)>(p: seq<K>, q: seq<K>) {
    forall k :: k in p <==> k in q
  }

  ghost predicate ByLastUse<K>(trace: seq<K>, q: seq<K>) {
    forall i, j :: 0 <= i < j < |q| ==> LastUse(trace, q[i]) < LastUse(trace, q[j])
  }

  lemma {:induction false} RemoveMembers<K>(q: seq<K>, k: K)
    ensures forall x :: x in Remove(q, k) <==> x in q && x != k
    ensures k !in q ==> Remove(q, k) == q
  {
    if q != [] {
      RemoveMembers(q[1..], k);
      assert q == [q[0]] + q[1..];
    }
  }

  lemma {:induction false} RemoveAt<K>(q: seq<K>, i: nat)
    requires i < |q| && NoDuplicates(q)
    ensures Remove(q, q[i]) == q[..i] + q[i + 1..]
  {
    var k, rest := q[i], q[1..];
    if i == 0 {
      RemoveMembers(rest, k);
      assert k !in rest;
      assert q[..0] + q[1..] == rest;
    } else {
      RemoveAt(rest, i - 1);
      assert rest[i - 1] == k;
      assert q[..i] + q[i + 1..] == [q[0]] + (rest[..i - 1] + rest[i..]);
    }
  }

  lemma TouchKeepsDistinct<K>(q: seq<K>, k: K)
    requires NoDuplicates(q)
    ensures NoDuplicates(Remove(q, k) + [k])
  {
    RemoveMembers(q, k);
    if k in q {
      var i :| 0 <= i < |q| && q[i] == k;
      RemoveAt(q, i);
    }
  }

  lemma {:induction false} RecencyMembers<K>(trace: seq<K>)
    ensures NoDuplicates(Recency(trace))
    ensures forall k :: k in Recency(trace) <==> k in trace
  {
    if trace != [] {
      var n := |trace| - 1;
      RecencyMembers(trace[..n]);
      TouchKeepsDistinct(Recency(trace[..n]), trace[n]);
      RemoveMembers(Recency(trace[..n]), trace[n]);
      assert trace == trace[..n] + [trace[n]];
    }
  }

  lemma OrderWithout<K>(trace: seq<K>, q: seq<K>, at: nat)
    requires at < |q| && ByLastUse(trace, q)
    ensures ByLastUse(trace, q[..at] + q[at + 1..])
  {
    var r := q[..at] + q[at + 1..];
    forall i, j | 0 <= i < j < |r| ensures LastUse(trace, r[i]) < LastUse(trace, r[j]) {
      var i', j' := if i < at then i else i + 1, if j < at then j else j + 1;
      assert r[i] == q[i'] && r[j] == q[j'];
    }
  }

  lemma RemoveKeepsOrder<K>(trace: seq<K>, k: K, q: seq<K>)
    requires NoDuplicates(q) && ByLastUse(trace, q)
    ensures ByLastUse(trace, Remove(q, k))
  {
    RemoveMembers(q, k);
    if k in q {
      var at :| 0 <= at < |q| && q[at] == k;
      RemoveAt(q, at);
      OrderWithout(trace, q, at);
    }
  }

  lemma LastUseAfter<K>(trace: seq<K>, k: K, x: K)
    ensures LastUse(trace + [k], x) == if x == k then |trace| else LastUse(trace, x)
  {
    assert (trace + [k])[..|trace|] == trace;
  }

  /** Using `k` moves it behind everything else and leaves the rest in order. */
  lemma UseKeepsOrder<K>(trace: seq<K>, k: K, q: seq<K>)
    requires NoDuplicates(q) && ByLastUse(trace, q)
    ensures ByLastUse(trace + [k], Remove(q, k) + [k])
  {
    var rest := Remove(q, k);
    RemoveMembers(q, k);
    RemoveKeepsOrder(trace, k, q);
    forall i, j | 0 <= i < j < |rest + [k]|
      ensures LastUse(trace + [k], (rest + [k])[i]) < LastUse(trace + [k], (rest + [k])[j])
    {
      assert rest[i] in rest;
      assert j < |rest| ==> rest[j] in rest;
      LastUseAfter(trace, k, (rest + [k])[i]);
      LastUseAfter(trace, k, (rest + [k])[j]);
    }
  }

  lemma {:induction false} RecencyIsRecencyOrder<K(!new)>(trace: seq<K>)
    ensures IsRecencyOrder(trace, Recency(trace))
  {
    RecencyMembers(trace);
    if trace != [] {
      var n := |trace| - 1;
      RecencyIsRecencyOrder(trace[..n]);
      RecencyMembers(trace[..n]);
      UseKeepsOrder(trace[..n], trace[n], Recency(trace[..n]));
      assert trace == trace[..n] + [trace[n]];
    }
  }

  /** There is only one such order. */
  lemma RecencyOrderIsUnique<K(!new)>(trace: seq<K>, p: seq<K>, q: seq<K>)
    requires IsRecencyOrder(trace, p) && IsRecencyOrder(trace, q)
    ensures p == q
  {
    ByLastUseIsUnique(trace, p, q);
  }

  lemma EmptyOrNot<K(!new)>(p: seq<K>)
    ensures p == [] <==> forall k :: k !in p
  {
    if p != [] { assert p[0] in p; }
  }

  lemma AllButLast<K>(trace: seq<K>, p: seq<K>, k: K)
    requires p != [] && ByLastUse(trace, p)
    ensures k in p[..|p| - 1] <==> k in p && k != p[|p| - 1]
  {
    assert p == p[..|p| - 1] + [p[|p| - 1]];
  }

  lemma FrontsAgree<K(!new)>(trace: seq<K>, p: seq<K>, q: seq<K>)
    requires SameMembers(p, q) && ByLastUse(trace, p) && ByLastUse(trace, q)
    requires p != [] && q != []
    ensures SameMembers(p[..|p| - 1], q[..|q| - 1])
  {
    LastIsTheSame(trace, p, q);
    var front, back := p[..|p| - 1], q[..|q| - 1];
    forall k ensures k in front <==> k in back {
      AllButLast(trace, p, k);
      AllButLast(trace, q, k);
    }
  }

  lemma FrontKeepsOrder<K>(trace: seq<K>, p: seq<K>)
    requires p != [] && ByLastUse(trace, p)
    ensures ByLastUse(trace, p[..|p| - 1])
  {
  }

  lemma {:induction false} ByLastUseIsUnique<K(!new)>(trace: seq<K>, p: seq<K>, q: seq<K>)
    requires SameMembers(p, q) && ByLastUse(trace, p) && ByLastUse(trace, q)
    ensures p == q
    decreases |p|
  {
    EmptyOrNot(p);
    EmptyOrNot(q);
    if p != [] {
      FrontsMatch(trace, p, q);
      ByLastUseIsUnique(trace, p[..|p| - 1], q[..|q| - 1]);
      SameFrontAndLast(p, q);
    }
  }

  lemma FrontsMatch<K(!new)>(trace: seq<K>, p: seq<K>, q: seq<K>)
    requires SameMembers(p, q) && ByLastUse(trace, p) && ByLastUse(trace, q)
    requires p != [] && q != []
    ensures p[|p| - 1] == q[|q| - 1] && SameMembers(p[..|p| - 1], q[..|q| - 1])
    ensures ByLastUse(trace, p[..|p| - 1]) && ByLastUse(trace, q[..|q| - 1])
  {
    LastIsTheSame(trace, p, q);
    FrontsAgree(trace, p, q);
    FrontKeepsOrder(trace, p);
    FrontKeepsOrder(trace, q);
  }

  lemma SameFrontAndLast<K>(p: seq<K>, q: seq<K>)
    requires p != [] && q != [] && p[..|p| - 1] == q[..|q| - 1] && p[|p| - 1] == q[|q| - 1]
    ensures p == q
  {
    assert p == p[..|p| - 1] + [p[|p| - 1]] && q == q[..|q| - 1] + [q[|q| - 1]];
  }

  lemma LastIsTheSame<K(!new)>(trace: seq<K>, p: seq<K>, q: seq<K>)
    requires SameMembers(p, q) && ByLastUse(trace, p) && ByLastUse(trace, q)
    requires p != [] && q != []
    ensures p[|p| - 1] == q[|q| - 1]
  {
    var x, y := p[|p| - 1], q[|q| - 1];
    assert x in p && y in q;
    var i :| 0 <= i < |q| && q[i] == x;
    var j :| 0 <= j < |p| && p[j] == y;
  }

  lemma SuffixOfMoved<K>(q: seq<K>, i: nat, k: K, cut: nat, capacity: nat)
    requires i < |q| && cut <= |q| && |q| - cut == Min(|q|, capacity) && capacity >= 1
    ensures Suffix(q[..i] + q[i + 1..] + [k], capacity)
         == if i >= cut then q[cut..i] + q[i + 1..] + [k] else q[cut + 1..] + [k]
  {
    var moved := q[..i] + q[i + 1..] + [k];
    if cut == 0 {
      assert q[0..i] == q[..i];
    } else {
      assert Suffix(moved, capacity) == moved[cut..];
    }
  }

  lemma SuffixOfAppended<K>(q: seq<K>, k: K, capacity: nat)
    requires capacity >= 1
    ensures Suffix(q + [k], capacity) == Suffix(q, capacity - 1) + [k]
  {
  }

  lemma TouchInsideSuffix<K>(q: seq<K>, i: nat, cut: nat, capacity: nat)
    requires capacity >= 1 && NoDuplicates(q) && cut <= i < |q| && |q| - cut == Min(|q|, capacity)
    ensures Touch(q, q[i], capacity) == q[cut..i] + q[i + 1..] + [q[i]]
  {
    RemoveAt(q, i);
    SuffixOfMoved(q, i, q[i], cut, capacity);
  }

  lemma SliceOfDrop<K>(q: seq<K>, s: seq<K>, cut: nat, i: nat)
    requires cut <= |q| && s == q[cut..] && i < |s|
    ensures s[0..i] == q[cut..cut + i] && s[i + 1..] == q[cut + i + 1..] && s[i] == q[cut + i]
  {
  }

  lemma DropKeepsDistinct<K>(q: seq<K>, cut: nat)
    requires cut <= |q| && NoDuplicates(q)
    ensures NoDuplicates(q[cut..])
  {
  }

  lemma TouchUsedInside<K>(q: seq<K>, s: seq<K>, cut: nat, i: nat, capacity: nat)
    requires capacity >= 1 && NoDuplicates(q) && cut <= |q| && s == q[cut..] && |s| == Min(|q|, capacity) && i < |s|
    ensures Touch(s, s[i], capacity) == Touch(q, s[i], capacity)
  {
    DropKeepsDistinct(q, cut);
    SliceOfDrop(q, s, cut, i);
    TouchInsideSuffix(s, i, 0, capacity);
    TouchInsideSuffix(q, cut + i, cut, capacity);
  }

  lemma TouchUsedOutside<K>(q: seq<K>, cut: nat, k: K, capacity: nat)
    requires capacity >= 1 && NoDuplicates(q) && cut <= |q| && |q| - cut == Min(|q|, capacity) && k !in q[cut..]
    ensures Touch(q[cut..], k, capacity) == Touch(q, k, capacity)
  {
    RemoveMembers(q[cut..], k);
    SuffixOfAppended(q[cut..], k, capacity);
    TouchOutsideSuffix(q, k, cut, capacity);
  }

  /** Truncating before or after a use makes no difference: the bounded list is always the
      suffix of the unbounded one. */
  lemma TouchOfSuffix<K>(q: seq<K>, k: K, capacity: nat)
    requires capacity >= 1 && NoDuplicates(q)
    ensures Touch(Suffix(q, capacity), k, capacity) == Touch(q, k, capacity)
  {
    var cut := |q| - |Suffix(q, capacity)|;
    assert q[cut..] == Suffix(q, capacity);
    if k in q[cut..] {
      var i :| 0 <= i < |q[cut..]| && q[cut..][i] == k;
      TouchUsedInside(q, q[cut..], cut, i, capacity);
    } else {
      TouchUsedOutside(q, cut, k, capacity);
    }
  }

  lemma MemberBefore<K>(q: seq<K>, k: K, cut: nat) returns (i: nat)
    requires cut <= |q| && k in q && k !in q[cut..]
    ensures i < cut && q[i] == k
  {
    assert q == q[..cut] + q[cut..];
    i :| 0 <= i < cut && q[..cut][i] == k;
  }

  lemma TouchOutsideSuffix<K>(q: seq<K>, k: K, cut: nat, capacity: nat)
    requires capacity >= 1 && NoDuplicates(q) && cut <= |q| && |q| - cut == Min(|q|, capacity)
    requires k !in q[cut..]
    ensures Touch(q, k, capacity) == Suffix(q[cut..], capacity - 1) + [k]
  {
    if k in q {
      var i := MemberBefore(q, k, cut);
      RemoveAt(q, i);
      SuffixOfMoved(q, i, k, cut, capacity);
      LaterSuffix(q, cut, capacity);
    } else {
      RemoveMembers(q, k);
      SuffixOfAppended(q, k, capacity);
      ShorterSuffix(q, cut, capacity);
    }
  }

  lemma LaterSuffix<K>(q: seq<K>, cut: nat, capacity: nat)
    requires capacity >= 1 && 0 < cut <= |q| && |q| - cut == Min(|q|, capacity)
    ensures Suffix(q[cut..], capacity - 1) == q[cut + 1..]
  {
  }

  lemma ShorterSuffix<K>(q: seq<K>, cut: nat, capacity: nat)
    requires capacity >= 1 && cut <= |q| && |q| - cut == Min(|q|, capacity)
    ensures Suffix(q[cut..], capacity - 1) == Suffix(q, capacity - 1)
  {
  }

  /** Running the bounded list over a whole trace. */
  function Bounded<K(==)>(trace: seq<K>, capacity: nat): seq<K> {
    if trace == [] then []
    else Touch(Bounded(trace[..|trace| - 1], capacity), trace[|trace| - 1], capacity)
  }

  lemma {:induction false} BoundedIsSuffix<K>(trace: seq<K>, capacity: nat)
    requires capacity >= 1
    ensures Bounded(trace, capacity) == Suffix(Recency(trace), capacity)
  {
    if trace != [] {
      var n := |trace| - 1;
      BoundedIsSuffix(trace[..n], capacity);
      RecencyMembers(trace[..n]);
      TouchOfSuffix(Recency(trace[..n]), trace[n], capacity);
    }
  }

  // ----- misses -----

  /** How often a key of the trace is not on the bounded list when it is used. */
  function Misses<K(==)>(trace: seq<K>, capacity: nat): nat {
    if trace == [] then 0
    else
      var n := |trace| - 1;
      Misses(trace[..n], capacity) + if trace[n] in Bounded(trace[..n], capacity) then 0 else 1
  }

  lemma SuffixOfLargerBound<K>(q: seq<K>, c: nat, d: nat)
    requires c <= d
    ensures Suffix(q, c) == Suffix(Suffix(q, d), c)
    ensures forall k :: k in Suffix(q, c) ==> k in Suffix(q, d)
  {
  }

  lemma {:induction false} MissesFallWithCapacity<K>(trace: seq<K>, c: nat, d: nat)
    requires 1 <= c <= d
    ensures Misses(trace, d) <= Misses(trace, c)
  {
    if trace != [] {
      var n := |trace| - 1;
      MissesFallWithCapacity(trace[..n], c, d);
      BoundedIsSuffix(trace[..n], c);
      BoundedIsSuffix(trace[..n], d);
      SuffixOfLargerBound(Recency(trace[..n]), c, d);
    }
  }

  lemma RecencyGrows<K>(trace: seq<K>)
    requires trace != []
    ensures var n := |trace| - 1;
            |Recency(trace)| == |Recency(trace[..n])| + if trace[n] in Recency(trace[..n]) then 0 else 1
  {
    var n := |trace| - 1;
    var before := Recency(trace[..n]);
    RecencyMembers(trace[..n]);
    RemoveMembers(before, trace[n]);
    if trace[n] in before {
      var at :| 0 <= at < |before| && before[at] == trace[n];
      RemoveAt(before, at);
    }
  }

  lemma {:induction false} MissesWhenEverythingFits<K>(trace: seq<K>, capacity: nat)
    requires capacity >= 1 && |Recency(trace)| <= capacity
    ensures Misses(trace, capacity) == |Recency(trace)|
  {
    if trace != [] {
      var n := |trace| - 1;
      RecencyGrows(trace);
      MissesWhenEverythingFits(trace[..n], capacity);
      BoundedIsSuffix(trace[..n], capacity);
    }
  }

  /** How often the trace moves to another key than the one before; the first use counts. */
  function Changes<K(==)>(trace: seq<K>): nat {
    if trace == [] then 0
    else
      var n := |trace| - 1;
      Changes(trace[..n]) + if n > 0 && trace[n - 1] == trace[n] then 0 else 1
  }

  lemma {:induction false} MissesAtCapacityOne<K>(trace: seq<K>)
    ensures Misses(trace, 1) == Changes(trace)
    ensures Bounded(trace, 1) == if trace == [] then [] else [trace[|trace| - 1]]
  {
    if trace != [] { MissesAtCapacityOne(trace[..|trace| - 1]); }
  }

  lemma {:induction false} RecencyCountsDistinctKeys<K>(trace: seq<K>)
    ensures |Recency(trace)| == |(set k | k in trace)|
  {
    if trace != [] {
      var n := |trace| - 1;
      RecencyCountsDistinctKeys(trace[..n]);
      RecencyGrows(trace);
      RecencyMembers(trace[..n]);
      assert trace == trace[..n] + [trace[n]];
      assert (set k | k in trace) == (set k | k in trace[..n]) + {trace[n]};
    }
  }
}
