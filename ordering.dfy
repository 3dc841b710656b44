/**
 * The filter-and-sort that the two listing queries ask of the database:
 * `WHERE <filter> ORDER BY created_at DESC`, optionally with a LIMIT.
 *
 * Rows are enumerated in identifier order and then sorted newest first by a
 * stable insertion sort; SQL leaves the order of equal timestamps open, and
 * this is one of the orders it allows.
 */
module Ordering {
  import opened Store

  /** Every identifier in `ids` names a row of `payments`. */
  predicate AllIn(payments: map<PaymentId, Payment>, ids: seq<PaymentId>) {
    forall i :: 0 <= i < |ids| ==> ids[i] in payments
  }

  /** The identifiers below `bound` whose rows satisfy `keep`, in increasing order. */
  function Select(payments: map<PaymentId, Payment>, bound: nat, keep: Payment -> bool): (ids: seq<PaymentId>)
    ensures forall i :: 0 <= i < |ids| ==> ids[i] in payments && ids[i] < bound && keep(payments[ids[i]])
  {
    if bound == 0 then []
    else
      var last := bound - 1;
      Select(payments, last, keep) + (if last in payments && keep(payments[last]) then [last] else [])
  }

  /** Each matching row appears exactly once, and nothing else appears. */
  lemma {:induction false} SelectCount(payments: map<PaymentId, Payment>, bound: nat, keep: Payment -> bool, x: PaymentId)
    ensures multiset(Select(payments, bound, keep))[x]
         == if x < bound && x in payments && keep(payments[x]) then 1 else 0
  {
    if bound > 0 {
      SelectCount(payments, bound - 1, keep, x);
    }
  }

  /** Ordered by `created_at`, newest first. */
  predicate NewestFirst(payments: map<PaymentId, Payment>, ids: seq<PaymentId>)
    requires AllIn(payments, ids)
  {
    forall i, j :: 0 <= i < j < |ids| ==> payments[ids[i]].createdAt >= payments[ids[j]].createdAt
  }

  /** Places `x` before the first entry that is not newer than it. */
  function Insert(payments: map<PaymentId, Payment>, x: PaymentId, ids: seq<PaymentId>): (r: seq<PaymentId>)
    requires x in payments && AllIn(payments, ids) && NewestFirst(payments, ids)
    ensures AllIn(payments, r)
    ensures forall i :: 0 <= i < |r| ==> r[i] == x || r[i] in ids
    ensures NewestFirst(payments, r)
    ensures multiset(r) == multiset(ids) + multiset{x}
    ensures |r| == |ids| + 1
  {
    if ids == [] || payments[x].createdAt >= payments[ids[0]].createdAt then
      [x] + ids
    else
      var rest := Insert(payments, x, ids[1..]);
      PrependOlder(payments, x, ids, rest);
      [ids[0]] + rest
  }

  /** The step of Insert that keeps the head in front of the rest. */
  lemma PrependOlder(payments: map<PaymentId, Payment>, x: PaymentId, ids: seq<PaymentId>, rest: seq<PaymentId>)
    requires x in payments && AllIn(payments, ids) && NewestFirst(payments, ids) && ids != []
    requires payments[x].createdAt < payments[ids[0]].createdAt
    requires AllIn(payments, rest) && NewestFirst(payments, rest)
    requires forall i :: 0 <= i < |rest| ==> rest[i] == x || rest[i] in ids[1..]
    requires multiset(rest) == multiset(ids[1..]) + multiset{x}
    ensures AllIn(payments, [ids[0]] + rest)
    ensures forall i :: 0 <= i < |[ids[0]] + rest| ==> ([ids[0]] + rest)[i] == x || ([ids[0]] + rest)[i] in ids
    ensures NewestFirst(payments, [ids[0]] + rest)
    ensures multiset([ids[0]] + rest) == multiset(ids) + multiset{x}
  {
    var r := [ids[0]] + rest;
    assert ids == [ids[0]] + ids[1..];
    forall i | 0 <= i < |rest|
      ensures payments[rest[i]].createdAt <= payments[ids[0]].createdAt
    {
      if rest[i] != x {
        var k :| 0 <= k < |ids[1..]| && ids[1..][k] == rest[i];
        assert ids[k + 1] == rest[i];
      }
    }
    forall i, j | 0 <= i < j < |r|
      ensures payments[r[i]].createdAt >= payments[r[j]].createdAt
    {
      if i > 0 {
        assert r[i] == rest[i - 1] && r[j] == rest[j - 1];
      } else {
        assert r[j] == rest[j - 1];
      }
    }
  }

  /** ORDER BY created_at DESC: a newest-first permutation of `ids`. */
  function SortNewest(payments: map<PaymentId, Payment>, ids: seq<PaymentId>): (r: seq<PaymentId>)
    requires AllIn(payments, ids)
    ensures AllIn(payments, r) && NewestFirst(payments, r)
    ensures multiset(r) == multiset(ids)
    ensures |r| == |ids|
  {
    if ids == [] then []
    else
      assert ids == [ids[0]] + ids[1..];
      Insert(payments, ids[0], SortNewest(payments, ids[1..]))
  }

  /** LIMIT n. */
  function Take(ids: seq<PaymentId>, n: nat): (r: seq<PaymentId>)
    ensures |r| == if |ids| < n then |ids| else n
    ensures r == ids[..|r|]
  {
    if |ids| < n then ids else ids[..n]
  }

  /** The rows below `bound` satisfying `keep`, newest first, at most `n` of them. */
  function Top(payments: map<PaymentId, Payment>, bound: nat, keep: Payment -> bool, n: nat): seq<PaymentId> {
    Take(SortNewest(payments, Select(payments, bound, keep)), n)
  }

  /** Sorting keeps each matching row exactly once and nothing else. */
  lemma {:induction false} SortedSelectCount(payments: map<PaymentId, Payment>, bound: nat, keep: Payment -> bool, x: PaymentId)
    requires forall id :: id in payments ==> id < bound
    ensures multiset(SortNewest(payments, Select(payments, bound, keep)))[x]
         == if x in payments && keep(payments[x]) then 1 else 0
  {
    SelectCount(payments, bound, keep, x);
  }

  /** The result is a newest-first prefix of the sorted selection. */
  lemma TopOrdered(payments: map<PaymentId, Payment>, bound: nat, keep: Payment -> bool, n: nat)
    ensures var all := Select(payments, bound, keep);
      var top := Top(payments, bound, keep, n);
      && top == SortNewest(payments, all)[..|top|]
      && |top| == (if |all| < n then |all| else n)
      && AllIn(payments, top)
      && NewestFirst(payments, top)
  {
  }

  /** A prefix holds each element at most as often as the whole sequence. */
  lemma PrefixCount(s: seq<PaymentId>, k: nat, x: PaymentId)
    requires k <= |s|
    ensures multiset(s[..k])[x] <= multiset(s)[x]
  {
    assert s == s[..k] + s[k..];
  }

  /** Every listed row matches, and none is listed twice. */
  lemma TopMembers(payments: map<PaymentId, Payment>, bound: nat, keep: Payment -> bool, n: nat, x: PaymentId)
    requires forall id :: id in payments ==> id < bound
    ensures multiset(Top(payments, bound, keep, n))[x] <= if x in payments && keep(payments[x]) then 1 else 0
  {
    var sorted := SortNewest(payments, Select(payments, bound, keep));
    var top := Top(payments, bound, keep, n);
    assert top == sorted[..|top|];
    SortedSelectCount(payments, bound, keep, x);
    PrefixCount(sorted, |top|, x);
  }

  /** A matching row that is left out is no newer than any listed row; with room for all, none is left out. */
  lemma TopNewest(payments: map<PaymentId, Payment>, bound: nat, keep: Payment -> bool, n: nat, x: PaymentId)
    requires forall id :: id in payments ==> id < bound
    requires x in payments && keep(payments[x])
    ensures var top := Top(payments, bound, keep, n);
      && (|Select(payments, bound, keep)| <= n ==> x in top)
      && (x !in top ==> forall i :: 0 <= i < |top| ==> payments[x].createdAt <= payments[top[i]].createdAt)
  {
    var sorted := SortNewest(payments, Select(payments, bound, keep));
    var top := Top(payments, bound, keep, n);
    TopOrdered(payments, bound, keep, n);
    SortedSelectCount(payments, bound, keep, x);
    assert x in multiset(sorted);
    var k :| 0 <= k < |sorted| && sorted[k] == x;
    if x !in top {
      assert k >= |top|;
      forall i | 0 <= i < |top|
        ensures payments[x].createdAt <= payments[top[i]].createdAt
      {
        assert top[i] == sorted[i];
      }
    }
  }
}
