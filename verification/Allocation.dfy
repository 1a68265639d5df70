// Splitting a discount over the lines of a ticket by largest remainder
// (pos-discounts.ts, allocateCents). The exact quota of weight w is
// total * w / sum; quotas are kept as a floor and an integer remainder.
module Allocation {
  import opened Arithmetic
  import opened Common
  import opened Sorting

  // A line's place in the rounding queue: its index and its remainder
  // (total * w mod sum).
  datatype Rest = Rest(i: nat, rest: nat)

  // Largest remainder first, ties to the earlier line.
  predicate Before(a: Rest, b: Rest) {
    a.rest > b.rest || (a.rest == b.rest && a.i <= b.i)
  }

  function WeightSum(weights: seq<int>): (r: nat) {
    if |weights| == 0 then 0 else Max(0, weights[0]) + WeightSum(weights[1..])
  }

  // The floors of the exact quotas.
  function Floors(total: nat, weights: seq<int>, sum: nat): (r: seq<int>)
    requires sum > 0
    ensures |r| == |weights|
  {
    seq(|weights|, i requires 0 <= i < |weights| => total * Max(0, weights[i]) / sum)
  }

  // What flooring each quota drops, in units of 1/sum.
  function Remainders(total: nat, weights: seq<int>, sum: nat): (r: seq<nat>)
    requires sum > 0
    ensures |r| == |weights| && forall i :: 0 <= i < |r| ==> r[i] < sum
  {
    seq(|weights|, i requires 0 <= i < |weights| => total * Max(0, weights[i]) % sum)
  }

  function Entries(rests: seq<nat>, from: nat): (r: seq<Rest>)
    requires from <= |rests|
    ensures |r| == |rests| - from
    ensures forall k :: 0 <= k < |r| ==> r[k] == Rest(from + k, rests[from + k])
    decreases |rests| - from
  {
    if from == |rests| then [] else [Rest(from, rests[from])] + Entries(rests, from + 1)
  }

  // The queue for the cents the floors leave over: every line once.
  function Queue(rests: seq<nat>): (r: seq<Rest>)
    ensures |r| == |rests|
    ensures forall j :: 0 <= j < |r| ==> r[j].i < |rests| && r[j].rest == rests[r[j].i]
  {
    var q := Sort(Entries(rests, 0), Before);
    assert forall j :: 0 <= j < |q| ==> q[j] in Entries(rests, 0);
    q
  }

  // One more cent for the first k of the queue.
  function Bumped(shares: seq<int>, queue: seq<Rest>, k: nat): (r: seq<int>)
    requires k <= |queue|
    requires forall j :: 0 <= j < |queue| ==> queue[j].i < |shares|
    ensures |r| == |shares|
  {
    if k == 0 then shares
    else
      var s := Bumped(shares, queue, k - 1);
      var i := queue[k - 1].i;
      s[i := s[i] + 1]
  }

  // The value of allocateCents.
  function Shares(total: int, weights: seq<int>): (r: seq<int>)
    ensures |r| == |weights|
  {
    var sum := WeightSum(weights);
    if total <= 0 || sum <= 0 then seq(|weights|, _ => 0)
    else
      var floors := Floors(total, weights, sum);
      LeftoverBound(total, weights);
      Bumped(floors, Queue(Remainders(total, weights, sum)), total - Sum(floors))
  }

  // ------------------------------------------------------- quotas and floors

  lemma SplitStep(q: int, m: int, sf: int, sr: int, total: int, w: int, sw: int, sum: int)
    requires q * sum + m == total * w && sf * sum + sr == total * sw
    ensures (q + sf) * sum + (m + sr) == total * (w + sw)
  {
    Distribute(q, sf, sum);
    Distribute(w, sw, total);
  }

  lemma QuotaAt(total: nat, weights: seq<int>, sum: nat, i: nat)
    requires sum > 0 && i < |weights|
    ensures Floors(total, weights, sum)[i] * sum + Remainders(total, weights, sum)[i] == total * Max(0, weights[i])
    ensures 0 <= Floors(total, weights, sum)[i]
  {
    DivMod(total * Max(0, weights[i]), sum);
  }

  lemma {:induction false} FloorsAndRemainders(total: nat, weights: seq<int>, sum: nat)
    requires sum > 0
    ensures Sum(Floors(total, weights, sum)) * sum + Sum(Remainders(total, weights, sum)) == total * WeightSum(weights)
  {
    if |weights| > 0 {
      var f, r := Floors(total, weights, sum), Remainders(total, weights, sum);
      FloorsAndRemainders(total, weights[1..], sum);
      assert f[1..] == Floors(total, weights[1..], sum);
      assert r[1..] == Remainders(total, weights[1..], sum);
      QuotaAt(total, weights, sum, 0);
      SplitStep(f[0], r[0], Sum(f[1..]), Sum(r[1..]), total, Max(0, weights[0]), WeightSum(weights[1..]), sum);
    }
  }

  // --------------------------------------------------------------- the queue

  function RestSum(rests: seq<Rest>): (r: nat) {
    if |rests| == 0 then 0 else rests[0].rest + RestSum(rests[1..])
  }

  lemma {:induction false} EntriesSum(rests: seq<nat>, from: nat)
    requires from <= |rests|
    ensures RestSum(Entries(rests, from)) == Sum(rests[from..])
    decreases |rests| - from
  {
    if from < |rests| {
      EntriesSum(rests, from + 1);
      assert rests[from..][1..] == rests[from + 1..];
      assert Entries(rests, from)[1..] == Entries(rests, from + 1);
    }
  }

  lemma {:induction false} InsertRestSum(x: Rest, s: seq<Rest>)
    ensures RestSum(Insert(x, s, Before)) == x.rest + RestSum(s)
  {
    if |s| > 0 && !Before(x, s[0]) {
      InsertRestSum(x, s[1..]);
    }
  }

  lemma {:induction false} SortRestSum(s: seq<Rest>)
    ensures RestSum(Sort(s, Before)) == RestSum(s)
  {
    if |s| > 0 {
      SortRestSum(s[1..]);
      InsertRestSum(s[0], Sort(s[1..], Before));
    }
  }

  lemma {:induction false} RestSumBound(rests: seq<Rest>, sum: nat, k: nat)
    requires k <= |rests|
    requires forall j :: 0 <= j < |rests| ==> rests[j].rest < sum
    requires forall j :: k <= j < |rests| ==> rests[j].rest == 0
    ensures RestSum(rests) <= k * sum
  {
    if |rests| > 0 {
      if k == 0 {
        RestSumBound(rests[1..], sum, 0);
      } else {
        RestSumBound(rests[1..], sum, k - 1);
        Distribute(k, 1, sum);
      }
    }
  }

  // The queue holds every line once, in order.
  lemma QueueOrder(rests: seq<nat>)
    ensures var q := Queue(rests);
      && (forall j, k :: 0 <= j < k < |q| ==> q[j].i != q[k].i && Before(q[j], q[k]))
      && (forall i :: 0 <= i < |rests| ==> Rest(i, rests[i]) in q)
  {
    var entries := Entries(rests, 0);
    var q := Queue(rests);
    SortSorted(entries, Before);
    SortDistinct(entries, Before);
    forall i | 0 <= i < |rests| ensures Rest(i, rests[i]) in q {
      assert entries[i] in q;
    }
  }

  lemma FactorBound(left: int, sum: nat, product: nat, k: nat)
    requires sum > 0 && left * sum == product <= k * sum
    ensures 0 <= left <= k
  {
    ProductOrder(left, -1, sum);
    ProductOrder(k, left, sum);
  }

  // If the remainders amount to `left` whole units, the lines without a
  // remainder start beyond place `left`.
  lemma LeftoverReach(rests: seq<nat>, sum: nat, left: int, k: nat)
    requires sum > 0 && k <= |rests|
    requires forall i :: 0 <= i < |rests| ==> rests[i] < sum
    requires left * sum == Sum(rests)
    requires forall j :: k <= j < |rests| ==> Queue(rests)[j].rest == 0
    ensures 0 <= left <= k
  {
    EntriesSum(rests, 0);
    assert rests[0..] == rests;
    SortRestSum(Entries(rests, 0));
    RestSumBound(Queue(rests), sum, k);
    FactorBound(left, sum, RestSum(Queue(rests)), k);
  }

  lemma LeftoverIsWhole(total: nat, weights: seq<int>)
    requires WeightSum(weights) > 0
    ensures var sum := WeightSum(weights);
      (total - Sum(Floors(total, weights, sum))) * sum == Sum(Remainders(total, weights, sum))
  {
    var sum := WeightSum(weights);
    FloorsAndRemainders(total, weights, sum);
    Distribute(total, Sum(Floors(total, weights, sum)), sum);
  }

  lemma LeftoverBound(total: nat, weights: seq<int>)
    requires WeightSum(weights) > 0
    ensures 0 <= total - Sum(Floors(total, weights, WeightSum(weights))) <= |weights|
  {
    var sum := WeightSum(weights);
    LeftoverIsWhole(total, weights);
    LeftoverReach(Remainders(total, weights, sum), sum, total - Sum(Floors(total, weights, sum)), |weights|);
  }

  ghost predicate Reached(queue: seq<Rest>, k: nat, i: nat)
    requires k <= |queue|
  {
    exists j :: 0 <= j < k && queue[j].i == i
  }

  lemma ReachedHasRest(rests: seq<nat>, sum: nat, left: nat, i: nat)
    requires sum > 0 && left <= |rests| && i < |rests|
    requires forall j :: 0 <= j < |rests| ==> rests[j] < sum
    requires left * sum == Sum(rests)
    requires Reached(Queue(rests), left, i)
    ensures rests[i] > 0
  {
    var j :| 0 <= j < left && Queue(rests)[j].i == i;
    if rests[i] == 0 {
      RestsRunOut(rests, j);
      LeftoverReach(rests, sum, left, j);
    }
  }

  lemma RestsRunOut(rests: seq<nat>, j: nat)
    requires j < |rests| && Queue(rests)[j].rest == 0
    ensures forall l :: j <= l < |rests| ==> Queue(rests)[l].rest == 0
  {
    var queue := Queue(rests);
    QueueOrder(rests);
    forall l | j <= l < |rests| ensures queue[l].rest == 0 {
      assert j < l ==> Before(queue[j], queue[l]);
    }
  }

  // Whoever is ahead in the queue is reached first.
  lemma ReachedInOrder(rests: seq<nat>, left: nat, i: nat, j: nat)
    requires left <= |rests| && i < |rests| && j < |rests|
    requires rests[i] > rests[j] || (rests[i] == rests[j] && i < j)
    requires Reached(Queue(rests), left, j)
    ensures Reached(Queue(rests), left, i)
  {
    var queue := Queue(rests);
    QueueOrder(rests);
    var k :| 0 <= k < left && queue[k].i == j;
    assert Rest(i, rests[i]) in queue;
    var l :| 0 <= l < |queue| && queue[l] == Rest(i, rests[i]);
    assert l > k ==> Before(queue[k], queue[l]);
  }

  lemma {:induction false} BumpedSum(shares: seq<int>, queue: seq<Rest>, k: nat)
    requires k <= |queue|
    requires forall j :: 0 <= j < |queue| ==> queue[j].i < |shares|
    ensures Sum(Bumped(shares, queue, k)) == Sum(shares) + k
  {
    if k > 0 {
      BumpedSum(shares, queue, k - 1);
      var s := Bumped(shares, queue, k - 1);
      SumUpdate(s, queue[k - 1].i, s[queue[k - 1].i] + 1);
    }
  }

  lemma {:induction false} BumpedAt(shares: seq<int>, queue: seq<Rest>, k: nat, i: nat)
    requires k <= |queue| && i < |shares|
    requires forall j :: 0 <= j < |queue| ==> queue[j].i < |shares|
    requires forall j, l :: 0 <= j < l < |queue| ==> queue[j].i != queue[l].i
    ensures Bumped(shares, queue, k)[i] == shares[i] + if Reached(queue, k, i) then 1 else 0
  {
    if k > 0 {
      BumpedAt(shares, queue, k - 1, i);
      if queue[k - 1].i == i {
        assert Reached(queue, k, i);
      }
    }
  }

  // --------------------------------------------------------------- results

  lemma {:induction false} ZeroSum(s: seq<int>)
    requires forall i :: 0 <= i < |s| ==> s[i] == 0
    ensures Sum(s) == 0
  {
    if |s| > 0 { ZeroSum(s[1..]); }
  }

  // Conservation: the shares of a positive total over a positive weight sum
  // add up to the total, to the cent; otherwise nothing is handed out.
  lemma SharesAddUp(total: int, weights: seq<int>)
    ensures Sum(Shares(total, weights)) == if total > 0 && WeightSum(weights) > 0 then total else 0
  {
    hide Floors, Remainders, Queue, Bumped, Sum, WeightSum;
    var sum := WeightSum(weights);
    if total > 0 && sum > 0 {
      var floors := Floors(total, weights, sum);
      LeftoverBound(total, weights);
      BumpedSum(floors, Queue(Remainders(total, weights, sum)), total - Sum(floors));
    } else {
      ZeroSum(Shares(total, weights));
    }
  }

  // A share is its floor, plus one exactly for the lines the queue reaches,
  // and those have a remainder.
  lemma ShareAt(total: int, weights: seq<int>, i: nat)
    requires total > 0 && WeightSum(weights) > 0 && i < |weights|
    ensures var sum := WeightSum(weights); var rests := Remainders(total, weights, sum);
      var left := total - Sum(Floors(total, weights, sum));
      && 0 <= left <= |rests|
      && Shares(total, weights)[i]
         == Floors(total, weights, sum)[i] + (if Reached(Queue(rests), left, i) then 1 else 0)
      && (Reached(Queue(rests), left, i) ==> rests[i] > 0)
  {
    var sum := WeightSum(weights);
    var rests := Remainders(total, weights, sum);
    var floors := Floors(total, weights, sum);
    hide Floors, Remainders, Queue, Reached, Sum, WeightSum, Bumped;
    LeftoverHasRest(total, weights, i);
    BumpedByQueue(floors, rests, total - Sum(floors), i);
  }

  lemma BumpedByQueue(shares: seq<int>, rests: seq<nat>, k: nat, i: nat)
    requires |shares| == |rests| && k <= |rests| && i < |rests|
    ensures Bumped(shares, Queue(rests), k)[i] == shares[i] + if Reached(Queue(rests), k, i) then 1 else 0
  {
    hide Queue, Reached, Bumped, Before;
    QueueOrder(rests);
    BumpedAt(shares, Queue(rests), k, i);
  }

  lemma LeftoverHasRest(total: nat, weights: seq<int>, i: nat)
    requires WeightSum(weights) > 0 && i < |weights|
    ensures var sum := WeightSum(weights); var rests := Remainders(total, weights, sum);
      var left := total - Sum(Floors(total, weights, sum));
      0 <= left <= |rests| && (Reached(Queue(rests), left, i) ==> rests[i] > 0)
  {
    hide Floors, Remainders, Queue, Reached, Sum, WeightSum;
    var sum := WeightSum(weights);
    var rests := Remainders(total, weights, sum);
    var left := total - Sum(Floors(total, weights, sum));
    LeftoverBound(total, weights);
    LeftoverIsWhole(total, weights);
    if Reached(Queue(rests), left, i) {
      ReachedHasRest(rests, sum, left, i);
    }
  }

  lemma NearQuota(total: nat, w: nat, sum: nat, q: nat, m: nat, share: nat)
    requires total > 0 && m < sum && q * sum + m == total * w
    requires share == q || (share == q + 1 && m > 0)
    ensures total * w - sum < share * sum < total * w + sum
    ensures w == 0 ==> share == 0
    ensures total <= sum ==> share <= w
  {
    Distribute(q, 1, sum);
    ProductOrder(w, share, sum);
    ProductOrder(total, sum, w);
    ProductOrder(0, q, sum);
  }

  // Quota: every share is its exact quota rounded down or up to a cent, so a
  // line of weight 0 gets nothing and no share exceeds its weight while the
  // total does not exceed the sum of the weights.
  lemma SharesMeetQuota(total: int, weights: seq<int>, i: nat)
    requires i < |weights|
    ensures var share := Shares(total, weights)[i]; var sum := WeightSum(weights); var w := Max(0, weights[i]);
      && 0 <= share
      && (total > 0 && sum > 0 ==> total * w - sum < share * sum < total * w + sum)
      && (w == 0 || total <= 0 || sum == 0 ==> share == 0)
      && (total <= sum ==> share <= w)
  {
    var sum := WeightSum(weights);
    if total > 0 && sum > 0 {
      hide *;
      ShareAt(total, weights, i);
      QuotaAt(total, weights, sum, i);
      NearQuota(total, Max(0, weights[i]), sum, Floors(total, weights, sum)[i], Remainders(total, weights, sum)[i],
        Shares(total, weights)[i]);
    }
  }

  lemma QuotaMonotone(total: nat, wi: nat, wj: nat, sum: nat, qi: int, qj: int, mi: nat, mj: nat)
    requires total > 0 && wi >= wj && mi < sum && mj < sum
    requires qi * sum + mi == total * wi && qj * sum + mj == total * wj
    ensures qi >= qj
    ensures qi == qj ==> mi >= mj && (wi > wj ==> mi > mj)
  {
    ProductOrder(wj, wi, total);
    ProductOrder(qi, qj, sum);
  }

  // Fairness: a heavier line never gets less than a lighter one, and of two
  // equally heavy lines the earlier one never gets less.
  lemma SharesFollowWeights(total: int, weights: seq<int>, i: nat, j: nat)
    requires i < |weights| && j < |weights|
    requires weights[i] > weights[j] || (weights[i] == weights[j] && i < j)
    ensures Shares(total, weights)[i] >= Shares(total, weights)[j]
  {
    var sum := WeightSum(weights);
    if total > 0 && sum > 0 {
      var rests := Remainders(total, weights, sum);
      var floors := Floors(total, weights, sum);
      var left := total - Sum(floors);
      ShareAt(total, weights, i);
      ShareAt(total, weights, j);
      QuotaAt(total, weights, sum, i);
      QuotaAt(total, weights, sum, j);
      QuotaMonotone(total, Max(0, weights[i]), Max(0, weights[j]), sum, floors[i], floors[j], rests[i], rests[j]);
      if floors[i] == floors[j] && Reached(Queue(rests), left, j) {
        ReachedInOrder(rests, left, i, j);
      }
    }
  }

  // Line i got more than its exact quota.
  predicate RoundedUp(total: int, weights: seq<int>, i: nat)
    requires i < |weights|
  {
    Shares(total, weights)[i] * WeightSum(weights) > total * Max(0, weights[i])
  }

  lemma UpIsOneMore(n: nat, sum: nat, q: int, m: nat, share: int)
    requires m < sum && q * sum + m == n && (share == q || share == q + 1)
    ensures share * sum > n <==> share == q + 1
  {
    Distribute(q, 1, sum);
  }

  // total * w mod sum, what flooring cuts off a quota.
  function CutOff(total: int, weights: seq<int>, i: nat): (r: int)
    requires WeightSum(weights) > 0 && i < |weights|
  {
    total * Max(0, weights[i]) % WeightSum(weights)
  }

  lemma UpIsReached(total: nat, weights: seq<int>, i: nat)
    requires total > 0 && WeightSum(weights) > 0 && i < |weights|
    ensures var sum := WeightSum(weights); var rests := Remainders(total, weights, sum);
      var left := total - Sum(Floors(total, weights, sum));
      && 0 <= left <= |rests| && rests[i] == CutOff(total, weights, i)
      && (RoundedUp(total, weights, i) <==> Reached(Queue(rests), left, i))
  {
    var sum := WeightSum(weights);
    var rests, floors := Remainders(total, weights, sum), Floors(total, weights, sum);
    assert rests[i] == CutOff(total, weights, i);
    hide Shares, WeightSum, Floors, Remainders, Reached, Queue, Sum, CutOff;
    ShareAt(total, weights, i);
    QuotaAt(total, weights, sum, i);
    UpIsOneMore(total * Max(0, weights[i]), sum, floors[i], rests[i], Shares(total, weights)[i]);
  }

  // Largest remainder: the cents the floors leave over go to the lines whose
  // exact quota was cut most, and of two cut alike to the earlier one.
  lemma LargestRemainderFirst(total: int, weights: seq<int>, i: nat, j: nat)
    requires total > 0 && WeightSum(weights) > 0 && i < |weights| && j < |weights|
    requires CutOff(total, weights, i) > CutOff(total, weights, j)
      || (CutOff(total, weights, i) == CutOff(total, weights, j) && i < j)
    requires RoundedUp(total, weights, j)
    ensures RoundedUp(total, weights, i)
  {
    hide *;
    var sum := WeightSum(weights);
    UpIsReached(total, weights, i);
    UpIsReached(total, weights, j);
    ReachedInOrder(Remainders(total, weights, sum), total - Sum(Floors(total, weights, sum)), i, j);
  }

  // allocateCents itself: floors first, then one cent along the queue while
  // any are left.
  method AllocateCents(total: int, weights: seq<int>) returns (shares: seq<int>)
    ensures shares == Shares(total, weights)
  {
    var sum := WeightSum(weights);
    if total <= 0 || sum <= 0 {
      return seq(|weights|, _ => 0);
    }
    var floors := Floors(total, weights, sum);
    shares := floors;
    var left := total - Sum(floors);
    var order := Queue(Remainders(total, weights, sum));
    LeftoverBound(total, weights);
    var k := 0;
    while k < |order|
      invariant 0 <= k <= |order|
      invariant 0 <= left == total - Sum(floors) - k
      invariant shares == Bumped(floors, order, k)
    {
      if left <= 0 { break; }
      var i := order[k].i;
      shares := shares[i := shares[i] + 1];
      left := left - 1;
      k := k + 1;
    }
  }
}
