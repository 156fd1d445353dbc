/**
 * The group partitioner of app.js (`createGroups`, app.js:452-468): clamp the
 * group size, compute the number of groups (folding a lone leftover student
 * into the other groups), shuffle the roster and deal it round-robin.
 */
module Groups {
  import opened ListOps
  import opened Numeric

  // ---------------------------------------------------------------------------
  // group count
  // ---------------------------------------------------------------------------

  /** `Math.max(2, groupSize)`. */
  function NormalizedSize(groupSize: int): (s: nat)
    ensures s >= 2 && s >= groupSize
    ensures s == 2 || s == groupSize
  {
    if groupSize < 2 then 2 else groupSize
  }

  /** `Math.ceil(n / s)` for a non-negative `n` and a positive `s`: the least `c`
      with `n <= c * s`. */
  function CeilDiv(n: nat, s: nat): (c: nat)
    requires s > 0
    ensures n <= c * s && (c == 0 || (c - 1) * s < n)
  {
    var q, r := n / s, n % s;
    assert n == q * s + r;
    if r == 0 then q else q + 1
  }

  /** The number of groups `createGroups` allocates for `n` students: one fewer
      than the ceiling when exactly one student would be left alone. */
  function GroupCount(n: nat, groupSize: int): (g: nat)
    ensures n == 0 <==> g == 0
    ensures g <= n
  {
    var s := NormalizedSize(groupSize);
    var c := CeilDiv(n, s);
    MulAtLeast(s, 1);
    if n % s == 1 && c > 1 then c - 1 else c
  }

  /** The count rule: with `s = max(2, size)`, the count is `ceil(n/s)` less one
      exactly when `n % s == 1` and the ceiling exceeds one; every group then
      gets at least two students when `n >= 2`, groups hold at most `s`
      students unless a leftover was absorbed, and never more than `s + 1`. */
  lemma GroupCountBounds(n: nat, groupSize: int)
    ensures var s := NormalizedSize(groupSize); var g := GroupCount(n, groupSize);
      && (g == if n % s == 1 && CeilDiv(n, s) > 1 then CeilDiv(n, s) - 1 else CeilDiv(n, s))
      && (n >= 2 ==> 2 * g <= n)
      && (n % s != 1 ==> n <= g * s)
      && n <= g * (s + 1)
  {
    CountCapacity(n, NormalizedSize(groupSize), GroupCount(n, groupSize));
  }

  /** The capacity facts behind `GroupCountBounds`, for any size `s >= 2`. */
  lemma CountCapacity(n: nat, s: nat, g: nat)
    requires s >= 2
    requires g == if n % s == 1 && CeilDiv(n, s) > 1 then CeilDiv(n, s) - 1 else CeilDiv(n, s)
    ensures n >= 2 ==> 2 * g <= n
    ensures n % s != 1 ==> n <= g * s
    ensures n <= g * (s + 1)
  {
    var q, r := n / s, n % s;
    assert n == q * s + r;
    MulMonotone(2, s, q);
    assert 2 * q <= q * s;
    if r == 1 && q >= 1 {
      assert g == q;
      assert g * (s + 1) == q * s + q;
    } else if r == 0 {
      assert g == q;
      assert g * (s + 1) == q * s + q;
    } else {
      assert g == q + 1;
      assert g * s == q * s + s;
      assert g * (s + 1) == q * s + s + q + 1;
    }
  }

  // ---------------------------------------------------------------------------
  // round-robin dealing
  // ---------------------------------------------------------------------------

  /** The groups after `shuffled.forEach((student, index) =>
      groups[index % groupCount].push(student))` has run over `xs`. */
  function Deal<T>(xs: seq<T>, g: nat): (r: seq<seq<T>>)
    requires |xs| > 0 ==> g > 0
    ensures |r| == g
    decreases |xs|
  {
    if |xs| == 0 then seq(g, _ => [])
    else
      var d := Deal(xs[..|xs| - 1], g);
      var k := (|xs| - 1) % g;
      d[k := d[k] + [xs[|xs| - 1]]]
  }

  /** The groups one after another. */
  function Flatten<T>(gs: seq<seq<T>>): seq<T>
    decreases |gs|
  {
    if |gs| == 0 then [] else gs[0] + Flatten(gs[1..])
  }

  lemma {:induction false} FlattenEmpty<T>(gs: seq<seq<T>>)
    requires forall k :: 0 <= k < |gs| ==> gs[k] == []
    ensures Flatten(gs) == []
    decreases |gs|
  {
    if |gs| > 0 {
      FlattenEmpty(gs[1..]);
    }
  }

  lemma {:induction false} FlattenPush<T>(gs: seq<seq<T>>, k: nat, x: T)
    requires k < |gs|
    ensures multiset(Flatten(gs[k := gs[k] + [x]])) == multiset(Flatten(gs)) + multiset{x}
    decreases |gs|
  {
    var hs := gs[k := gs[k] + [x]];
    if k == 0 {
      assert hs[1..] == gs[1..];
    } else {
      assert hs[1..] == gs[1..][k - 1 := gs[1..][k - 1] + [x]];
      FlattenPush(gs[1..], k - 1, x);
    }
  }

  /** Dealing loses and invents no student: the groups together are a
      permutation of the dealt list. */
  lemma {:induction false} DealPermutation<T>(xs: seq<T>, g: nat)
    requires |xs| > 0 ==> g > 0
    ensures multiset(Flatten(Deal(xs, g))) == multiset(xs)
    decreases |xs|
  {
    if |xs| == 0 {
      FlattenEmpty(Deal(xs, g));
    } else {
      var init := xs[..|xs| - 1];
      DealPermutation(init, g);
      FlattenPush(Deal(init, g), (|xs| - 1) % g, xs[|xs| - 1]);
      assert xs == init + [xs[|xs| - 1]];
    }
  }

  /** Group k receives the students at indices k, k + g, k + 2g, ...: its size
      is `n / g`, plus one for the first `n % g` groups. */
  lemma {:induction false} DealSizes<T>(xs: seq<T>, g: nat, k: nat)
    requires g > 0 && k < g
    ensures |Deal(xs, g)[k]| == |xs| / g + (if k < |xs| % g then 1 else 0)
    decreases |xs|
  {
    if |xs| > 0 {
      var m := |xs| - 1;
      var d := Deal(xs[..m], g);
      DealSizes(xs[..m], g, k);
      var q0, r0 := m / g, m % g;
      assert |d[k]| == q0 + (if k < r0 then 1 else 0);
      assert |Deal(xs, g)[k]| == |d[k]| + (if k == r0 then 1 else 0);
      NextDivMod(m, g);
    }
  }

  /** How quotient and remainder move when the dividend grows by one. */
  lemma NextDivMod(m: nat, g: nat)
    requires g > 0
    ensures m % g + 1 < g ==> (m + 1) / g == m / g && (m + 1) % g == m % g + 1
    ensures m % g + 1 == g ==> (m + 1) / g == m / g + 1 && (m + 1) % g == 0
  {
    var q0, r0 := m / g, m % g;
    assert m == q0 * g + r0;
    if r0 + 1 < g {
      DivModUnique(m + 1, g, q0, r0 + 1);
    } else {
      assert m + 1 == (q0 + 1) * g + 0;
      DivModUnique(m + 1, g, q0 + 1, 0);
    }
  }

  /** With at least two items per group on average, the smallest share is two. */
  lemma QuotientAtLeastTwo(n: nat, g: nat)
    requires g > 0 && 2 * g <= n
    ensures n / g >= 2
  {
    var q, r := n / g, n % g;
    assert n == q * g + r;
    if q < 2 {
      MulMonotone(q, 1, g);
    }
  }

  /** When `n <= g * t`, no share of a round-robin deal exceeds `t`. */
  lemma CeilingAtMost(n: nat, g: nat, t: int)
    requires g > 0 && n <= g * t
    ensures n / g + (if n % g > 0 then 1 else 0) <= t
  {
    var q, r := n / g, n % g;
    assert n == q * g + r;
    if q > t || (r > 0 && q >= t) {
      MulMonotone(t, q, g);
    }
  }

  /** The shape `createGroups` promises for a roster of `n >= 2`: every group
      holds at least two students (no lone leftover), at most `s + 1` (at most
      `s` when no leftover was absorbed), and any two groups differ in size by
      at most one. */
  lemma PartitionShape<T>(xs: seq<T>, groupSize: int, k: nat, j: nat)
    requires |xs| >= 2
    requires k < GroupCount(|xs|, groupSize) && j < GroupCount(|xs|, groupSize)
    ensures var gs := Deal(xs, GroupCount(|xs|, groupSize)); var s := NormalizedSize(groupSize);
      && 2 <= |gs[k]| <= s + 1
      && (|xs| % s != 1 ==> |gs[k]| <= s)
      && |gs[k]| <= |gs[j]| + 1
  {
    var n, g, s := |xs|, GroupCount(|xs|, groupSize), NormalizedSize(groupSize);
    GroupCountBounds(n, groupSize);
    DealSizes(xs, g, k);
    DealSizes(xs, g, j);
    QuotientAtLeastTwo(n, g);
    CeilingAtMost(n, g, s + 1);
    if n % s != 1 {
      CeilingAtMost(n, g, s);
    }
  }

  /** With at least one student no group is empty; a single student makes one
      group of one. */
  lemma NoEmptyGroup<T>(xs: seq<T>, groupSize: int, k: nat)
    requires |xs| >= 1 && k < GroupCount(|xs|, groupSize)
    ensures |Deal(xs, GroupCount(|xs|, groupSize))[k]| >= 1
  {
    if |xs| >= 2 {
      PartitionShape(xs, groupSize, k, k);
    } else {
      GroupCountBounds(|xs|, groupSize);
      DealSizes(xs, GroupCount(|xs|, groupSize), k);
    }
  }

  /** `PartitionShape` for all pairs of groups at once. */
  lemma BalancedGroups<T>(xs: seq<T>, groupSize: int)
    requires |xs| >= 2
    ensures var gs, s := Deal(xs, GroupCount(|xs|, groupSize)), NormalizedSize(groupSize);
      forall k, j :: 0 <= k < |gs| && 0 <= j < |gs| ==>
        2 <= |gs[k]| <= |gs[j]| + 1 && |gs[k]| <= s + 1 && (|xs| % s != 1 ==> |gs[k]| <= s)
  {
    var gs, s := Deal(xs, GroupCount(|xs|, groupSize)), NormalizedSize(groupSize);
    forall k, j | 0 <= k < |gs| && 0 <= j < |gs|
      ensures 2 <= |gs[k]| <= |gs[j]| + 1 && |gs[k]| <= s + 1 && (|xs| % s != 1 ==> |gs[k]| <= s)
    {
      PartitionShape(xs, groupSize, k, j);
    }
  }

  /** Seven students in groups of three: the naive ceiling would give sizes
      3, 3 and 1; the leftover is absorbed and two groups of 4 and 3 result. */
  lemma SevenInThrees<T>(xs: seq<T>)
    requires |xs| == 7
    ensures GroupCount(7, 3) == 2
    ensures |Deal(xs, 2)[0]| == 4 && |Deal(xs, 2)[1]| == 3
  {
    DealSizes(xs, 2, 0);
    DealSizes(xs, 2, 1);
  }

  /** Eight students in groups of three: no leftover to absorb, sizes 3, 3, 2. */
  lemma EightInThrees<T>(xs: seq<T>)
    requires |xs| == 8
    ensures GroupCount(8, 3) == 3
    ensures |Deal(xs, 3)[0]| == 3 && |Deal(xs, 3)[1]| == 3 && |Deal(xs, 3)[2]| == 2
  {
    DealSizes(xs, 3, 0);
    DealSizes(xs, 3, 1);
    DealSizes(xs, 3, 2);
  }

  // ---------------------------------------------------------------------------
  // createGroups
  // ---------------------------------------------------------------------------

  /** The groups `createGroups(students, groupSize)` returns for the given
      draws: the shuffled roster dealt round-robin into `GroupCount` groups. */
  function Partition(students: seq<string>, groupSize: int, draws: seq<nat>): (gs: seq<seq<string>>)
    requires ValidDraws(draws, |students|)
    ensures |gs| == GroupCount(|students|, groupSize)
  {
    Deal(FisherYates(students, draws, |students| - 1), GroupCount(|students|, groupSize))
  }

  /** Whatever the draws, the groups hold exactly the students, and with at
      least two students every group has two or more members and any two
      groups differ in size by at most one. */
  lemma PartitionBalanced(students: seq<string>, groupSize: int, draws: seq<nat>)
    requires ValidDraws(draws, |students|)
    ensures multiset(Flatten(Partition(students, groupSize, draws))) == multiset(students)
    ensures var gs := Partition(students, groupSize, draws);
      var s := NormalizedSize(groupSize);
      |students| >= 2 ==> forall k, j :: 0 <= k < |gs| && 0 <= j < |gs| ==>
        2 <= |gs[k]| <= |gs[j]| + 1 && |gs[k]| <= s + 1 && (|students| % s != 1 ==> |gs[k]| <= s)
  {
    var shuffled := FisherYates(students, draws, |students| - 1);
    FisherYatesPermutes(students, draws, |students| - 1);
    DealPermutation(shuffled, GroupCount(|students|, groupSize));
    if |students| >= 2 {
      BalancedGroups(shuffled, groupSize);
    }
  }

  /** `createGroups(students, groupSize)`: allocates the groups, shuffles the
      roster with the given draws and deals it round-robin. */
  method CreateGroups(students: seq<string>, groupSize: int, draws: seq<nat>)
    returns (groups: seq<seq<string>>)
    requires ValidDraws(draws, |students|)
    ensures groups == Partition(students, groupSize, draws)
    ensures |groups| == GroupCount(|students|, groupSize)
    ensures multiset(Flatten(groups)) == multiset(students)
    ensures var s := NormalizedSize(groupSize);
      |students| >= 2 ==> forall k, j :: 0 <= k < |groups| && 0 <= j < |groups| ==>
        2 <= |groups[k]| <= |groups[j]| + 1 && |groups[k]| <= s + 1 && (|students| % s != 1 ==> |groups[k]| <= s)
  {
    var count := GroupCount(|students|, groupSize);
    var shuffled := Shuffle(students, draws);
    groups := DealRoundRobin(shuffled, count);
    PartitionBalanced(students, groupSize, draws);
  }

  /** The dealing loop of `createGroups` over pre-allocated empty groups. */
  method DealRoundRobin(shuffled: seq<string>, count: nat) returns (groups: seq<seq<string>>)
    requires |shuffled| > 0 ==> count > 0
    ensures groups == Deal(shuffled, count)
  {
    var buckets := new seq<string>[count](_ => []);
    assert buckets[..] == Deal(shuffled[..0], count);
    var index := 0;
    while index < |shuffled|
      invariant 0 <= index <= |shuffled|
      invariant buckets[..] == Deal(shuffled[..index], count)
    {
      var k := index % count;
      buckets[k] := buckets[k] + [shuffled[index]];
      assert shuffled[..index + 1][..index] == shuffled[..index];
      index := index + 1;
    }
    assert shuffled[..|shuffled|] == shuffled;
    groups := buckets[..];
  }
}
