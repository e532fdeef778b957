/** The parent's choice of a child, in both versions of the pool. */
module RoundRobin {
  import opened Remainders

  type Slots = live: seq<bool> | live != [] witness [true]

  /** The first live slot at or after `i`, or the number of slots. */
  function FirstLive(live: seq<bool>, i: nat): (j: nat)
    requires i <= |live|
    ensures i <= j <= |live|
    ensures j < |live| ==> live[j]
    ensures forall k :: i <= k < j ==> !live[k]
    decreases |live| - i
  {
    if i == |live| || live[i] then i else FirstLive(live, i + 1)
  }

  /** The first live slot in cyclic order from `idx`; `idx` itself if there is none. */
  function Pick(live: Slots, idx: nat): (sel: nat)
    requires idx < |live|
    ensures sel < |live|
  {
    var j, k := FirstLive(live, idx), FirstLive(live, 0);
    if j < |live| then j else if k < |live| then k else idx
  }

  function Next(live: Slots, sel: nat): (idx: nat)
    ensures idx < |live|
  {
    if sel + 1 < |live| then sel + 1 else 0
  }

  lemma FirstLiveIs(live: seq<bool>, i: nat, j: nat)
    requires i <= j <= |live| && (forall k :: i <= k < j ==> !live[k]) && (j == |live| || live[j])
    ensures FirstLive(live, i) == j
  {
  }

  /** Every slot passed on the way from `idx` to `sel` is dead. */
  ghost predicate Skipped(live: seq<bool>, idx: nat, sel: nat)
    requires idx < |live| && sel < |live|
  {
    if idx <= sel then forall k :: idx <= k < sel ==> !live[k]
    else (forall k :: idx <= k < |live| ==> !live[k]) && (forall k :: 0 <= k < sel ==> !live[k])
  }

  lemma SkippedToLive(live: Slots, idx: nat, sel: nat)
    requires idx < |live| && sel < |live| && live[sel] && Skipped(live, idx, sel)
    ensures Pick(live, idx) == sel
  {
    if idx <= sel {
      FirstLiveIs(live, idx, sel);
    } else {
      FirstLiveIs(live, idx, |live|);
      FirstLiveIs(live, 0, sel);
    }
  }

  /** One step of the search past a dead slot; back at the start, no slot is live. */
  lemma SkipDead(live: Slots, idx: nat, sel: nat)
    requires idx < |live| && sel < |live| && !live[sel] && Skipped(live, idx, sel)
    ensures Mod(sel + 1, |live|) == Next(live, sel)
    ensures Next(live, sel) != idx ==> Skipped(live, idx, Next(live, sel))
    ensures Next(live, sel) == idx ==> Pick(live, idx) == idx
  {
    ModSmall(sel + 1, |live|);
    if Next(live, sel) == idx {
      FirstLiveIs(live, idx, |live|);
      FirstLiveIs(live, 0, |live|);
    }
  }

  lemma NothingSkipped(live: seq<bool>, idx: nat)
    requires idx < |live|
    ensures Skipped(live, idx, idx)
  {
  }

  /** How far the search can still go. */
  ghost function Ahead(n: nat, idx: nat, sel: nat): int {
    if idx <= sel then n - sel + idx else idx - sel
  }

  /** Which slots the refactored parent may choose: those with a pid, but not its own slot 0. */
  function Eligible(pids: seq<int>): (live: seq<bool>)
    ensures |live| == |pids| && forall i :: 0 <= i < |pids| ==> live[i] == (pids[i] != -1 && i != 0)
  {
    seq(|pids|, i requires 0 <= i < |pids| => pids[i] != -1 && i != 0)
  }

  /** The original version has no slot for the parent. */
  function HasPid(pids: seq<int>): (live: seq<bool>)
    ensures |live| == |pids| && forall i :: 0 <= i < |pids| ==> live[i] == (pids[i] != -1)
  {
    seq(|pids|, i requires 0 <= i < |pids| => pids[i] != -1)
  }

  /** The pick is live, if anything is, and everything passed on the way to it is dead. */
  lemma PickSkips(live: Slots, idx: nat)
    requires idx < |live| && exists c :: 0 <= c < |live| && live[c]
    ensures live[Pick(live, idx)] && Skipped(live, idx, Pick(live, idx))
  {
  }

  /** No slot from `idx` on, in cyclic order, and before `sel` holds a child; slot `own` never does. */
  ghost predicate NoChildBefore(pids: seq<int>, own: int, idx: nat, sel: nat) {
    forall k :: 0 <= k < |pids| && (if idx <= sel then idx <= k < sel else idx <= k || k < sel) ==>
      pids[k] == -1 || k == own
  }

  lemma SkippedMeans(pids: seq<int>, live: seq<bool>, own: int, idx: nat, sel: nat)
    requires |live| == |pids| && idx < |live| && sel < |live| && Skipped(live, idx, sel)
    requires forall i :: 0 <= i < |pids| ==> live[i] == (pids[i] != -1 && i != own)
    ensures NoChildBefore(pids, own, idx, sel)
  {
  }

  /** The parent's round-robin state: src/ProcessPool.h. */
  class Parent {
    const pids: seq<int>
    var subProcessIdx: nat

    ghost predicate Valid()
      reads this
    {
      subProcessIdx < |pids|
    }

    constructor (pids: seq<int>)
      requires pids != []
      ensures this.pids == pids && subProcessIdx == 0 && Valid()
    {
      this.pids := pids;
      subProcessIdx := 0;
    }

    method Select() returns (sel: nat)
      requires Valid()
      modifies this
      ensures Valid() && sel == Pick(Eligible(pids), old(subProcessIdx))
      ensures subProcessIdx == Next(Eligible(pids), sel)
      ensures (exists c :: 1 <= c < |pids| && pids[c] != -1) ==>
        1 <= sel < |pids| && pids[sel] != -1 && NoChildBefore(pids, 0, old(subProcessIdx), sel)
      ensures subProcessIdx == if sel + 1 < |pids| then sel + 1 else 0
    {
      hide Pick, Skipped, Mod;
      ghost var live := Eligible(pids);
      sel := subProcessIdx;
      assert Skipped(live, sel, sel) by { NothingSkipped(live, sel); }
      while true
        invariant subProcessIdx == old(subProcessIdx)
        invariant sel < |pids| && Skipped(live, subProcessIdx, sel)
        decreases Ahead(|pids|, subProcessIdx, sel)
      {
        if pids[sel] != -1 && sel != 0 {
          SkippedToLive(live, subProcessIdx, sel);
          break;
        }
        SkipDead(live, subProcessIdx, sel);
        sel := Mod(sel + 1, |pids|);
        if sel == subProcessIdx {
          break;
        }
      }
      ModSmall(sel + 1, |pids|);
      if c: nat :| c < |live| && live[c] {
        PickSkips(live, subProcessIdx);
        SkippedMeans(pids, live, 0, subProcessIdx, sel);
      }
      subProcessIdx := Mod(sel + 1, |pids|);
    }
  }

  /** The original parent: examples/multitasking/processpool.h. */
  class OriginalParent {
    const pids: seq<int>
    var subProcessIdx: nat

    ghost predicate Valid()
      reads this
    {
      subProcessIdx < |pids|
    }

    constructor (pids: seq<int>)
      requires pids != []
      ensures this.pids == pids && subProcessIdx == 0 && Valid()
    {
      this.pids := pids;
      subProcessIdx := 0;
    }

    method Select() returns (sel: nat)
      requires Valid()
      modifies this
      ensures Valid() && sel == Pick(HasPid(pids), old(subProcessIdx))
      ensures subProcessIdx == Next(HasPid(pids), sel)
      ensures (exists c :: 0 <= c < |pids| && pids[c] != -1) ==>
        sel < |pids| && pids[sel] != -1 && NoChildBefore(pids, -1, old(subProcessIdx), sel)
      ensures subProcessIdx == if sel + 1 < |pids| then sel + 1 else 0
    {
      hide Pick, Skipped, Mod;
      ghost var live := HasPid(pids);
      sel := subProcessIdx;
      assert Skipped(live, sel, sel) by { NothingSkipped(live, sel); }
      while true
        invariant subProcessIdx == old(subProcessIdx)
        invariant sel < |pids| && Skipped(live, subProcessIdx, sel)
        decreases Ahead(|pids|, subProcessIdx, sel)
      {
        if pids[sel] != -1 {
          SkippedToLive(live, subProcessIdx, sel);
          break;
        }
        SkipDead(live, subProcessIdx, sel);
        sel := Mod(sel + 1, |pids|);
        if sel == subProcessIdx {
          break;
        }
      }
      ModSmall(sel + 1, |pids|);
      if c: nat :| c < |live| && live[c] {
        PickSkips(live, subProcessIdx);
        SkippedMeans(pids, live, -1, subProcessIdx, sel);
      }
      subProcessIdx := Mod(sel + 1, |pids|);
    }
  }

  // ---- Runs of selections

  /** Where the round-robin pointer stands after `k` notifications. */
  function IdxAfter(live: Slots, idx: nat, k: nat): (i: nat)
    requires idx < |live|
    ensures i < |live|
  {
    if k == 0 then idx else Next(live, Pick(live, IdxAfter(live, idx, k - 1)))
  }

  /** The child that notification `k` goes to, counting from 0. */
  function Selected(live: Slots, idx: nat, k: nat): nat
    requires idx < |live|
  {
    Pick(live, IdxAfter(live, idx, k))
  }

  /** A run of selections continues where its first selection left the pointer. */
  lemma {:induction false} SelectedShift(live: Slots, idx: nat, k: nat)
    requires idx < |live|
    ensures IdxAfter(live, Next(live, Pick(live, idx)), k) == IdxAfter(live, idx, k + 1)
    ensures Selected(live, Next(live, Pick(live, idx)), k) == Selected(live, idx, k + 1)
  {
    if k > 0 {
      SelectedShift(live, idx, k - 1);
    } else {
      assert IdxAfter(live, idx, 0) == idx;
    }
  }

  /** The live slots among the first `n`, in order. */
  function LiveUpTo(live: seq<bool>, n: nat): (l: seq<nat>)
    requires n <= |live|
    ensures forall c: nat :: c in l <==> c < n && live[c]
    ensures forall i, j :: 0 <= i < j < |l| ==> l[i] < l[j]
  {
    if n == 0 then []
    else
      var l := LiveUpTo(live, n - 1);
      assert forall i :: 0 <= i < |l| ==> l[i] in l;
      if live[n - 1] then l + [n - 1] else l
  }

  function LiveList(live: seq<bool>): seq<nat> { LiveUpTo(live, |live|) }

  function Rank(live: seq<bool>, i: nat): nat
    requires i <= |live|
  {
    |LiveUpTo(live, i)|
  }

  lemma {:induction false} LiveGrows(live: seq<bool>, m: nat, n: nat)
    requires m <= n <= |live|
    ensures LiveUpTo(live, m) <= LiveUpTo(live, n)
  {
    if m < n {
      LiveGrows(live, m, n - 1);
    }
  }

  lemma {:induction false} RankSkips(live: seq<bool>, m: nat, n: nat)
    requires m <= n <= |live| && forall k :: m <= k < n ==> !live[k]
    ensures Rank(live, m) == Rank(live, n)
  {
    if m < n {
      RankSkips(live, m, n - 1);
    }
  }

  /** A pick is the live child whose rank is that of the pointer, and the pointer then has the next rank. */
  lemma PickByRank(live: Slots, idx: nat)
    requires idx < |live| && LiveList(live) != []
    ensures var l := LiveList(live); var r := Rank(live, idx);
      && r <= |l|
      && Pick(live, idx) == l[if r == |l| then 0 else r]
      && var r' := Rank(live, Next(live, Pick(live, idx)));
         var next := (if r == |l| then 0 else r) + 1;
         r' == next || (r' == 0 && next == |l|)
  {
    hide FirstLive, LiveUpTo;
    var l, r := LiveList(live), Rank(live, idx);
    LiveGrows(live, idx, |live|);
    assert Rank(live, 0) == 0 by { RankZero(live); }
    var j := FirstLive(live, idx);
    RankSkips(live, idx, j);
    if j < |live| {
      RankOfLive(live, j);
    } else {
      var k := FirstLive(live, 0);
      assert l[0] in l;
      assert k < |live|;
      RankSkips(live, 0, k);
      RankOfLive(live, k);
    }
  }

  lemma RankZero(live: seq<bool>)
    ensures Rank(live, 0) == 0
  {
  }

  lemma RankOfLive(live: Slots, c: nat)
    requires c < |live| && live[c]
    ensures var l := LiveList(live); var r := Rank(live, c);
      && r < |l| && l[r] == c
      && Rank(live, c + 1) == r + 1
      && (c + 1 == |live| ==> r + 1 == |l|)
  {
    LiveGrows(live, c + 1, |live|);
    assert LiveUpTo(live, c + 1) == LiveUpTo(live, c) + [c];
  }

  /** The selections walk the list of live children cyclically, from any starting pointer. */
  lemma {:induction false} SelectionsCycle(live: Slots, idx: nat, k: nat)
    requires idx < |live| && LiveList(live) != []
    ensures var l := LiveList(live); var r := Rank(live, IdxAfter(live, idx, k));
      && r <= |l|
      && Mod(r, |l|) == Mod(Rank(live, idx) + k, |l|)
      && Selected(live, idx, k) == l[Mod(Rank(live, idx) + k, |l|)]
  {
    hide Mod, Pick, Rank, LiveList, Next;
    var l := LiveList(live);
    var i := IdxAfter(live, idx, k);
    PickByRank(live, i);
    ModSmall(Rank(live, i), |l|);
    if k > 0 {
      var j := IdxAfter(live, idx, k - 1);
      SelectionsCycle(live, idx, k - 1);
      PickByRank(live, j);
      ModSmall(Rank(live, j), |l|);
      if |l| == 1 {
        ModSmall(0, 1);
      } else {
        ModShift(Rank(live, idx) + k - 1, 1, |l|);
      }
    }
  }

  lemma DistinctLive(live: seq<bool>, i: nat, j: nat)
    requires i < |LiveList(live)| && j < |LiveList(live)|
    ensures LiveList(live)[i] == LiveList(live)[j] <==> i == j
  {
    hide LiveUpTo;
  }

  /** How many of the first `n` notifications go to slot `c`. */
  function Received(live: Slots, idx: nat, c: nat, n: nat): nat
    requires idx < |live|
  {
    if n == 0 then 0
    else Received(live, idx, c, n - 1) + if Selected(live, idx, n - 1) == c then 1 else 0
  }

  lemma {:induction false} ReceivedIs(live: Slots, c: nat, n: nat)
    requires c < |live| && live[c]
    ensures var m := |LiveList(live)|; m > 0 && Received(live, 0, c, n) == (n + m - 1 - Rank(live, c)) / m
  {
    hide Mod, Rank, LiveList, Selected;
    var l := LiveList(live);
    var m, r := |l|, Rank(live, c);
    RankOfLive(live, c);
    if n == 0 {
      ModIs(m - 1 - r, 0, m - 1 - r, m);
    } else {
      ReceivedIs(live, c, n - 1);
      SelectionsCycle(live, 0, n - 1);
      RankZero(live);
      DistinctLive(live, Mod(n - 1, m), r);
      CountStep(n - 1, m, r);
    }
  }

  /** Two notifications fewer apart than there are live children go to different children. */
  lemma WindowDistinct(live: Slots, idx: nat, j: nat, k: nat)
    requires idx < |live| && j < k < j + |LiveList(live)|
    ensures Selected(live, idx, j) != Selected(live, idx, k)
  {
    hide Mod, Rank, LiveList, Selected;
    var m, x := |LiveList(live)|, Rank(live, idx) + j;
    SelectionsCycle(live, idx, j);
    SelectionsCycle(live, idx, k);
    ModShift(x, k - j, m);
    DistinctLive(live, Mod(x, m), Mod(Rank(live, idx) + k, m));
  }

  /** Fairness: any window of as many notifications as there are live children reaches each of them exactly once. */
  lemma FairWindow(live: Slots, idx: nat, w: nat, c: nat)
    requires idx < |live| && c < |live| && live[c]
    ensures exists k :: w <= k < w + |LiveList(live)| && Selected(live, idx, k) == c
    ensures forall j, k :: w <= j < k < w + |LiveList(live)| ==> Selected(live, idx, j) != Selected(live, idx, k)
  {
    hide Mod, Rank, LiveList, Selected;
    var l := LiveList(live);
    var m, a, r := |l|, Rank(live, idx) + w, Rank(live, c);
    RankOfLive(live, c);
    var d := if Mod(a, m) <= r then r - Mod(a, m) else r + m - Mod(a, m);
    ModShift(a, d, m);
    SelectionsCycle(live, idx, w + d);
    assert Rank(live, idx) + (w + d) == a + d;
    forall j, k | w <= j < k < w + m
      ensures Selected(live, idx, j) != Selected(live, idx, k)
    {
      WindowDistinct(live, idx, j, k);
    }
  }

  /** Every notification goes to a live child, never to the parent's own slot. */
  lemma NeverTheParent(pids: seq<int>, k: nat)
    requires pids != [] && exists c :: 1 <= c < |pids| && pids[c] != -1
    ensures var sel := Selected(Eligible(pids), 0, k); 1 <= sel < |pids| && pids[sel] != -1
  {
    hide Mod, LiveUpTo, Selected;
    var live := Eligible(pids);
    var c :| 1 <= c < |pids| && pids[c] != -1;
    assert live[c] && c in LiveList(live);
    SelectionsCycle(live, 0, k);
    var l := LiveList(live);
    assert l[Mod(Rank(live, 0) + k, |l|)] in l;
  }

  lemma {:induction false} ShiftedList(live: seq<bool>, n: nat)
    requires n <= |live|
    ensures var a, b := LiveUpTo(live, n), LiveUpTo([false] + live, n + 1);
      |a| == |b| && forall i :: 0 <= i < |a| ==> b[i] == a[i] + 1
  {
    var shifted := [false] + live;
    if n == 0 {
      assert LiveUpTo(shifted, 0) == [];
    } else {
      ShiftedList(live, n - 1);
      assert shifted[n] == live[n - 1];
      var a, b := LiveUpTo(live, n - 1), LiveUpTo(shifted, n);
      assert LiveUpTo(live, n) == if live[n - 1] then a + [n - 1] else a;
      assert LiveUpTo(shifted, n + 1) == if shifted[n] then b + [n] else b;
    }
  }

  /** The refactoring keeps the schedule: both versions notify the same children in the same order. */
  lemma SameSchedule(parentPid: int, pids: seq<int>, k: nat)
    requires exists c :: 0 <= c < |pids| && pids[c] != -1
    ensures Selected(Eligible([parentPid] + pids), 0, k) == Selected(HasPid(pids), 0, k) + 1
  {
    var old_, new_ := HasPid(pids), Eligible([parentPid] + pids);
    assert new_ == [false] + old_;
    var c :| 0 <= c < |pids| && pids[c] != -1;
    assert old_[c];
    ShiftedSchedule(old_, c, k);
  }

  lemma ShiftedSchedule(live: Slots, c: nat, k: nat)
    requires c < |live| && live[c]
    ensures Selected([false] + live, 0, k) == Selected(live, 0, k) + 1
  {
    hide Mod, LiveList, Selected, Rank;
    ShiftedLists(live, c);
    RankZero(live);
    RankZero([false] + live);
    SelectionsCycle(live, 0, k);
    SelectionsCycle([false] + live, 0, k);
  }

  lemma ShiftedLists(live: Slots, c: nat)
    requires c < |live| && live[c]
    ensures var a, b := LiveList(live), LiveList([false] + live);
      0 < |a| == |b| && forall i :: 0 <= i < |a| ==> b[i] == a[i] + 1
  {
    hide LiveUpTo;
    assert c in LiveList(live);
    ShiftedList(live, |live|);
  }
}
