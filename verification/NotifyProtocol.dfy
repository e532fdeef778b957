/**
 The wake-up protocol of the pool as a state machine: one event is one step of the kernel, the
 parent or a child. The parent polls the listening socket and sends two-byte notifications
 into non-blocking pipes; children are edge-triggered on their pipe.
 */
module NotifyProtocol {
  import RoundRobin

  const MESSAGE := 2  // sizeof(has_new_conn)
  const READ := 10    // sizeof(msg)

  datatype Phase = Idle | Woken | Accepting(left: nat) | Exited

  /** Bytes in the pipe, a pending edge on it, and where the child is in its loop. */
  datatype ChildState = ChildState(pipe: nat, edge: bool, phase: Phase)

  /**
   What does not change in a run: whether the parent polls the listening socket level-triggered, the
   capacity of a pipe in bytes, how many connections the kernel queues, how many a child accepts per
   notification, and the pid map with the parent in slot 0.
   */
  datatype Setup = Setup(level: bool, cap: nat, queue: nat, maxAccept: nat, pids: seq<int>)

  /** `up` is whether the parent still runs, `arrived` the pending edge on the listening socket. */
  datatype Pool = Pool(
    setup: Setup, backlog: nat, arrived: bool, idx: nat,
    notifying: bool, stopped: bool, up: bool, kids: seq<ChildState>)

  datatype Event =
    | Arrive | Poll | Notify | Terminate | Leave
    | Wake(c: nat) | Drain(c: nat) | Accepted(c: nat) | Refused(c: nat) | Rest(c: nat) | Quit(c: nat)

  predicate Shaped(p: Pool) {
    |p.kids| == |p.setup.pids| > 0 && p.idx < |p.kids| && MESSAGE <= p.setup.cap
  }

  predicate IsChild(p: Pool, c: nat)
    requires Shaped(p)
  {
    c < |p.kids| && RoundRobin.Eligible(p.setup.pids)[c]
  }

  function Target(p: Pool): (sel: nat)
    requires Shaped(p)
    ensures sel < |p.kids|
  {
    RoundRobin.Pick(RoundRobin.Eligible(p.setup.pids), p.idx)
  }

  /** A send that does not fit is dropped; one that fits raises an edge. */
  function Send(k: ChildState, cap: nat): ChildState {
    if k.phase != Exited && k.pipe + MESSAGE <= cap then k.(pipe := k.pipe + MESSAGE, edge := true) else k
  }

  /** All children forked after `c`, which inherited the write end of its pipe, have exited. */
  predicate LastLeft(p: Pool, c: nat)
    requires Shaped(p)
  {
    forall d :: c < d < |p.kids| && IsChild(p, d) ==> p.kids[d].phase == Exited
  }

  /** Nobody can write into the pipe of child `c` any more. */
  predicate HungUp(p: Pool, c: nat)
    requires Shaped(p)
  {
    !p.up && LastLeft(p, c)
  }

  /** The step from `p` to `q`, with an edge for every child that it leaves hung up. */
  function Hangups(p: Pool, q: Pool): (r: Pool)
    requires Shaped(p) && Shaped(q) && q.setup == p.setup
    ensures Shaped(r) && r == q.(kids := r.kids)
    ensures forall c :: 0 <= c < |r.kids| ==>
      r.kids[c] == if HungUp(q, c) && !HungUp(p, c) then q.kids[c].(edge := true) else q.kids[c]
  {
    q.(kids := seq(|q.kids|, c requires 0 <= c < |q.kids| =>
      if HungUp(q, c) && !HungUp(p, c) then q.kids[c].(edge := true) else q.kids[c]))
  }

  predicate Enabled(p: Pool, e: Event)
    requires Shaped(p)
  {
    match e
    case Arrive => p.backlog < p.setup.queue
    case Poll => p.up && !p.stopped && !p.notifying && p.backlog > 0 && (p.setup.level || p.arrived)
    case Notify => p.up && p.notifying
    case Terminate => true
    case Leave => p.up && p.stopped && !p.notifying
    case Wake(c) =>
      IsChild(p, c) && p.kids[c].phase == Idle && p.kids[c].edge && (p.kids[c].pipe > 0 || HungUp(p, c))
    case Drain(c) => IsChild(p, c) && p.kids[c].phase == Woken
    case Accepted(c) => IsChild(p, c) && p.kids[c].phase.Accepting? && p.kids[c].phase.left > 0 && p.backlog > 0
    case Refused(c) => IsChild(p, c) && p.kids[c].phase.Accepting? && p.kids[c].phase.left > 0
    case Rest(c) => IsChild(p, c) && p.kids[c].phase == Accepting(0)
    case Quit(c) => IsChild(p, c) && p.kids[c].phase == Idle
  }

  function WithKid(p: Pool, c: nat, k: ChildState): Pool
    requires c < |p.kids|
  {
    p.(kids := p.kids[c := k])
  }

  /** A notification. One to a child that has exited raises SIGPIPE, for which the parent has no handler. */
  function Notified(p: Pool): (r: Pool)
    requires Shaped(p)
    ensures Shaped(r) && r.setup == p.setup
  {
    var sel := Target(p);
    var q := WithKid(p, sel, Send(p.kids[sel], p.setup.cap)).(
      notifying := false,
      idx := RoundRobin.Next(RoundRobin.Eligible(p.setup.pids), sel));
    if p.kids[sel].phase != Exited then q else Hangups(p, q.(up := false))
  }

  function Apply(p: Pool, e: Event): (q: Pool)
    requires Shaped(p) && Enabled(p, e)
    ensures Shaped(q) && q.setup == p.setup
  {
    match e
    case Arrive => p.(backlog := p.backlog + 1, arrived := true)
    case Poll => p.(notifying := true, arrived := false)
    case Notify => Notified(p)
    case Terminate => p.(stopped := true)
    case Leave => Hangups(p, p.(up := false))
    case Wake(c) => WithKid(p, c, p.kids[c].(phase := Woken, edge := false))
    case Drain(c) =>
      var k := p.kids[c];
      if k.pipe == 0 && HungUp(p, c) then WithKid(p, c, k.(phase := Idle))
      else
        WithKid(p, c, k.(phase := Accepting(p.setup.maxAccept), pipe := if k.pipe < READ then 0 else k.pipe - READ))
    case Accepted(c) =>
      WithKid(p, c, p.kids[c].(phase := Accepting(p.kids[c].phase.left - 1))).(backlog := p.backlog - 1)
    case Refused(c) => WithKid(p, c, p.kids[c].(phase := Idle))
    case Rest(c) => WithKid(p, c, p.kids[c].(phase := Idle))
    case Quit(c) => Hangups(p, WithKid(p, c, p.kids[c].(phase := Exited)))
  }

  // ---- Runs

  predicate Legal(p: Pool, es: seq<Event>)
    requires Shaped(p)
    decreases |es|
  {
    es == [] || (Enabled(p, es[0]) && Legal(Apply(p, es[0]), es[1..]))
  }

  function After(p: Pool, es: seq<Event>): (q: Pool)
    requires Shaped(p) && Legal(p, es)
    ensures Shaped(q) && q.setup == p.setup
    decreases |es|
  {
    if es == [] then p else After(Apply(p, es[0]), es[1..])
  }

  lemma RunCons(p: Pool, e: Event, es: seq<Event>)
    requires Shaped(p) && Enabled(p, e) && Legal(Apply(p, e), es)
    ensures Legal(p, [e] + es) && After(p, [e] + es) == After(Apply(p, e), es)
  {
    assert ([e] + es)[1..] == es;
  }

  lemma RunOne(p: Pool, e: Event)
    requires Shaped(p) && Enabled(p, e)
    ensures Legal(p, [e]) && After(p, [e]) == Apply(p, e)
  {
    RunCons(p, e, []);
    assert [e] + [] == [e];
  }

  lemma {:induction false} RunAppends(p: Pool, es: seq<Event>, fs: seq<Event>)
    requires Shaped(p) && Legal(p, es) && Legal(After(p, es), fs)
    ensures Legal(p, es + fs) && After(p, es + fs) == After(After(p, es), fs)
    decreases |es|
  {
    hide Enabled, Apply;
    if es == [] {
      assert es + fs == fs;
    } else {
      RunAppends(Apply(p, es[0]), es[1..], fs);
      assert (es + fs)[1..] == es[1..] + fs;
    }
  }

  lemma {:induction false} RunSplits(p: Pool, es: seq<Event>, fs: seq<Event>)
    requires Shaped(p) && Legal(p, es + fs)
    ensures Legal(p, es) && Legal(After(p, es), fs)
    decreases |es|
  {
    hide Enabled, Apply;
    if es == [] {
      assert es + fs == fs;
    } else {
      assert (es + fs)[1..] == es[1..] + fs;
      RunSplits(Apply(p, es[0]), es[1..], fs);
    }
  }

  predicate Proper(s: Setup) { s.pids != [] && MESSAGE <= s.cap }

  /** The pool before its first event. */
  function Fresh(s: Setup): (p: Pool)
    requires Proper(s)
    ensures Shaped(p)
  {
    Pool(s, 0, false, 0, false, false, true, seq(|s.pids|, _ => ChildState(0, false, Idle)))
  }

  ghost predicate Reachable(p: Pool) {
    Proper(p.setup) && exists es :: Legal(Fresh(p.setup), es) && After(Fresh(p.setup), es) == p
  }

  lemma StillReachable(p: Pool, fs: seq<Event>)
    requires Reachable(p) && Shaped(p) && Legal(p, fs)
    ensures Reachable(After(p, fs))
  {
    hide Legal, After, Fresh;
    var es :| Legal(Fresh(p.setup), es) && After(Fresh(p.setup), es) == p;
    RunAppends(Fresh(p.setup), es, fs);
  }

  /** A child that nothing will wake has room for one more notification. */
  predicate KidOk(k: ChildState, cap: nat) {
    && k.pipe <= cap
    && (!k.edge && k.phase != Woken && k.phase != Exited ==> k.pipe + MESSAGE <= cap)
  }

  ghost predicate RoomOk(p: Pool) {
    forall c :: 0 <= c < |p.kids| ==> KidOk(p.kids[c], p.setup.cap)
  }

  /** A child is woken only by bytes to read or by the end of the pipe. */
  ghost predicate WokenOk(p: Pool)
    requires Shaped(p)
  {
    forall c :: 0 <= c < |p.kids| && p.kids[c].phase == Woken ==> p.kids[c].pipe > 0 || HungUp(p, c)
  }

  ghost predicate Inv(p: Pool)
    ensures Inv(p) ==> Shaped(p)
  {
    Shaped(p) && p.backlog <= p.setup.queue && RoomOk(p) && WokenOk(p)
  }

  lemma RoomStep(p: Pool, e: Event)
    requires Shaped(p) && RoomOk(p) && Enabled(p, e)
    ensures RoomOk(Apply(p, e))
  {
    hide RoundRobin.Pick, RoundRobin.Next, RoundRobin.Eligible, HungUp, Hangups;
  }

  lemma HungUpStays(p: Pool, e: Event, c: nat)
    requires Shaped(p) && Enabled(p, e) && HungUp(p, c)
    ensures HungUp(Apply(p, e), c)
  {
    hide RoundRobin.Pick, RoundRobin.Next, RoundRobin.Eligible, Hangups;
  }

  lemma WokenStep(p: Pool, e: Event)
    requires Shaped(p) && WokenOk(p) && Enabled(p, e)
    ensures WokenOk(Apply(p, e))
  {
    hide RoundRobin.Pick, RoundRobin.Next, RoundRobin.Eligible, HungUp, Hangups;
    var q := Apply(p, e);
    forall c | 0 <= c < |q.kids| && q.kids[c].phase == Woken
      ensures q.kids[c].pipe > 0 || HungUp(q, c)
    {
      if HungUp(p, c) {
        HungUpStays(p, e, c);
      }
    }
  }

  lemma InvStep(p: Pool, e: Event)
    requires Inv(p) && Enabled(p, e)
    ensures Inv(Apply(p, e))
  {
    hide RoundRobin.Pick, RoundRobin.Next, RoundRobin.Eligible, HungUp, Hangups, RoomOk, WokenOk;
    RoomStep(p, e);
    WokenStep(p, e);
  }

  lemma {:induction false} InvRun(p: Pool, es: seq<Event>)
    requires Inv(p) && Legal(p, es)
    ensures Inv(After(p, es))
    decreases |es|
  {
    if es != [] {
      InvStep(p, es[0]);
      InvRun(Apply(p, es[0]), es[1..]);
    }
  }

  lemma ReachableInv(p: Pool)
    requires Reachable(p)
    ensures Inv(p)
  {
    var es :| Legal(Fresh(p.setup), es) && After(Fresh(p.setup), es) == p;
    InvRun(Fresh(p.setup), es);
  }

  // ---- No lost wake-up

  /** Some child has a pid. */
  ghost predicate Staffed(s: Setup) {
    exists c :: 1 <= c < |s.pids| && s.pids[c] != -1
  }

  lemma TargetIsChild(p: Pool)
    requires Shaped(p) && Staffed(p.setup)
    ensures IsChild(p, Target(p))
  {
    var live := RoundRobin.Eligible(p.setup.pids);
    var c :| 1 <= c < |p.setup.pids| && p.setup.pids[c] != -1;
    assert live[c];
  }

  /** The child will read its pipe and run a whole round of accepts after this moment. */
  predicate Armed(k: ChildState) { k.pipe > 0 && (k.edge || k.phase == Woken) }

  /** Connections are waiting and the parent has not been told to stop. */
  predicate Waiting(p: Pool) { p.backlog > 0 && !p.stopped }

  lemma NotifyStep(p: Pool)
    requires Inv(p) && Enabled(p, Notify)
    ensures var sel, q := Target(p), Apply(p, Notify);
      && (q.up <==> p.kids[sel].phase != Exited)
      && (q.up ==> Armed(q.kids[sel]) && q.kids[sel].phase == p.kids[sel].phase)
  {
    assert KidOk(p.kids[Target(p)], p.setup.cap);
  }

  /** No notification is lost, whether or not the send found room; one to a child that has exited kills the parent. */
  lemma NotifyArms(p: Pool)
    requires Reachable(p) && Shaped(p) && Enabled(p, Notify)
    ensures var sel, q := Target(p), Apply(p, Notify);
      && (q.up <==> p.kids[sel].phase != Exited)
      && (q.up ==> Armed(q.kids[sel]) && q.kids[sel].phase != Exited)
  {
    ReachableInv(p);
    NotifyStep(p);
  }

  /** The events that lead from here to the end of the next notification. */
  function NextNotification(p: Pool): seq<Event> {
    if p.notifying then [Notify] else [Poll, Notify]
  }

  lemma NextNotificationRuns(p: Pool)
    requires Inv(p) && p.up && p.setup.level && Waiting(p)
    ensures var es := NextNotification(p); var sel := Target(p);
      && Legal(p, es)
      && var q := After(p, es);
         && q.backlog == p.backlog && q.stopped == p.stopped
         && (q.up <==> p.kids[sel].phase != Exited)
         && (q.up ==> Armed(q.kids[sel]) && q.kids[sel].phase == p.kids[sel].phase)
  {
    hide RoundRobin.Pick, RoundRobin.Next, RoundRobin.Eligible, Armed;
    if p.notifying {
      NotifyStep(p);
      RunOne(p, Notify);
    } else {
      var q := Apply(p, Poll);
      InvStep(p, Poll);
      NotifyStep(q);
      RunOne(q, Notify);
      RunCons(p, Poll, [Notify]);
      assert [Poll] + [Notify] == [Poll, Notify];
    }
  }

  /**
   No lost wake-up: in every reachable state with connections waiting, a running parent can notify a
   child with a pid. Unless that child has exited, which kills the parent, it is then about to accept.
   */
  lemma NoLostWakeup(p: Pool)
    requires Reachable(p) && p.up && p.setup.level && Waiting(p) && Staffed(p.setup)
    ensures var es := NextNotification(p);
      && Shaped(p) && Legal(p, es)
      && var sel, q := Target(p), After(p, es);
         && IsChild(p, sel)
         && (q.up <==> p.kids[sel].phase != Exited)
         && (q.up ==> Armed(q.kids[sel]) && q.kids[sel].phase != Exited)
  {
    ReachableInv(p);
    TargetIsChild(p);
    NextNotificationRuns(p);
  }

  // ---- Bounded response

  predicate MovesOf(e: Event, c: nat) {
    !(e.Arrive? || e.Poll? || e.Notify? || e.Terminate? || e.Leave?) && e.c == c
  }

  /** A call of accept by child `c`, whatever it returns. */
  predicate Calls(e: Event, c: nat) { e == Accepted(c) || e == Refused(c) }

  function Moves(es: seq<Event>, c: nat): nat {
    if es == [] then 0 else (if MovesOf(es[0], c) then 1 else 0) + Moves(es[1..], c)
  }

  lemma {:induction false} MovesAppend(es: seq<Event>, fs: seq<Event>, c: nat)
    ensures Moves(es + fs, c) == Moves(es, c) + Moves(fs, c)
  {
    if es == [] {
      assert es + fs == fs;
    } else {
      assert (es + fs)[1..] == es[1..] + fs;
      MovesAppend(es[1..], fs, c);
    }
  }

  /** The child is on its way to a call of accept. */
  predicate Due(k: ChildState) { k.phase != Exited && (Armed(k) || (k.phase.Accepting? && k.phase.left > 0)) }

  /** How many moves of its own it is away from it, if children accept at all. */
  function Distance(k: ChildState): nat {
    match k.phase
    case Accepting(left) => if left > 0 then 0 else 3
    case Woken => 1
    case _ => 2
  }

  /** What the moves of others do to a child: bytes and edges only come, the phase stays. */
  lemma OthersMove(p: Pool, e: Event, c: nat)
    requires Shaped(p) && Enabled(p, e) && c < |p.kids| && !MovesOf(e, c)
    ensures var k, k' := p.kids[c], Apply(p, e).kids[c];
      k'.phase == k.phase && k'.pipe >= k.pipe && (k.edge ==> k'.edge)
  {
    hide RoundRobin.Pick, RoundRobin.Next, RoundRobin.Eligible, HungUp, Hangups;
  }

  lemma DueStep(p: Pool, e: Event, c: nat)
    requires Shaped(p) && Enabled(p, e) && c < |p.kids| && Due(p.kids[c]) && p.setup.maxAccept > 0
    requires !Calls(e, c) && e != Quit(c)
    ensures var k, k' := p.kids[c], Apply(p, e).kids[c];
      Due(k') && Distance(k') + (if MovesOf(e, c) then 1 else 0) <= Distance(k)
  {
    hide RoundRobin.Pick, RoundRobin.Next, RoundRobin.Eligible, HungUp, Hangups;
    if !MovesOf(e, c) {
      OthersMove(p, e, c);
    }
  }

  /** However the other processes run, a due child calls accept (or exits) within Distance + 1 moves of its own. */
  lemma {:induction false} DueAnswers(p: Pool, es: seq<Event>, c: nat)
    requires Shaped(p) && Legal(p, es) && c < |p.kids| && Due(p.kids[c]) && p.setup.maxAccept > 0
    requires Moves(es, c) > Distance(p.kids[c])
    ensures exists i :: 0 <= i < |es| && (Calls(es[i], c) || es[i] == Quit(c))
    decreases |es|
  {
    hide Due, Distance, Enabled, Apply;
    if Calls(es[0], c) || es[0] == Quit(c) {
      assert 0 <= 0 < |es|;
    } else {
      DueStep(p, es[0], c);
      DueAnswers(Apply(p, es[0]), es[1..], c);
      var i :| 0 <= i < |es[1..]| && (Calls(es[1..][i], c) || es[1..][i] == Quit(c));
      assert es[i + 1] == es[1..][i];
    }
  }

  /** Every notification that does not kill the parent is answered within four moves of the notified child. */
  lemma NotificationAnswered(p: Pool, es: seq<Event>)
    requires Reachable(p) && Shaped(p) && Enabled(p, Notify) && p.setup.maxAccept > 0
    requires Apply(p, Notify).up && Legal(Apply(p, Notify), es) && Moves(es, Target(p)) >= 4
    ensures exists i :: 0 <= i < |es| && (Calls(es[i], Target(p)) || es[i] == Quit(Target(p)))
  {
    NotifyArms(p);
    DueAnswers(Apply(p, Notify), es, Target(p));
  }

  // ---- The schedule of notifications

  /** The children notified in a run, in order. */
  function Targets(p: Pool, es: seq<Event>): seq<nat>
    requires Shaped(p) && Legal(p, es)
    decreases |es|
  {
    if es == [] then []
    else (if es[0] == Notify then [Target(p)] else []) + Targets(Apply(p, es[0]), es[1..])
  }

  lemma ScheduleStep(p: Pool, e: Event)
    requires Shaped(p) && Enabled(p, e)
    ensures var live := RoundRobin.Eligible(p.setup.pids);
      Apply(p, e).idx == if e == Notify then RoundRobin.Next(live, RoundRobin.Pick(live, p.idx)) else p.idx
  {
    hide RoundRobin.Pick, RoundRobin.Next, RoundRobin.Eligible, HungUp, Hangups;
  }

  /** In every run the n-th notification goes where round-robin sends it, whatever happens in between. */
  lemma {:induction false} NotifySchedule(p: Pool, es: seq<Event>, n: nat)
    requires Shaped(p) && Legal(p, es) && n < |Targets(p, es)|
    ensures Targets(p, es)[n] == RoundRobin.Selected(RoundRobin.Eligible(p.setup.pids), p.idx, n)
    decreases |es|
  {
    hide RoundRobin.Pick, RoundRobin.Next, RoundRobin.Eligible, Enabled, Apply;
    var live := RoundRobin.Eligible(p.setup.pids);
    ScheduleStep(p, es[0]);
    if es[0] != Notify {
      NotifySchedule(Apply(p, es[0]), es[1..], n);
    } else if n > 0 {
      NotifySchedule(Apply(p, es[0]), es[1..], n - 1);
      RoundRobin.SelectedShift(live, p.idx, n - 1);
    } else {
      assert RoundRobin.IdxAfter(live, p.idx, 0) == p.idx;
    }
  }

  /** Where in a run its n-th notification happens. */
  lemma {:induction false} NotifyAt(p: Pool, es: seq<Event>, n: nat) returns (i: nat)
    requires Shaped(p) && Legal(p, es) && n < |Targets(p, es)|
    ensures i < |es| && es[i] == Notify && Legal(p, es[..i]) && Target(After(p, es[..i])) == Targets(p, es)[n]
    decreases |es|
  {
    hide Enabled, Apply, Target;
    if es[0] == Notify && n == 0 {
      i := 0;
      assert es[..0] == [];
    } else {
      var j := NotifyAt(Apply(p, es[0]), es[1..], if es[0] == Notify then n - 1 else n);
      i := j + 1;
      assert es[..i] == [es[0]] + es[1..][..j];
      RunCons(p, es[0], es[1..][..j]);
    }
  }

  lemma StaysStep(p: Pool, e: Event, c: nat)
    requires Shaped(p) && Enabled(p, e) && c < |p.kids| && p.kids[c].phase != Exited && e != Quit(c)
    ensures Apply(p, e).kids[c].phase != Exited
  {
    hide RoundRobin.Pick, RoundRobin.Next, RoundRobin.Eligible, HungUp, Hangups;
    if !MovesOf(e, c) {
      OthersMove(p, e, c);
    }
  }

  lemma {:induction false} StaysUnlessQuit(p: Pool, es: seq<Event>, c: nat)
    requires Shaped(p) && Legal(p, es) && c < |p.kids| && p.kids[c].phase != Exited && Quit(c) !in es
    ensures After(p, es).kids[c].phase != Exited
    decreases |es|
  {
    hide Enabled, Apply;
    if es != [] {
      StaysStep(p, es[0], c);
      StaysUnlessQuit(Apply(p, es[0]), es[1..], c);
    }
  }

  /**
   Every child is served: in any run from any reachable state, once there have been as many
   notifications as children with a pid and then four moves of a child that does not exit, that
   child has called accept.
   */
  lemma ChildServed(p: Pool, es: seq<Event>, fs: seq<Event>, c: nat)
    requires Reachable(p) && Shaped(p) && IsChild(p, c) && p.kids[c].phase != Exited && p.setup.maxAccept > 0
    requires Legal(p, es + fs) && Quit(c) !in es + fs
    requires Legal(p, es) && |Targets(p, es)| >= |RoundRobin.LiveList(RoundRobin.Eligible(p.setup.pids))|
    requires Moves(fs, c) >= 4
    ensures exists j :: 0 <= j < |es + fs| && Calls((es + fs)[j], c)
  {
    hide RoundRobin.Eligible, RoundRobin.Selected, RoundRobin.LiveList, Moves, Legal, After, Targets, Apply, Enabled;
    var live := RoundRobin.Eligible(p.setup.pids);
    RoundRobin.FairWindow(live, p.idx, 0, c);
    var n :| 0 <= n < |RoundRobin.LiveList(live)| && RoundRobin.Selected(live, p.idx, n) == c;
    NotifySchedule(p, es, n);
    var i := NotifyAt(p, es, n);
    var run := es + fs;
    assert run[i..] == es[i..] + fs && run == es[..i] + run[i..];
    MovesAppend(es[i..], fs, c);
    ServedAfter(p, es[..i], run[i..], c);
  }

  lemma ServedAfter(p: Pool, es: seq<Event>, fs: seq<Event>, c: nat)
    requires Reachable(p) && Shaped(p) && c < |p.kids| && p.kids[c].phase != Exited && p.setup.maxAccept > 0
    requires Legal(p, es + fs) && Quit(c) !in es + fs && Legal(p, es)
    requires fs != [] && fs[0] == Notify && Target(After(p, es)) == c && Moves(fs, c) >= 4
    ensures exists j :: 0 <= j < |es + fs| && Calls((es + fs)[j], c)
  {
    hide Target, Apply, Legal, After, Moves, Reachable, RoundRobin.Eligible;
    RunSplits(p, es, fs);
    StaysUnlessQuit(p, es, c);
    StillReachable(p, es);
    FirstIsNotify(After(p, es), fs, c);
    NotifyArms(After(p, es));
    NotificationAnswered(After(p, es), fs[1..]);
    var i :| 0 <= i < |fs[1..]| && (Calls(fs[1..][i], c) || fs[1..][i] == Quit(c));
    assert (es + fs)[|es| + i + 1] == fs[1..][i];
  }

  lemma FirstIsNotify(p: Pool, fs: seq<Event>, c: nat)
    requires Shaped(p) && Legal(p, fs) && fs != [] && fs[0] == Notify
    ensures Enabled(p, Notify) && Legal(Apply(p, Notify), fs[1..]) && Moves(fs[1..], c) == Moves(fs, c)
  {
    hide Apply, Enabled;
  }
}
