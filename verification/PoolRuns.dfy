/**
 What runs of the pool do to connections, bytes and processes: what is accepted, what a wake-up
 leaves unread, what the end of a pipe brings, and what is left to do after a stop.
 */
module PoolRuns {
  import RoundRobin
  import opened NotifyProtocol

  // ---- Connections

  function Arrivals(es: seq<Event>): nat {
    if es == [] then 0 else (if es[0] == Arrive then 1 else 0) + Arrivals(es[1..])
  }

  function Acceptances(es: seq<Event>): nat {
    if es == [] then 0 else (if es[0].Accepted? then 1 else 0) + Acceptances(es[1..])
  }

  /** No connection is lost or taken twice: those waiting are those that arrived and were not accepted. */
  lemma {:induction false} BacklogBalance(p: Pool, es: seq<Event>)
    requires Shaped(p) && Legal(p, es)
    ensures After(p, es).backlog + Acceptances(es) == p.backlog + Arrivals(es)
    decreases |es|
  {
    hide Enabled, Apply;
    if es != [] {
      BacklogStep(p, es[0]);
      BacklogBalance(Apply(p, es[0]), es[1..]);
    }
  }

  lemma BacklogStep(p: Pool, e: Event)
    requires Shaped(p) && Enabled(p, e)
    ensures Apply(p, e).backlog + (if e.Accepted? then 1 else 0) == p.backlog + if e == Arrive then 1 else 0
  {
    hide RoundRobin.Pick, RoundRobin.Next, RoundRobin.Eligible, HungUp, Hangups;
  }

  function CallsOf(es: seq<Event>, c: nat): nat {
    if es == [] then 0 else (if Calls(es[0], c) then 1 else 0) + CallsOf(es[1..], c)
  }

  function WakeUps(es: seq<Event>, c: nat): nat {
    if es == [] then 0 else (if es[0] == Drain(c) then 1 else 0) + WakeUps(es[1..], c)
  }

  function CallsLeft(k: ChildState): nat { if k.phase.Accepting? then k.phase.left else 0 }

  /** A child calls accept at most as often as it may per notification read. */
  lemma {:induction false} CallsBound(p: Pool, es: seq<Event>, c: nat)
    requires Shaped(p) && Legal(p, es) && c < |p.kids|
    ensures CallsOf(es, c) <= CallsLeft(p.kids[c]) + p.setup.maxAccept * WakeUps(es, c)
    decreases |es|
  {
    hide Enabled, Apply, Calls;
    if es != [] {
      CallsStep(p, es[0], c);
      CallsBound(Apply(p, es[0]), es[1..], c);
      var m, n := p.setup.maxAccept, WakeUps(es[1..], c);
      assert m * (n + 1) == m * n + m;
    }
  }

  lemma CallsStep(p: Pool, e: Event, c: nat)
    requires Shaped(p) && Enabled(p, e) && c < |p.kids|
    ensures CallsLeft(Apply(p, e).kids[c]) + (if Calls(e, c) then 1 else 0) <=
      CallsLeft(p.kids[c]) + if e == Drain(c) then p.setup.maxAccept else 0
  {
    hide RoundRobin.Pick, RoundRobin.Next, RoundRobin.Eligible, HungUp, Hangups;
    if !MovesOf(e, c) {
      OthersMove(p, e, c);
    }
  }

  /** With nothing waiting and nothing arriving the parent stays asleep. */
  lemma {:induction false} QuietPool(p: Pool, es: seq<Event>)
    requires Shaped(p) && Legal(p, es) && p.backlog == 0 && Arrive !in es
    ensures Poll !in es && |Targets(p, es)| <= if p.notifying then 1 else 0
    decreases |es|
  {
    hide RoundRobin.Pick, RoundRobin.Next, RoundRobin.Eligible, HungUp, Hangups;
    if es != [] {
      QuietPool(Apply(p, es[0]), es[1..]);
    }
  }

  /** Awake and about to call accept: the child does not look at a stop before it has. */
  predicate Committed(k: ChildState) {
    (k.phase == Woken && k.pipe > 0) || (k.phase.Accepting? && k.phase.left > 0)
  }

  lemma CommittedStep(p: Pool, e: Event, c: nat)
    requires Shaped(p) && Enabled(p, e) && c < |p.kids| && Committed(p.kids[c]) && p.setup.maxAccept > 0
    requires !Calls(e, c)
    ensures var k, k' := p.kids[c], Apply(p, e).kids[c];
      Committed(k') && Distance(k') + (if MovesOf(e, c) then 1 else 0) <= Distance(k)
  {
    hide RoundRobin.Pick, RoundRobin.Next, RoundRobin.Eligible, HungUp, Hangups;
    if !MovesOf(e, c) {
      OthersMove(p, e, c);
    }
  }

  /** A child awake for a notification calls accept within two moves of its own, exits included. */
  lemma {:induction false} AwakeAnswers(p: Pool, es: seq<Event>, c: nat)
    requires Shaped(p) && Legal(p, es) && c < |p.kids| && Committed(p.kids[c]) && p.setup.maxAccept > 0
    requires Moves(es, c) > Distance(p.kids[c])
    ensures Distance(p.kids[c]) <= 1 && exists i :: 0 <= i < |es| && Calls(es[i], c)
    decreases |es|
  {
    hide Committed, Distance, Enabled, Apply;
    assert Distance(p.kids[c]) <= 1 by { CommittedNear(p.kids[c]); }
    if Calls(es[0], c) {
      assert 0 <= 0 < |es|;
    } else {
      CommittedStep(p, es[0], c);
      AwakeAnswers(Apply(p, es[0]), es[1..], c);
      var i :| 0 <= i < |es[1..]| && Calls(es[1..][i], c);
      assert es[i + 1] == es[1..][i];
    }
  }

  lemma CommittedNear(k: ChildState)
    requires Committed(k)
    ensures Distance(k) <= 1
  {
  }

  // ---- Bytes

  /** Asleep, with something to read and no edge to wake it. */
  predicate Oversleeps(k: ChildState) { k.phase == Idle && !k.edge && k.pipe > 0 }

  /** With less than 12 bytes of pipe whatever is unread has an edge, or a child awake for it. */
  ghost predicate AllAnnounced(p: Pool) {
    forall c :: 0 <= c < |p.kids| ==> Announced(p.kids[c])
  }

  predicate Announced(k: ChildState) {
    k.pipe in {0, 2, 4, 6, 8, 10} && (k.pipe > 0 && !k.edge ==> k.phase == Woken || k.phase == Exited)
  }

  /** What a child gets from the moves of others. */
  lemma KidBy(p: Pool, e: Event, c: nat)
    requires Shaped(p) && Enabled(p, e) && c < |p.kids| && !MovesOf(e, c)
    ensures var k, k' := p.kids[c], Apply(p, e).kids[c];
      k' == k || k' == k.(edge := true) || k' == Send(k, p.setup.cap)
  {
    hide RoundRobin.Pick, RoundRobin.Next, RoundRobin.Eligible, HungUp, Hangups;
  }

  lemma AnnouncedSend(k: ChildState, cap: nat)
    requires KidOk(k, cap) && Announced(k) && cap < 12
    ensures Announced(k.(edge := true)) && Announced(Send(k, cap))
  {
  }

  lemma AnnouncedKid(p: Pool, e: Event, c: nat)
    requires Shaped(p) && c < |p.kids| && KidOk(p.kids[c], p.setup.cap) && Announced(p.kids[c])
    requires Enabled(p, e) && p.setup.cap < 12
    ensures Announced(Apply(p, e).kids[c])
  {
    hide Apply, Announced, Enabled;
    if MovesOf(e, c) {
      AnnouncedOwn(p, e, c);
    } else {
      KidBy(p, e, c);
      AnnouncedSend(p.kids[c], p.setup.cap);
    }
  }

  lemma AnnouncedOwn(p: Pool, e: Event, c: nat)
    requires Shaped(p) && c < |p.kids| && KidOk(p.kids[c], p.setup.cap) && Announced(p.kids[c])
    requires Enabled(p, e) && MovesOf(e, c) && p.setup.cap < 12
    ensures Announced(Apply(p, e).kids[c])
  {
    hide RoundRobin.Pick, RoundRobin.Next, RoundRobin.Eligible, HungUp, Hangups, Send;
  }

  lemma AnnouncedStep(p: Pool, e: Event)
    requires Shaped(p) && RoomOk(p) && AllAnnounced(p) && Enabled(p, e) && p.setup.cap < 12
    ensures AllAnnounced(Apply(p, e))
  {
    hide Apply, Announced, Enabled;
    var q := Apply(p, e);
    forall c | 0 <= c < |q.kids|
      ensures Announced(q.kids[c])
    {
      AnnouncedKid(p, e, c);
    }
  }

  lemma {:induction false} AnnouncedRun(p: Pool, es: seq<Event>)
    requires Inv(p) && AllAnnounced(p) && Legal(p, es) && p.setup.cap < 12
    ensures AllAnnounced(After(p, es))
    decreases |es|
  {
    hide Enabled, Apply, AllAnnounced;
    if es != [] {
      AnnouncedStep(p, es[0]);
      InvStep(p, es[0]);
      AnnouncedRun(Apply(p, es[0]), es[1..]);
    }
  }

  /** A level-triggered pool with a connection waiting, everybody asleep and nobody gone. */
  ghost predicate Calm(p: Pool)
    ensures Calm(p) ==> Shaped(p)
  {
    && Inv(p) && p.setup.level && p.up && Waiting(p) && !p.notifying && Staffed(p.setup)
    && forall c :: 0 <= c < |p.kids| ==> p.kids[c].phase == Idle
  }

  /** Pipes only fill and edges only come. */
  ghost predicate Fuller(p: Pool, q: Pool) {
    q.setup == p.setup && |q.kids| == |p.kids| && forall c :: 0 <= c < |p.kids| ==>
      q.kids[c].pipe >= p.kids[c].pipe && (p.kids[c].edge ==> q.kids[c].edge)
  }

  /** One notification. */
  lemma Round(p: Pool)
    requires Calm(p)
    ensures var es := [Poll, Notify];
      && Legal(p, es)
      && var q, sel, live := After(p, es), Target(p), RoundRobin.Eligible(p.setup.pids);
         && Calm(q) && Fuller(p, q) && q.idx == RoundRobin.Next(live, sel)
         && (p.kids[sel].pipe + 2 <= p.setup.cap ==> q.kids[sel].pipe == p.kids[sel].pipe + 2 && q.kids[sel].edge)
  {
    hide RoundRobin.Pick, RoundRobin.Next, RoundRobin.Eligible, HungUp, Hangups, Inv, Staffed;
    var a := Apply(p, Poll);
    InvStep(p, Poll);
    InvStep(a, Notify);
    RunOne(a, Notify);
    RunCons(p, Poll, [Notify]);
    assert [Poll] + [Notify] == [Poll, Notify];
  }

  /** Notifications until it is the turn of the child that the schedule has at place `k`. */
  lemma {:induction false} UntilTurn(p: Pool, k: nat) returns (es: seq<Event>)
    requires Calm(p)
    ensures Legal(p, es) && Calm(After(p, es)) && Fuller(p, After(p, es))
    ensures Target(After(p, es)) == RoundRobin.Selected(RoundRobin.Eligible(p.setup.pids), p.idx, k)
    decreases k
  {
    hide RoundRobin.Pick, RoundRobin.Next, RoundRobin.Eligible, Calm, Legal, After;
    var live := RoundRobin.Eligible(p.setup.pids);
    if k == 0 {
      es := [];
      NoEvents(p);
      assert RoundRobin.IdxAfter(live, p.idx, 0) == p.idx;
    } else {
      Round(p);
      var q := After(p, [Poll, Notify]);
      var rest := UntilTurn(q, k - 1);
      RoundRobin.SelectedShift(live, p.idx, k - 1);
      RunAppends(p, [Poll, Notify], rest);
      es := [Poll, Notify] + rest;
    }
  }

  lemma NoEvents(p: Pool)
    requires Shaped(p)
    ensures Legal(p, []) && After(p, []) == p
  {
  }

  /** Notifications until the pipe of child `c` holds more than one wake-up reads. */
  lemma {:induction false} FillPipe(p: Pool, c: nat) returns (es: seq<Event>)
    requires Calm(p) && IsChild(p, c) && p.setup.cap >= 12
    ensures Legal(p, es) && Calm(After(p, es)) && After(p, es).setup == p.setup
    ensures After(p, es).kids[c].pipe > 10 && After(p, es).kids[c].edge
    decreases if p.kids[c].edge then 0 else 1, if p.kids[c].pipe > 10 then 0 else 11 - p.kids[c].pipe
  {
    hide RoundRobin.Pick, RoundRobin.Next, RoundRobin.Eligible, RoundRobin.Selected, RoundRobin.LiveList, Legal, After;
    if p.kids[c].pipe > 10 && p.kids[c].edge {
      es := [];
      NoEvents(p);
    } else {
      var live := RoundRobin.Eligible(p.setup.pids);
      RoundRobin.FairWindow(live, p.idx, 0, c);
      var k: nat :| k < |RoundRobin.LiveList(live)| && RoundRobin.Selected(live, p.idx, k) == c;
      var turn := UntilTurn(p, k);
      var q := After(p, turn);
      assert KidOk(q.kids[c], q.setup.cap);
      if q.kids[c].pipe > 10 && q.kids[c].edge {
        es := turn;
      } else {
        Round(q);
        var r := After(q, [Poll, Notify]);
        var rest := FillPipe(r, c);
        RunAppends(q, [Poll, Notify], rest);
        RunAppends(p, turn, [Poll, Notify] + rest);
        es := turn + ([Poll, Notify] + rest);
      }
    }
  }

  /** A wake-up on more than 10 bytes reads 10 of them, and the child goes back to sleep on the others. */
  lemma ReadsTen(p: Pool, c: nat) returns (es: seq<Event>)
    requires Calm(p) && IsChild(p, c) && p.kids[c].pipe > 10 && p.kids[c].edge
    ensures Legal(p, es) && After(p, es).setup == p.setup
    ensures After(p, es).kids[c] == ChildState(p.kids[c].pipe - 10, false, Idle)
  {
    hide RoundRobin.Pick, RoundRobin.Next, RoundRobin.Eligible, HungUp, Hangups;
    var a := Apply(p, Wake(c));
    var b := Apply(a, Drain(c));
    var e := if p.setup.maxAccept > 0 then Refused(c) else Rest(c);
    RunOne(b, e);
    RunCons(a, Drain(c), [e]);
    RunCons(p, Wake(c), [Drain(c)] + [e]);
    es := [Wake(c)] + ([Drain(c)] + [e]);
  }

  lemma FirstArrival(s: Setup)
    requires Proper(s) && Staffed(s) && s.level && s.queue > 0
    ensures Legal(Fresh(s), [Arrive]) && Calm(After(Fresh(s), [Arrive]))
  {
    RunOne(Fresh(s), Arrive);
  }

  /**
   A child can be left asleep with unread notifications exactly when its pipe holds six of them: five
   are what one wake-up reads, and with more than that nothing wakes the child for the rest.
   */
  lemma OversleepsIff(s: Setup)
    requires Proper(s) && Staffed(s) && s.level && s.queue > 0
    ensures (exists p, c :: Reachable(p) && p.setup == s && 0 <= c < |p.kids| && Oversleeps(p.kids[c])) <==> s.cap >= 12
  {
    hide Legal, After, Calm, Reachable, RoundRobin.Eligible;
    if s.cap >= 12 {
      var c :| 1 <= c < |s.pids| && s.pids[c] != -1;
      var p0 := Fresh(s);
      FirstArrival(s);
      var p1 := After(p0, [Arrive]);
      assert IsChild(p1, c) by { EligibleChild(s.pids, c); }
      var fill := FillPipe(p1, c);
      var p2 := After(p1, fill);
      var read := ReadsTen(p2, c);
      var p3 := After(p2, read);
      RunAppends(p1, fill, read);
      RunAppends(p0, [Arrive], fill + read);
      assert Reachable(p3) by { IsReachable(s, [Arrive] + (fill + read)); }
      assert Oversleeps(p3.kids[c]);
    } else if exists p, c :: Reachable(p) && p.setup == s && 0 <= c < |p.kids| && Oversleeps(p.kids[c]) {
      var p, c :| Reachable(p) && p.setup == s && 0 <= c < |p.kids| && Oversleeps(p.kids[c]);
      NoneOversleeps(p, c);
    }
  }

  lemma NoneOversleeps(p: Pool, c: nat)
    requires Reachable(p) && p.setup.cap < 12 && c < |p.kids|
    ensures !Oversleeps(p.kids[c])
  {
    hide Legal, After;
    var es :| Legal(Fresh(p.setup), es) && After(Fresh(p.setup), es) == p;
    AnnouncedRun(Fresh(p.setup), es);
  }

  lemma EligibleChild(pids: seq<int>, c: nat)
    requires 1 <= c < |pids| && pids[c] != -1
    ensures RoundRobin.Eligible(pids)[c]
  {
  }

  lemma IsReachable(s: Setup, es: seq<Event>)
    requires Proper(s) && Legal(Fresh(s), es)
    ensures Reachable(After(Fresh(s), es))
  {
  }

  // ---- The end of a pipe

  /** Neither the parent nor a child forked after `c` is left to write into its pipe. */
  ghost predicate NoWriter(p: Pool, c: nat)
    requires Shaped(p)
  {
    !p.up && forall d :: c < d < |p.kids| && p.setup.pids[d] != -1 ==> p.kids[d].phase == Exited
  }

  lemma NoWriterIs(p: Pool, c: nat)
    requires Shaped(p)
    ensures NoWriter(p, c) <==> HungUp(p, c)
  {
    assert forall d :: c < d < |p.kids| ==> (IsChild(p, d) <==> p.setup.pids[d] != -1);
  }

  /** Whatever makes the last writer go gives the child an edge; woken by that alone, it does not accept. */
  lemma EndOfPipe(p: Pool, e: Event, c: nat)
    requires Shaped(p) && Enabled(p, e) && c < |p.kids|
    ensures !NoWriter(p, c) && NoWriter(Apply(p, e), c) ==> Apply(p, e).kids[c].edge
    ensures NoWriter(p, c) && e == Drain(c) && p.kids[c].pipe == 0 ==> Apply(p, e).kids[c].phase == Idle
  {
    hide RoundRobin.Pick, RoundRobin.Next, RoundRobin.Eligible, HungUp, NoWriter;
    NoWriterIs(p, c);
    NoWriterIs(Apply(p, e), c);
    HungUpBy(p, e, c);
  }

  lemma HangupsHungUp(p: Pool, q: Pool, c: nat)
    requires Shaped(p) && Shaped(q) && q.setup == p.setup
    ensures HungUp(Hangups(p, q), c) <==> HungUp(q, c)
  {
    hide RoundRobin.Eligible, Hangups;
    var r := Hangups(p, q);
    assert forall d :: c < d < |q.kids| ==> (IsChild(r, d) <==> IsChild(q, d)) && r.kids[d].phase == q.kids[d].phase;
  }

  lemma HungUpBy(p: Pool, e: Event, c: nat)
    requires Shaped(p) && Enabled(p, e) && c < |p.kids|
    ensures !HungUp(p, c) && HungUp(Apply(p, e), c) ==> Apply(p, e).kids[c].edge
  {
    hide RoundRobin.Pick, RoundRobin.Next, RoundRobin.Eligible, Hangups;
    var q := Apply(p, e);
    match e
    case Leave => HangupsHungUp(p, p.(up := false), c);
    case Quit(d) => HangupsHungUp(p, WithKid(p, d, p.kids[d].(phase := Exited)), c);
    case Notify =>
      var sel := Target(p);
      var mid := WithKid(p, sel, Send(p.kids[sel], p.setup.cap)).(
        notifying := false,
        idx := RoundRobin.Next(RoundRobin.Eligible(p.setup.pids), sel));
      HangupsHungUp(p, mid.(up := false), c);
    case _ => NoHangUp(p, e, c);
  }

  lemma NoHangUp(p: Pool, e: Event, c: nat)
    requires Shaped(p) && Enabled(p, e) && !e.Notify? && !e.Leave? && !e.Quit?
    ensures HungUp(Apply(p, e), c) ==> HungUp(p, c)
  {
    hide RoundRobin.Pick, RoundRobin.Next, RoundRobin.Eligible, Hangups;
    var q := Apply(p, e);
    assert forall d :: c < d < |p.kids| && IsChild(p, d) ==> IsChild(q, d);
    assert forall d :: c < d < |p.kids| && q.kids[d].phase == Exited ==> p.kids[d].phase == Exited;
  }

  // ---- Stopping

  /**
   After a stop nothing is polled any more, and only a notification already under way is sent; and
   it is sent before the parent goes.
   */
  lemma {:induction false} AfterStop(p: Pool, es: seq<Event>)
    requires Shaped(p) && p.stopped && Legal(p, es)
    ensures Poll !in es && |Targets(p, es)| <= if p.notifying then 1 else 0
    ensures p.up && !After(p, es).up ==> |Targets(p, es)| == if p.notifying then 1 else 0
    decreases |es|
  {
    hide RoundRobin.Pick, RoundRobin.Next, RoundRobin.Eligible, HungUp, Hangups;
    if es != [] {
      AfterStop(Apply(p, es[0]), es[1..]);
    }
  }

  /** SIGTERM stops the pool: at most one more notification, and the parent leaves within two steps of its own. */
  lemma TerminateStops(p: Pool, es: seq<Event>)
    requires Shaped(p) && Legal(p, [Terminate] + es)
    ensures Poll !in es && |Targets(p, [Terminate] + es)| <= if p.notifying then 1 else 0
    ensures p.up && !After(p, [Terminate] + es).up ==>
      |Targets(p, [Terminate] + es)| == if p.notifying then 1 else 0
    ensures p.up ==>
      var out := [Terminate] + if p.notifying then [Notify, Leave] else [Leave];
      exists n :: 0 <= n <= |out| && Legal(p, out[..n]) && !After(p, out[..n]).up
  {
    hide RoundRobin.Pick, RoundRobin.Next, RoundRobin.Eligible, HungUp, Hangups;
    assert ([Terminate] + es)[1..] == es;
    var a := Apply(p, Terminate);
    AfterStop(a, es);
    if p.up {
      ParentLeaves(p);
    }
  }

  lemma ParentLeaves(p: Pool)
    requires Shaped(p) && p.up
    ensures var out := [Terminate] + if p.notifying then [Notify, Leave] else [Leave];
      exists n :: 0 <= n <= |out| && Legal(p, out[..n]) && !After(p, out[..n]).up
  {
    hide RoundRobin.Pick, RoundRobin.Next, RoundRobin.Eligible, HungUp, Hangups;
    var out := [Terminate] + if p.notifying then [Notify, Leave] else [Leave];
    var a := Apply(p, Terminate);
    if !p.notifying {
      RunOne(a, Leave);
      RunCons(p, Terminate, [Leave]);
      assert out[..2] == [Terminate] + [Leave];
    } else {
      var b := Apply(a, Notify);
      if b.up {
        RunOne(b, Leave);
        RunCons(a, Notify, [Leave]);
        RunCons(p, Terminate, [Notify] + [Leave]);
        assert out[..3] == [Terminate] + ([Notify] + [Leave]);
      } else {
        RunOne(a, Notify);
        RunCons(p, Terminate, [Notify]);
        assert out[..2] == [Terminate] + [Notify];
      }
    }
  }
}
