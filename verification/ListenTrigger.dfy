/**
 What the trigger of the listening socket decides: exactly when an edge-triggered pool comes to rest
 with a connection waiting, and exactly when a level-triggered one can still take it.
 */
module ListenTrigger {
  import RoundRobin
  import opened NotifyProtocol

  // ---- Coming to rest

  /** An event that comes from outside the pool. */
  predicate Outside(e: Event) { e.Arrive? || e.Terminate? || e.Quit? }

  /** Nothing inside the pool can move. */
  ghost predicate Stuck(p: Pool)
    requires Shaped(p)
  {
    forall e: Event :: Enabled(p, e) ==> Outside(e)
  }

  /** A child exits, or accept fails although a connection waits. */
  predicate Fault(p: Pool, e: Event) { e.Quit? || (e.Refused? && p.backlog > 0) }

  /** A legal run without faults. */
  predicate Orderly(p: Pool, es: seq<Event>)
    requires Shaped(p)
    decreases |es|
  {
    es == [] || (Enabled(p, es[0]) && !Fault(p, es[0]) && Orderly(Apply(p, es[0]), es[1..]))
  }

  lemma {:induction false} OrderlyIsLegal(p: Pool, es: seq<Event>)
    requires Shaped(p) && Orderly(p, es)
    ensures Legal(p, es)
    decreases |es|
  {
    hide Enabled, Apply;
    if es != [] {
      OrderlyIsLegal(Apply(p, es[0]), es[1..]);
    }
  }

  ghost predicate NoQuit(es: seq<Event>) {
    forall i :: 0 <= i < |es| ==> !es[i].Quit?
  }

  ghost predicate Strands(p: Pool, es: seq<Event>)
    requires Shaped(p)
  {
    Legal(p, es) && Waiting(After(p, es)) && Stuck(After(p, es))
  }

  // ---- Without faults: no room in the queue for more than one round of accepts means no stranding

  /** A child that will look at the queue again with enough accepts left to empty it. */
  predicate Covers(k: ChildState, backlog: nat) {
    Armed(k) || (k.phase.Accepting? && k.phase.left >= backlog)
  }

  /** A waiting connection is on its way to the parent, or to a child that can take all that wait. */
  ghost predicate Covered(p: Pool)
    requires Shaped(p)
  {
    || p.backlog == 0 || p.arrived || p.notifying
    || exists c :: 0 <= c < |p.kids| && IsChild(p, c) && Covers(p.kids[c], p.backlog)
  }

  ghost predicate Tight(p: Pool)
    ensures Tight(p) ==> Shaped(p)
  {
    && Inv(p) && (p.up || p.stopped) && Staffed(p.setup) && p.setup.queue <= p.setup.maxAccept
    && (forall c :: 0 <= c < |p.kids| ==> p.kids[c].phase != Exited)
    && Covered(p)
  }

  lemma CoversStep(p: Pool, e: Event, c: nat)
    requires Tight(p) && Enabled(p, e) && !Fault(p, e) && e != Notify
    requires IsChild(p, c) && Covers(p.kids[c], p.backlog)
    ensures var q := Apply(p, e); q.backlog == 0 || q.arrived || q.notifying || Covers(q.kids[c], q.backlog)
  {
    hide RoundRobin.Pick, RoundRobin.Next, RoundRobin.Eligible, HungUp, Hangups, Covered;
  }

  lemma FaultlessStep(p: Pool, e: Event)
    requires Tight(p) && Enabled(p, e) && !Fault(p, e)
    ensures var q := Apply(p, e);
      Inv(q) && (q.up || q.stopped) && forall c :: 0 <= c < |q.kids| ==> q.kids[c].phase != Exited
  {
    hide RoundRobin.Pick, RoundRobin.Next, RoundRobin.Eligible, HungUp, Hangups, Covered, KidOk;
    InvStep(p, e);
  }

  lemma TightStep(p: Pool, e: Event)
    requires Tight(p) && Enabled(p, e) && !Fault(p, e)
    ensures Tight(Apply(p, e))
  {
    hide RoundRobin.Pick, RoundRobin.Next, RoundRobin.Eligible, HungUp, Hangups, Inv;
    var q := Apply(p, e);
    FaultlessStep(p, e);
    if e == Notify {
      TargetIsChild(p);
      NotifyStep(p);
      assert Covers(q.kids[Target(p)], q.backlog);
    } else if exists c :: 0 <= c < |p.kids| && IsChild(p, c) && Covers(p.kids[c], p.backlog) {
      var c :| 0 <= c < |p.kids| && IsChild(p, c) && Covers(p.kids[c], p.backlog);
      CoversStep(p, e, c);
    }
  }

  lemma {:induction false} TightRun(p: Pool, es: seq<Event>)
    requires Tight(p) && Orderly(p, es)
    ensures Legal(p, es) && Tight(After(p, es))
    decreases |es|
  {
    hide Enabled, Apply, Tight;
    OrderlyIsLegal(p, es);
    if es != [] {
      TightStep(p, es[0]);
      TightRun(Apply(p, es[0]), es[1..]);
    }
  }

  lemma TightMoves(p: Pool)
    requires Tight(p) && Waiting(p)
    ensures !Stuck(p)
  {
    if p.notifying {
      assert Enabled(p, Notify);
    } else if p.arrived {
      assert Enabled(p, Poll);
    } else {
      var c: nat :| c < |p.kids| && IsChild(p, c) && Covers(p.kids[c], p.backlog);
      var k := p.kids[c];
      if k.phase.Accepting? {
        assert Enabled(p, if k.phase.left > 0 then Accepted(c) else Rest(c));
      } else {
        assert Enabled(p, if k.phase == Woken then Drain(c) else Wake(c));
      }
    }
  }

  // ---- Stranding runs

  function Times(e: Event, n: nat): seq<Event> { seq(n, _ => e) }

  lemma {:induction false} OrderlyAppends(p: Pool, es: seq<Event>, fs: seq<Event>)
    requires Shaped(p) && Orderly(p, es) && Legal(p, es) && Orderly(After(p, es), fs)
    ensures Orderly(p, es + fs) && Legal(p, es + fs) && Legal(After(p, es), fs)
    ensures After(p, es + fs) == After(After(p, es), fs)
    decreases |es|
  {
    hide Enabled, Apply;
    OrderlyIsLegal(After(p, es), fs);
    RunAppends(p, es, fs);
    if es == [] {
      assert es + fs == fs;
    } else {
      OrderlyAppends(Apply(p, es[0]), es[1..], fs);
      assert (es + fs)[1..] == es[1..] + fs;
    }
  }

  lemma OrderlyCons(p: Pool, e: Event, es: seq<Event>)
    requires Shaped(p) && Enabled(p, e) && !Fault(p, e) && Orderly(Apply(p, e), es)
    ensures Orderly(p, [e] + es) && Legal(p, [e] + es) && Legal(Apply(p, e), es)
    ensures After(p, [e] + es) == After(Apply(p, e), es)
  {
    assert ([e] + es)[1..] == es;
    OrderlyIsLegal(Apply(p, e), es);
    RunCons(p, e, es);
  }

  lemma {:induction false} Arrivals(p: Pool, n: nat)
    requires Shaped(p) && p.backlog + n <= p.setup.queue
    ensures var es := Times(Arrive, n);
      Orderly(p, es) && Legal(p, es) && After(p, es) == p.(backlog := p.backlog + n, arrived := p.arrived || n > 0)
    decreases n
  {
    if n > 0 {
      Arrivals(Apply(p, Arrive), n - 1);
      OrderlyCons(p, Arrive, Times(Arrive, n - 1));
      assert [Arrive] + Times(Arrive, n - 1) == Times(Arrive, n);
    }
  }

  lemma {:induction false} Accepts(p: Pool, c: nat, n: nat)
    requires Shaped(p) && IsChild(p, c) && n <= p.backlog
    requires p.kids[c].phase.Accepting? && n <= p.kids[c].phase.left
    ensures var es := Times(Accepted(c), n);
      && Orderly(p, es) && Legal(p, es)
      && After(p, es) ==
         WithKid(p, c, p.kids[c].(phase := Accepting(p.kids[c].phase.left - n))).(backlog := p.backlog - n)
    decreases n
  {
    hide RoundRobin.Eligible;
    if n > 0 {
      Accepts(Apply(p, Accepted(c)), c, n - 1);
      OrderlyCons(p, Accepted(c), Times(Accepted(c), n - 1));
      assert [Accepted(c)] + Times(Accepted(c), n - 1) == Times(Accepted(c), n);
    } else {
      assert p.kids[c := p.kids[c]] == p.kids;
    }
  }

  /** One notification, from the poll to the child that stands before its accept loop. */
  lemma WakeUp(p: Pool) returns (es: seq<Event>)
    requires Shaped(p) && Staffed(p.setup) && Enabled(p, Poll)
    requires p.kids[Target(p)] == ChildState(0, false, Idle)
    ensures Orderly(p, es) && Legal(p, es) && NoQuit(es)
    ensures var q, sel := After(p, es), Target(p);
      q == p.(arrived := false, idx := q.idx, kids := p.kids[sel := ChildState(0, false, Accepting(p.setup.maxAccept))])
  {
    hide RoundRobin.Pick, RoundRobin.Next, RoundRobin.Eligible, HungUp, Hangups, Legal, Orderly, After;
    TargetIsChild(p);
    var sel := Target(p);
    var a := Apply(p, Poll);
    assert Target(a) == sel;
    var b := Apply(a, Notify);
    assert b.kids == p.kids[sel := ChildState(MESSAGE, true, Idle)];
    var c := Apply(b, Wake(sel));
    assert c.kids == p.kids[sel := ChildState(MESSAGE, false, Woken)];
    var d := Apply(c, Drain(sel));
    assert d.kids == p.kids[sel := ChildState(0, false, Accepting(p.setup.maxAccept))];
    OrderlyNil(d);
    OrderlyCons(c, Drain(sel), []);
    OrderlyCons(b, Wake(sel), [Drain(sel)] + []);
    OrderlyCons(a, Notify, [Wake(sel)] + ([Drain(sel)] + []));
    OrderlyCons(p, Poll, [Notify] + ([Wake(sel)] + ([Drain(sel)] + [])));
    es := [Poll] + ([Notify] + ([Wake(sel)] + ([Drain(sel)] + [])));
  }

  lemma OrderlyNil(p: Pool)
    requires Shaped(p)
    ensures Orderly(p, []) && Legal(p, []) && After(p, []) == p
  {
  }

  /** A pool in which every process rests without a pending edge is stuck. */
  lemma RestIsStuck(p: Pool)
    requires Shaped(p) && !p.notifying && !p.stopped && !p.setup.level && !p.arrived
    requires forall c :: 0 <= c < |p.kids| ==> p.kids[c] == ChildState(0, false, Idle)
    ensures Stuck(p)
  {
  }

  /** A burst of one connection more than a child accepts per notification. */
  lemma BurstStrands(s: Setup) returns (es: seq<Event>)
    requires Proper(s) && Staffed(s) && !s.level && s.maxAccept < s.queue
    ensures Orderly(Fresh(s), es) && Strands(Fresh(s), es)
  {
    hide Legal, Orderly, After, Staffed, RoundRobin.Eligible, RoundRobin.Pick, RoundRobin.Next, HungUp, Hangups, Stuck;
    var p0 := Fresh(s);
    var n := s.maxAccept;
    var burst := Times(Arrive, n + 1);
    Arrivals(p0, n + 1);
    var p1 := After(p0, burst);
    var sel := Target(p1);
    TargetIsChild(p1);
    var wake := WakeUp(p1);
    OrderlyAppends(p0, burst, wake);
    var p2 := After(p1, wake);
    var round := Times(Accepted(sel), n);
    Accepts(p2, sel, n);
    OrderlyAppends(p0, burst + wake, round);
    var p3 := After(p2, round);
    OrderlyNil(Apply(p3, Rest(sel)));
    OrderlyCons(p3, Rest(sel), []);
    OrderlyAppends(p0, burst + wake + round, [Rest(sel)] + []);
    es := burst + wake + round + ([Rest(sel)] + []);
    RestIsStuck(After(p0, es));
  }

  /**
   An edge-triggered pool without faults has a run to a state where a connection waits and nothing
   inside moves exactly when the kernel queues more connections than a child accepts per notification.
   */
  lemma EdgeTriggeredStuckIff(s: Setup)
    requires Proper(s) && Staffed(s) && !s.level
    ensures (exists es :: Orderly(Fresh(s), es) && Strands(Fresh(s), es)) <==> s.maxAccept < s.queue
  {
    hide Orderly, Legal, After, Stuck, Staffed;
    if s.maxAccept < s.queue {
      var es := BurstStrands(s);
    } else if exists es :: Orderly(Fresh(s), es) && Strands(Fresh(s), es) {
      var es :| Orderly(Fresh(s), es) && Strands(Fresh(s), es);
      TightRun(Fresh(s), es);
      TightMoves(After(Fresh(s), es));
    }
  }

  /** One accept that fails while a connection waits is enough, whatever the sizes. */
  lemma RefusalStrands(s: Setup) returns (es: seq<Event>)
    requires Proper(s) && Staffed(s) && !s.level && s.queue > 0 && s.maxAccept > 0
    ensures Strands(Fresh(s), es) && NoQuit(es)
  {
    hide Legal, Orderly, After, Staffed, RoundRobin.Eligible, RoundRobin.Pick, RoundRobin.Next, HungUp, Hangups, Stuck;
    var p0 := Fresh(s);
    var p1 := Apply(p0, Arrive);
    RunOne(p0, Arrive);
    var sel := Target(p1);
    TargetIsChild(p1);
    var wake := WakeUp(p1);
    RunAppends(p0, [Arrive], wake);
    var p2 := After(p1, wake);
    RunOne(p2, Refused(sel));
    RunAppends(p0, [Arrive] + wake, [Refused(sel)]);
    es := [Arrive] + wake + [Refused(sel)];
    RestIsStuck(After(p0, es));
  }

  /**
   With accepts that may fail, and no exits, an edge-triggered pool can be stranded as soon as a
   connection can wait at all.
   */
  lemma FailingAcceptStuckIff(s: Setup)
    requires Proper(s) && Staffed(s) && !s.level && s.maxAccept > 0
    ensures (exists es :: Strands(Fresh(s), es) && NoQuit(es)) <==> s.queue > 0
  {
    hide Legal, After, Stuck, Staffed;
    if s.queue > 0 {
      var es := RefusalStrands(s);
    } else if exists es :: Strands(Fresh(s), es) && NoQuit(es) {
      var es :| Strands(Fresh(s), es);
      FreshInv(s);
      InvRun(Fresh(s), es);
    }
  }

  lemma FreshInv(s: Setup)
    requires Proper(s)
    ensures Inv(Fresh(s))
  {
  }

  // ---- The level-triggered pool

  ghost predicate Inside(es: seq<Event>) {
    forall i :: 0 <= i < |es| ==> !Outside(es[i])
  }

  /** A run of the pool by itself that ends with a waiting connection being accepted. */
  ghost predicate Serves(p: Pool, es: seq<Event>)
    requires Shaped(p)
  {
    es != [] && Legal(p, es) && Inside(es) && es[|es| - 1].Accepted?
  }

  /** The end of its pipe, when the parent goes, will wake this child, and it will find a message there. */
  predicate LeftUnread(p: Pool, c: nat)
    requires Shaped(p)
  {
    IsChild(p, c) && LastLeft(p, c) && p.kids[c].phase != Exited && p.kids[c].pipe > 0
  }

  /**
   The parent runs and either the next child in turn still runs too, or the last child left has an
   unread message to be woken to by the parent's death; or some child is on its way to accept.
   */
  ghost predicate CanServe(p: Pool)
    requires Shaped(p)
  {
    || (p.up && p.kids[Target(p)].phase != Exited)
    || (p.up && exists c :: 0 <= c < |p.kids| && LeftUnread(p, c))
    || exists c :: 0 <= c < |p.kids| && IsChild(p, c) && Due(p.kids[c])
  }

  lemma ServesCons(p: Pool, e: Event, es: seq<Event>)
    requires Shaped(p) && Enabled(p, e) && !Outside(e) && Serves(Apply(p, e), es)
    ensures Serves(p, [e] + es)
  {
    hide Enabled, Apply;
    RunCons(p, e, es);
  }

  /** A due child accepts by its own moves alone. */
  lemma {:induction false} DriveToAccept(p: Pool, c: nat) returns (es: seq<Event>)
    requires Shaped(p) && IsChild(p, c) && Due(p.kids[c]) && p.backlog > 0 && p.setup.maxAccept > 0
    ensures Serves(p, es) && |es| <= Distance(p.kids[c]) + 1
    decreases Distance(p.kids[c])
  {
    hide Legal, RoundRobin.Eligible;
    var k := p.kids[c];
    if k.phase.Accepting? && k.phase.left > 0 {
      RunOne(p, Accepted(c));
      es := [Accepted(c)];
    } else {
      var e := if k.phase.Accepting? then Rest(c) else if k.phase == Woken then Drain(c) else Wake(c);
      var rest := DriveToAccept(Apply(p, e), c);
      ServesCons(p, e, rest);
      es := [e] + rest;
    }
  }

  lemma KillingStep(p: Pool, c: nat)
    requires Shaped(p) && Enabled(p, Notify) && p.kids[Target(p)].phase == Exited && LeftUnread(p, c)
    ensures var q := Apply(p, Notify);
      IsChild(q, c) && q.backlog == p.backlog && Armed(q.kids[c]) && q.kids[c].phase != Exited
  {
    hide RoundRobin.Pick, RoundRobin.Next, RoundRobin.Eligible, Hangups;
  }

  /** The notification that kills the parent wakes the last child left. */
  lemma KillingNotification(p: Pool, c: nat)
    requires Shaped(p) && p.up && p.setup.level && Waiting(p)
    requires p.kids[Target(p)].phase == Exited && LeftUnread(p, c)
    ensures var es := NextNotification(p);
      && Legal(p, es) && Inside(es) && |es| <= 2
      && var q := After(p, es);
         IsChild(q, c) && q.backlog == p.backlog && Armed(q.kids[c]) && q.kids[c].phase != Exited
  {
    hide RoundRobin.Pick, RoundRobin.Eligible, HungUp, Hangups, Armed;
    if p.notifying {
      KillingStep(p, c);
      RunOne(p, Notify);
    } else {
      var q := Apply(p, Poll);
      KillingStep(q, c);
      RunOne(q, Notify);
      RunCons(p, Poll, [Notify]);
      assert [Poll] + [Notify] == [Poll, Notify];
    }
  }

  /** Within six events: the next notification and then the moves of the child it wakes. */
  lemma ServeNow(p: Pool) returns (es: seq<Event>)
    requires Inv(p) && p.setup.level && Waiting(p) && Staffed(p.setup) && p.setup.maxAccept > 0 && CanServe(p)
    ensures Serves(p, es) && |es| <= 6
  {
    hide Legal, After, Inv, Staffed, RoundRobin.Eligible, RoundRobin.Pick, Due, Armed, LeftUnread;
    if exists c :: 0 <= c < |p.kids| && IsChild(p, c) && Due(p.kids[c]) {
      var c :| 0 <= c < |p.kids| && IsChild(p, c) && Due(p.kids[c]);
      es := DriveToAccept(p, c);
    } else {
      var sel, first := Target(p), NextNotification(p);
      if p.kids[sel].phase != Exited {
        TargetIsChild(p);
        NextNotificationRuns(p);
      } else {
        sel :| 0 <= sel < |p.kids| && LeftUnread(p, sel);
        KillingNotification(p, sel);
      }
      var q := After(p, first);
      ArmedIsDue(q.kids[sel]);
      var rest := DriveToAccept(q, sel);
      RunAppends(p, first, rest);
      es := first + rest;
    }
  }

  lemma ArmedIsDue(k: ChildState)
    requires Armed(k) && k.phase != Exited
    ensures Due(k)
  {
  }

  /** Only an exit changes who is the last child left. */
  lemma LastLeftStays(p: Pool, e: Event, c: nat)
    requires Shaped(p) && Enabled(p, e) && !Outside(e)
    ensures LastLeft(Apply(p, e), c) <==> LastLeft(p, c)
  {
    hide RoundRobin.Pick, RoundRobin.Next, RoundRobin.Eligible, HungUp, Hangups;
    var q := Apply(p, e);
    assert forall d :: 0 <= d < |p.kids| ==> (q.kids[d].phase == Exited <==> p.kids[d].phase == Exited);
    assert forall d :: IsChild(q, d) <==> IsChild(p, d);
  }

  /** When the next child in turn has exited the others get no bytes, and an edge only from the parent's going. */
  lemma NoBytes(p: Pool, e: Event, c: nat)
    requires Shaped(p) && !(p.up && p.kids[Target(p)].phase != Exited) && c < |p.kids|
    requires Enabled(p, e) && !Outside(e) && !MovesOf(e, c)
    ensures var q, k, k' := Apply(p, e), p.kids[c], Apply(p, e).kids[c];
      && k'.pipe == k.pipe && k'.phase == k.phase
      && (k'.edge ==> k.edge || (p.up && LastLeft(q, c)))
  {
    hide RoundRobin.Pick, RoundRobin.Next, RoundRobin.Eligible, Hangups;
  }

  lemma HopelessKid(p: Pool, e: Event, c: nat)
    requires Inv(p) && !CanServe(p) && Enabled(p, e) && !Outside(e) && IsChild(p, c)
    ensures var q := Apply(p, e); IsChild(q, c) && !Due(q.kids[c]) && !(q.up && LeftUnread(q, c))
  {
    hide RoundRobin.Pick, RoundRobin.Next, RoundRobin.Eligible, LastLeft, Hangups;
    assert !Due(p.kids[c]) && !(p.up && LeftUnread(p, c));
    LastLeftStays(p, e, c);
    if !MovesOf(e, c) {
      NoBytes(p, e, c);
    }
  }

  lemma HopelessStep(p: Pool, e: Event)
    requires Inv(p) && !CanServe(p) && Enabled(p, e) && !Outside(e)
    ensures !CanServe(Apply(p, e)) && !e.Accepted?
  {
    hide RoundRobin.Pick, RoundRobin.Next, RoundRobin.Eligible, LastLeft, Hangups;
    var q := Apply(p, e);
    forall c | 0 <= c < |q.kids| && IsChild(q, c)
      ensures !Due(q.kids[c]) && !(q.up && LeftUnread(q, c))
    {
      HopelessKid(p, e, c);
    }
    assert !(q.up && q.kids[Target(q)].phase != Exited);
  }

  lemma {:induction false} HopelessRun(p: Pool, es: seq<Event>)
    requires Inv(p) && !CanServe(p) && Legal(p, es) && Inside(es)
    ensures forall i :: 0 <= i < |es| ==> !es[i].Accepted?
    decreases |es|
  {
    hide Enabled, Apply, CanServe;
    if es != [] {
      HopelessStep(p, es[0]);
      InvStep(p, es[0]);
      HopelessRun(Apply(p, es[0]), es[1..]);
      assert forall i :: 1 <= i < |es| ==> es[i] == es[1..][i - 1];
    }
  }

  /**
   In every reachable state of a level-triggered pool a waiting connection can be accepted without
   help from outside exactly when the next child in turn has not exited (and the parent has not
   been killed), or some child is on its way to accept; and then within six events.
   */
  lemma LevelTriggeredServesIff(p: Pool)
    requires Reachable(p) && Shaped(p) && p.setup.level && Waiting(p) && Staffed(p.setup) && p.setup.maxAccept > 0
    ensures (exists es :: Serves(p, es)) <==> CanServe(p)
    ensures CanServe(p) ==> exists es :: Serves(p, es) && |es| <= 6
  {
    hide CanServe, Legal, Staffed;
    ReachableInv(p);
    if CanServe(p) {
      var es := ServeNow(p);
    } else if exists es :: Serves(p, es) {
      var es :| Serves(p, es);
      HopelessRun(p, es);
    }
  }

  ghost predicate AllRun(p: Pool) {
    (p.up || p.stopped) && forall c :: 0 <= c < |p.kids| ==> p.kids[c].phase != Exited
  }

  lemma AllRunStep(p: Pool, e: Event)
    requires Shaped(p) && AllRun(p) && Enabled(p, e) && !e.Quit?
    ensures AllRun(Apply(p, e))
  {
    hide RoundRobin.Pick, RoundRobin.Next, RoundRobin.Eligible, HungUp, Hangups;
  }

  lemma {:induction false} AllRunAfter(p: Pool, es: seq<Event>)
    requires Shaped(p) && AllRun(p) && Legal(p, es) && NoQuit(es)
    ensures AllRun(After(p, es))
    decreases |es|
  {
    hide Enabled, Apply, AllRun;
    if es != [] {
      AllRunStep(p, es[0]);
      AllRunAfter(Apply(p, es[0]), es[1..]);
    }
  }

  /**
   As long as no child exits, a level-triggered pool is never stranded: after any run, with accepts
   failing or not, a waiting connection can be accepted within six events.
   */
  lemma LevelTriggeredServes(s: Setup, es: seq<Event>)
    requires Proper(s) && Staffed(s) && s.level && s.maxAccept > 0
    requires Legal(Fresh(s), es) && NoQuit(es) && Waiting(After(Fresh(s), es))
    ensures exists fs :: Serves(After(Fresh(s), es), fs) && |fs| <= 6
  {
    hide Legal, Staffed, NoQuit;
    var p := After(Fresh(s), es);
    AllRunAfter(Fresh(s), es);
    assert Reachable(p);
    LevelTriggeredServesIff(p);
  }

  /** The parent has gone and the children that are left have read everything. */
  ghost predicate Orphaned(p: Pool)
    requires Shaped(p)
  {
    && !p.up
    && forall c :: 0 <= c < |p.kids| ==>
         p.kids[c].pipe == 0 && (p.kids[c].phase == Idle || p.kids[c].phase == Exited)
  }

  lemma OrphansRest(p: Pool)
    requires Shaped(p) && Orphaned(p) && forall c :: 0 <= c < |p.kids| ==> !Enabled(p, Wake(c))
    ensures Stuck(p)
  {
    hide RoundRobin.Eligible, HungUp;
    forall e: Event
      ensures Enabled(p, e) ==> Outside(e)
    {
      assert e.Wake? ==> Enabled(p, e) == Enabled(p, Wake(e.c));
    }
  }

  /** Only the last child left can be woken by the end of its pipe, and it goes back to sleep. */
  lemma Settles(p: Pool) returns (es: seq<Event>)
    requires Shaped(p) && Orphaned(p)
    ensures Legal(p, es)
    ensures var q := After(p, es); q.backlog == p.backlog && q.stopped == p.stopped && Stuck(q)
  {
    hide RoundRobin.Eligible, Stuck;
    if exists c :: 0 <= c < |p.kids| && Enabled(p, Wake(c)) {
      var c :| 0 <= c < |p.kids| && Enabled(p, Wake(c));
      var a := Apply(p, Wake(c));
      assert HungUp(a, c);
      var b := Apply(a, Drain(c));
      assert b.kids == p.kids[c := ChildState(0, false, Idle)];
      RunOne(a, Drain(c));
      RunCons(p, Wake(c), [Drain(c)]);
      es := [Wake(c)] + [Drain(c)];
      forall d | 0 <= d < |b.kids|
        ensures !Enabled(b, Wake(d))
      {
        assert IsChild(b, d) <==> IsChild(p, d);
        assert b.kids[c].phase == Idle && IsChild(b, c);
      }
      OrphansRest(b);
    } else {
      es := [];
      OrphansRest(p);
    }
  }

  /** The exit of one child is enough to strand any pool: the parent is killed by notifying it. */
  lemma ExitStrands(s: Setup) returns (es: seq<Event>)
    requires Proper(s) && Staffed(s) && s.queue > 0
    ensures Strands(Fresh(s), es)
  {
    hide Legal, After, Staffed, RoundRobin.Eligible, RoundRobin.Pick, RoundRobin.Next, HungUp, Hangups, Stuck;
    var p0 := Fresh(s);
    var sel := Target(p0);
    TargetIsChild(p0);
    var a := Apply(p0, Quit(sel));
    var b := Apply(a, Arrive);
    var c := Apply(b, Poll);
    var d := Apply(c, Notify);
    assert Orphaned(d);
    RunOne(c, Notify);
    RunCons(b, Poll, [Notify]);
    RunCons(a, Arrive, [Poll] + [Notify]);
    RunCons(p0, Quit(sel), [Arrive] + ([Poll] + [Notify]));
    var kill := [Quit(sel)] + ([Arrive] + ([Poll] + [Notify]));
    var rest := Settles(d);
    RunAppends(p0, kill, rest);
    es := kill + rest;
  }

  /**
   A level-triggered pool can be stranded exactly when a connection can wait at all, and only by
   the exit of a child.
   */
  lemma LevelStrandedIff(s: Setup)
    requires Proper(s) && Staffed(s) && s.level && s.maxAccept > 0
    ensures (exists es :: Strands(Fresh(s), es)) <==> s.queue > 0
    ensures forall es :: Strands(Fresh(s), es) ==> !NoQuit(es)
  {
    hide Legal, After, Staffed, NoQuit, Reachable, CanServe;
    if s.queue > 0 {
      var es := ExitStrands(s);
    } else if exists es :: Strands(Fresh(s), es) {
      var es :| Strands(Fresh(s), es);
      FreshInv(s);
      InvRun(Fresh(s), es);
    }
    forall es | Strands(Fresh(s), es)
      ensures !NoQuit(es)
    {
      if NoQuit(es) {
        LevelTriggeredServes(s, es);
        var fs :| Serves(After(Fresh(s), es), fs) && |fs| <= 6;
        FirstMoves(After(Fresh(s), es), fs);
      }
    }
  }

  lemma FirstMoves(p: Pool, fs: seq<Event>)
    requires Shaped(p) && Serves(p, fs)
    ensures !Stuck(p)
  {
    assert Enabled(p, fs[0]) && !Outside(fs[0]);
  }
}
