/**
 When the alarm of the timed chat is right although clients have been moved: for every silent client
 the entry at its noted index must still hold it.
 */
module AlarmGuard {
  import TimerSpec
  import opened TimedChat

  // ---- Runs whose alarms have been right so far

  /** A legal run in which every alarm has closed exactly the silent clients. */
  ghost predicate Clean(p: Chat, es: seq<Event>)
    requires Shaped(p)
    decreases |es|
  {
    || es == []
    || (&& Enabled(p, es[0])
        && (es[0].Timeout? ==> ClosesSilent(p, es[0].now))
        && Clean(Step(p, es[0]), es[1..]))
  }

  /** What removals leave alone, whichever clients they close: the records of all the others. */
  ghost predicate Removed(p: Chat, gone: seq<int>, q: Chat) {
    && q.running == p.running && q.closed == p.closed + gone && q.cnt + |gone| == p.cnt
    && q.heard == p.heard - (set c | c in gone)
    && q.timers == p.timers && q.created == p.created
    && forall c :: c in p.clients && c !in gone ==> c in q.clients && q.clients[c] == p.clients[c]
  }

  lemma RemovedFirst(p: Chat, c: int, gone: seq<int>, r: Chat)
    requires Shaped(p) && c in p.clients && p.cnt > 0 && Removed(RemoveClient(p, c), gone, r)
    ensures Removed(p, [p.fds[p.clients[c].idx]] + gone, r)
  {
    var q, d := RemoveClient(p, c), p.fds[p.clients[c].idx];
    assert p.closed + ([d] + gone) == q.closed + gone;
    assert p.heard - (set x | x in [d] + gone) == q.heard - set x | x in gone;
  }

  lemma RemovedNone(p: Chat)
    ensures Removed(p, [], p)
  {
    assert p.heard - (set c | c in []) == p.heard;
  }

  lemma {:induction false} RemovesSome(p: Chat, cs: seq<int>) returns (gone: seq<int>)
    requires Shaped(p) && forall i :: 0 <= i < |cs| ==> cs[i] in p.clients
    requires p.running && RemoveAll(p, cs).running
    ensures |gone| == |cs| && Removed(p, gone, RemoveAll(p, cs))
    decreases |cs|
  {
    hide Shaped, Removed, RemoveClient;
    if cs == [] {
      gone := [];
      RemovedNone(p);
    } else {
      StopsAtEmpty(p, cs);
      var rest := RemovesSome(RemoveClient(p, cs[0]), cs[1..]);
      gone := [p.fds[p.clients[cs[0]].idx]] + rest;
      RemovedFirst(p, cs[0], rest, RemoveAll(p, cs));
    }
  }

  lemma StopsAtEmpty(p: Chat, cs: seq<int>)
    requires Shaped(p) && cs != [] && forall i :: 0 <= i < |cs| ==> cs[i] in p.clients
    requires p.running && RemoveAll(p, cs).running
    ensures p.cnt > 0 && cs[0] in p.clients && p.clients[cs[0]].idx < |p.fds| && RemoveClient(p, cs[0]).running
    ensures forall i :: 0 <= i < |cs[1..]| ==> cs[1..][i] in RemoveClient(p, cs[0]).clients
    ensures RemoveAll(RemoveClient(p, cs[0]), cs[1..]) == RemoveAll(p, cs)
  {
    assert RemoveAll(p, cs) == RemoveAll(RemoveClient(p, cs[0]), cs[1..]);
  }

  lemma HangUpSettled(p: Chat, i: nat)
    requires Settled(p) && Enabled(p, HangUp(i)) && Step(p, HangUp(i)).running
    ensures Settled(Step(p, HangUp(i)))
  {
    hide Timed, TimerSpec.Remove;
    var c := p.fds[i];
    var t := p.clients[c].timer;
    ShapedByTimers(p, TimerSpec.Delete(t));
    HangUpTimed(p, c);
    BoundClients(p);
    var q := Step(p, HangUp(i));
    TimedBy(p.(timers := TimerSpec.Remove(p.timers, t), heard := p.heard - {c}), q);
    assert q.heard.Keys == p.heard.Keys - {c};
  }

  lemma AlarmRemoves(p: Chat, now: int) returns (gone: seq<int>)
    requires Shaped(p) && p.running && ClosesSilent(p, now)
    ensures Removed(p.(timers := TimerSpec.Tick(p.timers, now)), gone, Step(p, Timeout(now)))
    ensures Different(gone) && forall c :: c in gone <==> Silent(p, c, now)
  {
    hide TimerSpec.Tick, FiredClients, RemoveAll, Silent, Different, Removed;
    var cs := FiredClients(p, now);
    ShapedByTimers(p, TimerSpec.Alarm(now));
    ShapedFired(p, now);
    var q, r := p.(timers := TimerSpec.Tick(p.timers, now)), Step(p, Timeout(now));
    gone := RemovesSome(q, cs);
    assert r.closed[|p.closed|..] == gone by { ClosedIs(q, gone, r); }
  }

  lemma ClosedIs(p: Chat, gone: seq<int>, q: Chat)
    requires Removed(p, gone, q)
    ensures |p.closed| <= |q.closed| && q.closed[|p.closed|..] == gone
  {
  }

  lemma TimeoutSettled(p: Chat, now: int)
    requires Settled(p) && ClosesSilent(p, now)
    ensures Settled(Step(p, Timeout(now)))
  {
    hide Timed, TimerSpec.Tick, Shaped, Step, ClosesSilent;
    var r := Step(p, Timeout(now));
    var gone := AlarmRemoves(p, now);
    var left := set c | c in gone;
    TimeoutTimed(p, now, left);
    BoundClients(p);
    TimedBy(p.(timers := TimerSpec.Tick(p.timers, now), heard := p.heard - left), r);
    assert forall i :: 0 <= i < |gone| ==> gone[i] in gone && Silent(p, gone[i], now);
    DifferentCount(gone, p.heard.Keys);
    assert r.heard.Keys == p.heard.Keys - left;
  }

  lemma BoundClients(p: Chat)
    requires Timed(p)
    ensures forall c :: c in p.heard ==> c in p.clients
  {
  }

  lemma StepSettled(p: Chat, e: Event)
    requires Settled(p) && Enabled(p, e) && (e.Timeout? ==> ClosesSilent(p, e.now)) && Step(p, e).running
    ensures Settled(Step(p, e))
  {
    hide Timed, RemoveClient, RemoveAll, TimerSpec.Change, TimerSpec.Insert, ClosesSilent;
    match e
    case Join(fd, now) =>
      if p.cnt < |p.fds| {
        JoinTimed(p, fd, now);
        assert Step(p, e).heard.Keys == p.heard.Keys + {fd};
      } else {
        BoundClients(p);
        TimedBy(p, Step(p, e));
      }
    case Hear(i, now) =>
      HearTimed(p, p.fds[i], now);
      assert Step(p, e).heard.Keys == p.heard.Keys;
    case HangUp(i) => HangUpSettled(p, i);
    case Timeout(now) => TimeoutSettled(p, now);
  }

  lemma {:induction false} CleanSettled(p: Chat, es: seq<Event>)
    requires Settled(p) && Clean(p, es)
    ensures Legal(p, es) && (Run(p, es).running ==> Settled(Run(p, es)))
    decreases |es|
  {
    hide Timed, Enabled, Step, ClosesSilent;
    if es != [] {
      var q := Step(p, es[0]);
      if q.running {
        StepSettled(p, es[0]);
        CleanSettled(q, es[1..]);
      } else {
        StoppedEnds(q, es[1..]);
      }
    }
  }

  lemma StoppedEnds(p: Chat, es: seq<Event>)
    requires Shaped(p) && !p.running && Clean(p, es)
    ensures es == []
  {
    hide Step;
  }

  /** For a table of any size, after any run whose alarms were right, it is enough to look at the silent clients. */
  lemma SilentAimedSuffices(max: nat, es: seq<Event>, now: int)
    requires Clean(Empty(max), es)
    ensures Legal(Empty(max), es)
    ensures var p := Run(Empty(max), es); p.running && SilentAimed(p, now) ==> ClosesSilent(p, now)
  {
    hide Run, Legal, Clean, ClosesSilent, SilentAimed;
    EmptyGood(max);
    CleanSettled(Empty(max), es);
    var p := Run(Empty(max), es);
    if p.running && SilentAimed(p, now) {
      AlarmClosesSilent(p, now);
    }
  }

  // ---- Every descriptor

  function Joins(es: seq<Event>, fd: int): nat {
    if es == [] then 0 else (if es[0].Join? && es[0].fd == fd then 1 else 0) + Joins(es[1..], fd)
  }

  /** How often the descriptor has been closed, and once more while it is connected. */
  function Account(p: Chat, fd: int): nat { multiset(p.closed)[fd] + if fd in p.heard then 1 else 0 }

  lemma {:induction false} DifferentOnce(cs: seq<int>, c: int)
    requires Different(cs)
    ensures multiset(cs)[c] == if c in cs then 1 else 0
    decreases |cs|
  {
    if cs != [] {
      DifferentOnce(cs[1..], c);
      assert cs == [cs[0]] + cs[1..];
    }
  }

  lemma AccountStep(p: Chat, e: Event, fd: int)
    requires Settled(p) && Enabled(p, e) && (e.Timeout? ==> ClosesSilent(p, e.now))
    ensures Account(Step(p, e), fd) == Account(p, fd) + if e.Join? && e.fd == fd then 1 else 0
  {
    hide Timed, RemoveAll, TimerSpec.Change, TimerSpec.Insert, TimerSpec.Remove, ClosesSilent;
    if e.Timeout? {
      hide Step;
      var gone := AlarmRemoves(p, e.now);
      DifferentOnce(gone, fd);
    }
  }

  /** Closes, and the connected client, account for every accept. */
  lemma {:induction false} Accounted(p: Chat, es: seq<Event>, fd: int)
    requires Settled(p) && Clean(p, es)
    ensures Legal(p, es) && Account(Run(p, es), fd) == Account(p, fd) + Joins(es, fd)
    decreases |es|
  {
    hide Timed, Enabled, Step, ClosesSilent, Account;
    if es != [] {
      var q := Step(p, es[0]);
      AccountStep(p, es[0], fd);
      if q.running {
        StepSettled(p, es[0]);
        Accounted(q, es[1..], fd);
      } else {
        StoppedEnds(q, es[1..]);
      }
    }
  }

  /** A client that finds the table full is accepted all the same, and its descriptor closed at once. */
  lemma TurnedAway(p: Chat, fd: int, now: int)
    requires Shaped(p) && p.running && p.cnt == |p.fds| && fd !in p.heard
    ensures Enabled(p, Join(fd, now))
    ensures var q := Step(p, Join(fd, now));
      q.closed == p.closed + [fd] && q.heard == p.heard && q.fds[..q.cnt] == p.fds[..p.cnt] && q.timers == p.timers
  {
  }

  /** From the start: accepts of a descriptor are as many as its closes, and one more while it is connected. */
  lemma OpenedAndClosed(max: nat, es: seq<Event>, fd: int)
    requires Clean(Empty(max), es)
    ensures Legal(Empty(max), es)
    ensures var p := Run(Empty(max), es); Joins(es, fd) == multiset(p.closed)[fd] + if fd in p.heard then 1 else 0
  {
    hide Clean, Legal, Run;
    EmptyGood(max);
    Accounted(Empty(max), es, fd);
  }

  // ---- How far the guard reaches

  /**
   With room for two: the entries in use are the connected clients, and a client's noted index is
   its position or, for one that has been moved, the position after it.
   */
  ghost predicate Placed(p: Chat)
    requires Shaped(p)
  {
    && |p.fds| <= 2
    && (forall i :: 0 <= i < p.cnt ==> p.fds[i] in p.heard && i <= p.clients[p.fds[i]].idx)
    && (p.cnt == 2 ==> p.fds[0] != p.fds[1])
    && (forall c :: c in p.heard ==> p.cnt > 0 && (c == p.fds[0] || (p.cnt == 2 && c == p.fds[1])))
  }

  ghost predicate Near(p: Chat) { Settled(p) && Placed(p) }

  lemma RemovalPlaced(p: Chat, c: int)
    requires Shaped(p) && Placed(p) && c in p.heard && AimedAt(p, c)
    ensures Placed(RemoveClient(p, c))
  {
  }

  /** What Placed depends on. */
  lemma PlacedBy(p: Chat, q: Chat)
    requires Shaped(p) && Shaped(q) && Placed(p)
    requires q.fds == p.fds && q.cnt == p.cnt && q.clients == p.clients && q.heard.Keys == p.heard.Keys
    ensures Placed(q)
  {
  }

  lemma AlarmIs(p: Chat, now: int)
    requires Settled(p)
    ensures var cs, q := FiredClients(p, now), p.(timers := TimerSpec.Tick(p.timers, now));
      && |cs| <= p.cnt && Shaped(q) && (forall i :: 0 <= i < |cs| ==> cs[i] in p.heard && cs[i] in p.clients)
      && Step(p, Timeout(now)) == RemoveAll(q, cs)
  {
    hide Timed, TimerSpec.Tick, FiredClients, RemoveAll;
    FiredAreSilent(p, now);
    FiredFit(p, now);
    ShapedByTimers(p, TimerSpec.Alarm(now));
  }

  lemma RemovesOne(p: Chat, cs: seq<int>)
    requires Shaped(p) && p.running && p.cnt > 0 && |cs| == 1 && cs[0] in p.clients
    ensures RemoveAll(p, cs) == RemoveClient(p, cs[0])
    ensures RemoveAll(p, cs).closed == p.closed + [p.fds[p.clients[cs[0]].idx]]
  {
  }

  /** Two clients that both have the last entry noted: it is closed twice. */
  lemma RemovesTwice(p: Chat, cs: seq<int>)
    requires Shaped(p) && p.running && p.cnt == |p.fds| == 2 && |cs| == 2
    requires forall i :: 0 <= i < |cs| ==> cs[i] in p.clients && p.clients[cs[i]].idx == 1
    ensures RemoveAll(p, cs).closed == p.closed + [p.fds[1], p.fds[1]]
  {
    var a, rest := RemoveClient(p, cs[0]), cs[1..];
    assert a.fds == p.fds && rest[0] == cs[1] && a.clients[rest[0]].idx == 1;
    RemovesOne(a, rest);
  }

  /** In such a table an alarm that misses one silent client is wrong as a whole. */
  lemma UnaimedFails(p: Chat, now: int)
    requires Near(p) && !SilentAimed(p, now)
    ensures !ClosesSilent(p, now)
  {
    hide Timed, TimerSpec.Tick, FiredClients, Step, RemoveAll;
    var cs, r := FiredClients(p, now), Step(p, Timeout(now));
    FiredAreSilent(p, now);
    AlarmIs(p, now);
    var q := p.(timers := TimerSpec.Tick(p.timers, now));
    var c :| Silent(p, c, now) && !AimedAt(p, c);
    assert c == p.fds[0] && p.clients[c].idx == 1 && c in cs;
    if |cs| == 1 {
      assert cs == [c];
      RemovesOne(q, cs);
      assert r.closed[|p.closed|..] == [p.fds[1]];
    } else {
      assert cs[0] != cs[1] && p.cnt == 2;
      RemovesTwice(q, cs);
      assert r.closed[|p.closed|..] == [p.fds[1], p.fds[1]];
    }
  }

  lemma TimeoutNear(p: Chat, now: int)
    requires Near(p) && ClosesSilent(p, now)
    ensures Near(Step(p, Timeout(now)))
  {
    hide Timed, TimerSpec.Tick, FiredClients, Step, ClosesSilent, SilentAimed, RemoveClient, AimedAt, Placed;
    TimeoutSettled(p, now);
    AlarmIs(p, now);
    var cs, q, r := FiredClients(p, now), p.(timers := TimerSpec.Tick(p.timers, now)), Step(p, Timeout(now));
    PlacedBy(p, q);
    if |cs| == 1 {
      FiredAimed(p, now);
      assert AimedAt(p, cs[0]);
      AimedBy(p, q, cs[0]);
      RemovesOne(q, cs);
      RemovalPlaced(q, cs[0]);
    } else if |cs| > 1 {
      AlarmCounts(p, now);
      SmallTable(p);
      NonePlaced(r);
    }
  }

  lemma AimedBy(p: Chat, q: Chat, c: int)
    requires Shaped(p) && Shaped(q) && AimedAt(p, c) && q.fds == p.fds && q.clients == p.clients
    ensures AimedAt(q, c)
  {
  }

  lemma SmallTable(p: Chat)
    requires Shaped(p) && Placed(p)
    ensures p.cnt <= |p.fds| <= 2
  {
  }

  lemma NonePlaced(p: Chat)
    requires Shaped(p) && p.cnt == |p.heard| == 0 && |p.fds| <= 2
    ensures Placed(p)
  {
    assert p.heard == map[];
  }

  lemma AlarmCounts(p: Chat, now: int)
    requires Settled(p) && ClosesSilent(p, now)
    ensures Step(p, Timeout(now)).cnt == p.cnt - |FiredClients(p, now)|
  {
    hide Timed, TimerSpec.Tick, FiredClients, Step, ClosesSilent, RemoveClient;
    AlarmIs(p, now);
    TimeoutSettled(p, now);
    var gone := RemovesSome(p.(timers := TimerSpec.Tick(p.timers, now)), FiredClients(p, now));
  }

  lemma FiredAimed(p: Chat, now: int)
    requires Near(p) && ClosesSilent(p, now)
    ensures forall c :: c in FiredClients(p, now) ==> AimedAt(p, c)
  {
    hide Timed, ClosesSilent, FiredClients, AimedAt;
    FiredAreSilent(p, now);
    if !SilentAimed(p, now) {
      UnaimedFails(p, now);
    }
  }

  lemma StepNear(p: Chat, e: Event)
    requires Near(p) && Enabled(p, e) && (e.Timeout? ==> ClosesSilent(p, e.now)) && Step(p, e).running
    ensures Near(Step(p, e))
  {
    hide Timed, RemoveAll, RemoveClient, TimerSpec.Change, TimerSpec.Insert, TimerSpec.Remove, ClosesSilent;
    StepSettled(p, e);
    match e
    case Join(fd, now) =>
    case Hear(i, now) => PlacedBy(p, Step(p, e));
    case HangUp(i) =>
      var t := p.clients[p.fds[i]].timer;
      ShapedByTimers(p, TimerSpec.Delete(t));
      var q := p.(timers := TimerSpec.Remove(p.timers, t));
      PlacedBy(p, q);
      RemovalPlaced(q, p.fds[i]);
    case Timeout(now) => TimeoutNear(p, now);
  }

  lemma {:induction false} CleanNear(p: Chat, es: seq<Event>)
    requires Near(p) && Clean(p, es)
    ensures Legal(p, es) && (Run(p, es).running ==> Near(Run(p, es)))
    decreases |es|
  {
    hide Timed, Enabled, Step, ClosesSilent;
    if es != [] {
      var q := Step(p, es[0]);
      if q.running {
        StepNear(p, es[0]);
        CleanNear(q, es[1..]);
      } else {
        StoppedEnds(q, es[1..]);
      }
    }
  }

  /**
   After every run whose alarms were right, the next is right exactly when it finds the silent
   clients at their noted indices.
   */
  ghost predicate GuardExact(max: nat) {
    forall es, now :: Clean(Empty(max), es) && Legal(Empty(max), es) && Run(Empty(max), es).running ==>
      (ClosesSilent(Run(Empty(max), es), now) <==> SilentAimed(Run(Empty(max), es), now))
  }

  lemma EmptyNear(max: nat)
    requires max <= 2
    ensures Near(Empty(max))
  {
    EmptyGood(max);
  }

  lemma CleanNext(p: Chat, e: Event, es: seq<Event>)
    requires Shaped(p) && Enabled(p, e) && !e.Timeout? && Clean(Step(p, e), es) && Legal(Step(p, e), es)
    ensures Clean(p, [e] + es) && Legal(p, [e] + es) && Run(p, [e] + es) == Run(Step(p, e), es)
  {
    hide Enabled, Step;
    assert ([e] + es)[0] == e && ([e] + es)[1..] == es;
  }

  // ---- A table of three

  /** Three clients have joined and the second has hung up. */
  function MovedThird(max: nat): (p: Chat)
    requires max >= 3
    ensures Shaped(p) && p.running
  {
    var a, d := Timer(5, 0), Timer(7, 2);
    Chat(Empty(max).fds[0 := 5][1 := 7][2 := 7], 2,
         map[5 := ClientData(0, a), 6 := ClientData(2, d), 7 := ClientData(2, d)],
         [TimerSpec.Entry(d, 9), TimerSpec.Entry(a, 9)], 3, map[5 := 0, 7 := 0], [6], true)
  }

  /** A fourth client has joined at the third entry, the first has hung up, and the moved one has spoken. */
  function SharedEntry(max: nat): (p: Chat)
    requires max >= 3
    ensures Shaped(p) && p.running
  {
    var d, e := Timer(7, 2), Timer(6, 3);
    Chat(Empty(max).fds[0 := 6][1 := 7][2 := 6], 2,
         map[5 := ClientData(2, e), 6 := ClientData(2, e), 7 := ClientData(2, d)],
         [TimerSpec.Entry(e, 9), TimerSpec.Entry(d, 10)], 4, map[6 := 0, 7 := 1], [6, 5], true)
  }

  lemma ToMovedThird(max: nat, es: seq<Event>)
    requires max >= 3 && Clean(MovedThird(max), es) && Legal(MovedThird(max), es)
    ensures var all := [Join(5, 0)] + ([Join(6, 0)] + ([Join(7, 0)] + ([HangUp(1)] + es)));
      Clean(Empty(max), all) && Legal(Empty(max), all) && Run(Empty(max), all) == Run(MovedThird(max), es)
  {
    hide Run, Legal, Clean;
    var p0 := Empty(max);
    var p1 := Step(p0, Join(5, 0));
    var p2 := Step(p1, Join(6, 0));
    var p3 := Step(p2, Join(7, 0));
    assert p1.timers == [TimerSpec.Entry(Timer(5, 0), 9)];
    assert p2.timers == [TimerSpec.Entry(Timer(6, 1), 9), TimerSpec.Entry(Timer(5, 0), 9)];
    assert p3.timers ==
      [TimerSpec.Entry(Timer(7, 2), 9), TimerSpec.Entry(Timer(6, 1), 9), TimerSpec.Entry(Timer(5, 0), 9)];
    ThirdMoves(p3, max);
    CleanNext(p3, HangUp(1), es);
    CleanNext(p2, Join(7, 0), [HangUp(1)] + es);
    CleanNext(p1, Join(6, 0), [Join(7, 0)] + ([HangUp(1)] + es));
    CleanNext(p0, Join(5, 0), [Join(6, 0)] + ([Join(7, 0)] + ([HangUp(1)] + es)));
  }

  lemma ThirdMoves(p: Chat, max: nat)
    requires max >= 3
    requires var a, b, d := Timer(5, 0), Timer(6, 1), Timer(7, 2);
      p == Chat(Empty(max).fds[0 := 5][1 := 6][2 := 7], 3,
                map[5 := ClientData(0, a), 6 := ClientData(1, b), 7 := ClientData(2, d)],
                [TimerSpec.Entry(d, 9), TimerSpec.Entry(b, 9), TimerSpec.Entry(a, 9)], 3,
                map[5 := 0, 6 := 0, 7 := 0], [], true)
    ensures Shaped(p) && Enabled(p, HangUp(1)) && Step(p, HangUp(1)) == MovedThird(max)
  {
    var b := Timer(6, 1);
    assert TimerSpec.Find(p.timers, b) == 1 by { TimerSpec.FindIs(p.timers, b, 1); }
  }

  lemma ToSharedEntry(max: nat)
    requires max >= 3
    ensures var es := [Join(6, 0)] + ([HangUp(0)] + ([Hear(1, 1)] + []));
      Clean(MovedThird(max), es) && Legal(MovedThird(max), es) && Run(MovedThird(max), es) == SharedEntry(max)
  {
    hide Run, Legal, Clean;
    var p0 := MovedThird(max);
    var p1 := Step(p0, Join(6, 0));
    var a, d, e := Timer(5, 0), Timer(7, 2), Timer(6, 3);
    assert p1.timers == [TimerSpec.Entry(e, 9), TimerSpec.Entry(d, 9), TimerSpec.Entry(a, 9)];
    assert TimerSpec.Find(p1.timers, a) == 2 by { TimerSpec.FindIs(p1.timers, a, 2); }
    var p2 := Step(p1, HangUp(0));
    assert p2.timers == [TimerSpec.Entry(e, 9), TimerSpec.Entry(d, 9)];
    assert TimerSpec.Find(p2.timers, d) == 1 by { TimerSpec.FindIs(p2.timers, d, 1); }
    var p3 := Step(p2, Hear(1, 1));
    assert p3.timers == [TimerSpec.Entry(e, 9), TimerSpec.Entry(d, 10)];
    assert p3 == SharedEntry(max);
    EmptyRun(p3);
    CleanNext(p2, Hear(1, 1), []);
    CleanNext(p1, HangUp(0), [Hear(1, 1)] + []);
    CleanNext(p0, Join(6, 0), [HangUp(0)] + ([Hear(1, 1)] + []));
  }

  lemma EmptyRun(p: Chat)
    requires Shaped(p)
    ensures Clean(p, []) && Legal(p, []) && Run(p, []) == p
  {
  }

  /** The newcomer's handler puts the moved client back where its own handler then finds it. */
  lemma SharedAlarm(max: nat)
    requires max >= 3
    ensures var p := SharedEntry(max); var q := Step(p, Timeout(11));
      q.running && |p.closed| <= |q.closed| && q.closed[|p.closed|..] == [6, 7]
  {
    var p := SharedEntry(max);
    assert TimerSpec.Early(p.timers, 11) == 2 by { TimerSpec.EarlyIs(p.timers, 11, 2); }
    assert FiredClients(p, 11) == [6, 7];
    var q := p.(timers := TimerSpec.Tick(p.timers, 11));
    ShapedByTimers(p, TimerSpec.Alarm(11));
    var a := RemoveClient(q, 6);
    assert RemoveAll(q, [6, 7]) == RemoveAll(a, [7]);
    RemovesOne(a, [7]);
    assert Step(p, Timeout(11)).closed[|p.closed|..] == [6, 7];
  }

  lemma RightByChance(max: nat)
    requires max >= 3
    ensures var p := SharedEntry(max); ClosesSilent(p, 11) && !SilentAimed(p, 11)
  {
    hide Step;
    SharedAlarm(max);
    assert Silent(SharedEntry(max), 7, 11) && !AimedAt(SharedEntry(max), 7);
  }

  /** The guard is exact in every run whose alarms were right exactly for tables with room for at most two. */
  lemma GuardExactIff(max: nat)
    ensures GuardExact(max) <==> max <= 2
  {
    hide Run, Legal, Clean, ClosesSilent, SilentAimed;
    if max <= 2 {
      forall es, now | Clean(Empty(max), es) && Legal(Empty(max), es) && Run(Empty(max), es).running
        ensures ClosesSilent(Run(Empty(max), es), now) <==> SilentAimed(Run(Empty(max), es), now)
      {
        EmptyNear(max);
        CleanNear(Empty(max), es);
        SilentAimedSuffices(max, es, now);
        if !SilentAimed(Run(Empty(max), es), now) {
          UnaimedFails(Run(Empty(max), es), now);
        }
      }
    } else {
      ToSharedEntry(max);
      ToMovedThird(max, [Join(6, 0)] + ([HangUp(0)] + ([Hear(1, 1)] + [])));
      RightByChance(max);
    }
  }
}
