/**
 The chat server that drops silent clients: the poll table, the entry index each client keeps for its
 timer's handler, and the timer list, over runs of accepts, messages, hang-ups and alarms.
 */
module TimedChat {
  import opened TimerSpec

  /** A timer object: the client it was made for and a serial number. */
  datatype Timer = Timer(client: int, serial: nat)

  /** The part of ClientData that matters here: the entry index noted at the accept, and the timer. */
  datatype ClientData = ClientData(idx: nat, timer: Timer)

  /**
   `fds` are the client entries of the poll table, of which the first `cnt` are in use; entries past
   them keep what was last written. `heard` tells, for every connected client, when it was accepted
   or last sent something; `closed` are the descriptors closed so far. The server stops `running` at
   a failed assertion or when it removes a client from an empty table.
   */
  datatype Chat = Chat(
    fds: seq<int>, cnt: nat, clients: map<int, ClientData>, timers: seq<Entry<Timer>>, created: nat,
    heard: map<int, int>, closed: seq<int>, running: bool)

  datatype Event = Join(fd: int, now: int) | Hear(i: nat, now: int) | HangUp(i: nat) | Timeout(now: int)

  function Empty(max: nat): Chat { Chat(seq(max, _ => -1), 0, map[], [], 0, map[], [], true) }

  predicate Shaped(p: Chat) {
    && p.cnt <= |p.fds|
    && (forall c :: c in p.clients ==> p.clients[c].idx < |p.fds|)
    && (forall i :: 0 <= i < p.cnt ==> p.fds[i] in p.clients)
    && (forall i :: 0 <= i < |p.timers| ==> p.timers[i].id.client in p.clients)
  }

  /** The entry at the noted index still holds the client. */
  predicate AimedAt(p: Chat, c: int)
    requires Shaped(p)
  {
    c in p.clients && p.fds[p.clients[c].idx] == c
  }

  /** RemoveClientFromPoll: close the entry at the client's noted index and put the last entry in its place. */
  function RemoveClient(p: Chat, c: int): (q: Chat)
    requires Shaped(p) && c in p.clients
    ensures Shaped(q) && p.clients.Keys <= q.clients.Keys && |q.fds| == |p.fds| && q.timers == p.timers
  {
    if p.cnt == 0 then p.(running := false)
    else
      var i := p.clients[c].idx;
      var dst, src := p.fds[i], p.fds[p.cnt - 1];
      p.(fds := p.fds[i := src], cnt := p.cnt - 1, clients := p.clients[dst := p.clients[src]],
         heard := p.heard - {dst}, closed := p.closed + [dst])
  }

  function RemoveAll(p: Chat, cs: seq<int>): (q: Chat)
    requires Shaped(p) && forall i :: 0 <= i < |cs| ==> cs[i] in p.clients
    ensures Shaped(q) && |q.fds| == |p.fds|
    decreases |cs|
  {
    if cs == [] || !p.running then p else RemoveAll(RemoveClient(p, cs[0]), cs[1..])
  }

  /** The clients of the timers an alarm fires, in the order of their handlers. */
  function FiredClients(p: Chat, now: int): (cs: seq<int>)
    ensures |cs| == |Fired(p.timers, now)|
    ensures forall i :: 0 <= i < |cs| ==> cs[i] == Fired(p.timers, now)[i].id.client
  {
    var fired := Fired(p.timers, now);
    seq(|fired|, i requires 0 <= i < |fired| => fired[i].id.client)
  }

  /** accept returns a descriptor that is not open, and poll reports only entries in use whose descriptor is. */
  predicate Enabled(p: Chat, e: Event) {
    && p.running
    && match e
       case Join(fd, _) => fd !in p.heard
       case Hear(i, _) => i < p.cnt <= |p.fds| && p.fds[i] in p.heard
       case HangUp(i) => i < p.cnt <= |p.fds| && p.fds[i] in p.heard
       case Timeout(_) => true
  }

  function Joined(p: Chat, fd: int, now: int): Chat
    requires p.cnt < |p.fds|
  {
    var timer := Timer(fd, p.created);
    p.(fds := p.fds[p.cnt := fd], cnt := p.cnt + 1, clients := p.clients[fd := ClientData(p.cnt, timer)],
       timers := Insert(p.timers, Entry(timer, now + CLIENT_ALIVE_SEC)), created := p.created + 1,
       heard := p.heard[fd := now])
  }

  function Step(p: Chat, e: Event): (q: Chat)
    requires Shaped(p) && Enabled(p, e)
    ensures Shaped(q) && |q.fds| == |p.fds|
  {
    match e
    case Join(fd, now) =>
      if p.cnt == |p.fds| then p.(closed := p.closed + [fd])
      else
        ShapedByJoin(p, fd, now);
        Joined(p, fd, now)
    case Hear(i, now) =>
      var d := p.clients[p.fds[i]];
      ShapedByTimers(p, Reset(d.timer, now + CLIENT_ALIVE_SEC));
      p.(timers := Change(p.timers, d.timer, now + CLIENT_ALIVE_SEC), heard := p.heard[p.fds[i] := now])
    case HangUp(i) =>
      var d := p.clients[p.fds[i]];
      ShapedByTimers(p, Delete(d.timer));
      var q := p.(timers := Remove(p.timers, d.timer));
      if d.idx != i then q.(running := false)
      else RemoveClient(q, p.fds[i])
    case Timeout(now) =>
      ShapedByTimers(p, Alarm(now));
      ShapedFired(p, now);
      RemoveAll(p.(timers := Tick(p.timers, now)), FiredClients(p, now))
  }

  lemma ShapedByTimers(p: Chat, op: Op<Timer>)
    requires Shaped(p) && !op.Add?
    ensures Shaped(p.(timers := Apply(p.timers, op)))
  {
    hide Early, Find;
    if op.Reset? && Find(p.timers, op.id) != |p.timers| {
      var n := Find(p.timers, op.id);
      assert p.timers[n].id == op.id;
      var r := Remove(p.timers, op.id);
      assert forall i :: 0 <= i < |r| ==> r[i] == p.timers[if i < n then i else i + 1];
      InsertMembers(r, Entry(op.id, op.t));
      var s := Change(p.timers, op.id, op.t);
      forall i | 0 <= i < |s|
        ensures s[i].id.client in p.clients
      {
        assert s[i] == Entry(op.id, op.t) || s[i] in r;
      }
    }
  }

  lemma ShapedByJoin(p: Chat, fd: int, now: int)
    requires Shaped(p) && p.cnt < |p.fds|
    ensures Shaped(Joined(p, fd, now))
  {
    hide Early, Insert;
    var q := Joined(p, fd, now);
    var e := Entry(Timer(fd, p.created), now + CLIENT_ALIVE_SEC);
    InsertMembers(p.timers, e);
    forall i | 0 <= i < |q.timers|
      ensures q.timers[i].id.client in q.clients
    {
      assert q.timers[i] == e || q.timers[i] in p.timers;
    }
  }

  lemma ShapedFired(p: Chat, now: int)
    requires Shaped(p)
    ensures forall i :: 0 <= i < |FiredClients(p, now)| ==> FiredClients(p, now)[i] in p.clients
  {
    var n := Early(p.timers, now);
    assert forall i :: 0 <= i < n ==> Fired(p.timers, now)[i] == p.timers[i];
  }

  predicate Legal(p: Chat, es: seq<Event>)
    requires Shaped(p)
    decreases |es|
  {
    es == [] || (Enabled(p, es[0]) && Legal(Step(p, es[0]), es[1..]))
  }

  function Run(p: Chat, es: seq<Event>): (q: Chat)
    requires Shaped(p) && Legal(p, es)
    ensures Shaped(q) && |q.fds| == |p.fds|
    decreases |es|
  {
    if es == [] then p else Run(Step(p, es[0]), es[1..])
  }

  // ---- What the runs are to keep

  /** Every client in use, and nothing else, is connected, and its noted index is its position. */
  ghost predicate Indexed(p: Chat)
    requires Shaped(p)
  {
    && (forall c :: c in p.heard ==>
          c in p.clients && p.clients[c].idx < p.cnt && p.fds[p.clients[c].idx] == c)
    && (forall i :: 0 <= i < p.cnt ==> p.fds[i] in p.heard && p.clients[p.fds[i]].idx == i)
  }

  /** Every connected client has a timer of its own, younger than the next one to be made. */
  ghost predicate Bound(p: Chat) {
    forall c :: c in p.heard ==>
      c in p.clients && p.clients[c].timer.client == c && p.clients[c].timer.serial < p.created
  }

  /** When the timers of the connected clients are to expire. */
  ghost function Deadlines(p: Chat): (m: map<Timer, int>)
    requires Bound(p)
    ensures forall c :: c in p.heard ==>
      p.clients[c].timer in m && m[p.clients[c].timer] == p.heard[c] + CLIENT_ALIVE_SEC
    ensures forall t :: t in m ==> t.client in p.heard && p.clients[t.client].timer == t
  {
    var used := set c | c in p.heard :: p.clients[c].timer;
    map t | t in used :: p.heard[t.client] + CLIENT_ALIVE_SEC
  }

  lemma DeadlinesAre(p: Chat, m: map<Timer, int>)
    requires Bound(p)
    requires forall c :: c in p.heard ==>
      p.clients[c].timer in m && m[p.clients[c].timer] == p.heard[c] + CLIENT_ALIVE_SEC
    requires forall t :: t in m ==> t.client in p.heard && p.clients[t.client].timer == t
    ensures Deadlines(p) == m
  {
    hide Deadlines;
    assert forall t :: t in Deadlines(p) <==> t in m;
  }

  ghost predicate Timed(p: Chat) {
    Bound(p) && Holds(p.timers, Deadlines(p))
  }

  ghost predicate Good(p: Chat) {
    Shaped(p) && p.running && Indexed(p) && Timed(p)
  }

  lemma EmptyGood(max: nat)
    ensures Good(Empty(max))
  {
    DeadlinesAre(Empty(max), map[]);
  }

  // ---- Removal

  /**
   From a table whose indices are right a removal closes the right client, and leaves the indices
   right exactly when that client was the last entry: the client moved into its place keeps its index.
   */
  lemma RemovalKeepsIndexIff(p: Chat, i: nat)
    requires Shaped(p) && Indexed(p) && i < p.cnt
    ensures var q := RemoveClient(p, p.fds[i]);
      && q.closed == p.closed + [p.fds[i]]
      && (Indexed(q) <==> i + 1 == p.cnt)
  {
    var q := RemoveClient(p, p.fds[i]);
    var last := p.fds[p.cnt - 1];
    if i + 1 < p.cnt {
      assert q.fds[i] == last && q.clients[last].idx == p.cnt - 1;
    }
  }

  ghost predicate Different(cs: seq<int>) {
    forall i, j :: 0 <= i < j < |cs| ==> cs[i] != cs[j]
  }

  ghost predicate Connected(p: Chat, cs: seq<int>) {
    forall i :: 0 <= i < |cs| ==> cs[i] in p.heard && cs[i] in p.clients
  }

  ghost predicate Aimed(p: Chat, cs: seq<int>)
    requires Shaped(p)
  {
    forall i :: 0 <= i < |cs| ==> AimedAt(p, cs[i])
  }

  lemma AimedNext(p: Chat, cs: seq<int>)
    requires Shaped(p) && p.running && cs != [] && Different(cs) && Aimed(p, cs) && p.cnt > 0
    ensures var q := RemoveClient(p, cs[0]);
      q.running && q.cnt == p.cnt - 1 && Aimed(q, cs[1..]) && q.closed == p.closed + [cs[0]]
  {
    assert forall i :: 0 <= i < |cs[1..]| ==> cs[1..][i] == cs[i + 1] != cs[0];
  }

  /** Handlers that find their clients close just them, however many run one after the other. */
  lemma {:induction false} RemovesAimed(p: Chat, cs: seq<int>)
    requires Shaped(p) && p.running && |cs| <= p.cnt
    requires Different(cs) && Aimed(p, cs)
    ensures var q := RemoveAll(p, cs); q.running && q.closed == p.closed + cs
    decreases |cs|
  {
    hide Shaped, RemoveClient;
    if cs != [] {
      var q, rest := RemoveClient(p, cs[0]), cs[1..];
      AimedNext(p, cs);
      assert Different(rest);
      RemovesAimed(q, rest);
      assert p.closed + cs == q.closed + rest;
    }
  }

  lemma {:induction false} DifferentCount(cs: seq<int>, all: set<int>)
    requires Different(cs) && forall i :: 0 <= i < |cs| ==> cs[i] in all
    ensures |all - (set c | c in cs)| == |all| - |cs|
    decreases |cs|
  {
    if cs != [] {
      var rest := cs[1..];
      DifferentCount(rest, all - {cs[0]});
      assert all - {cs[0]} - (set c | c in rest) == all - set c | c in cs;
    } else {
      assert all - (set c | c in cs) == all;
    }
  }

  function WithoutLast(p: Chat, cs: seq<int>): (q: Chat)
    requires |cs| <= p.cnt
    ensures q.fds == p.fds && q.cnt == p.cnt - |cs| && q.clients == p.clients && q.running == p.running
    ensures forall c :: c in q.heard <==> c in p.heard && c !in cs
  {
    p.(cnt := p.cnt - |cs|, heard := p.heard - (set c | c in cs), closed := p.closed + cs)
  }

  lemma WithoutNone(p: Chat)
    ensures WithoutLast(p, []) == p
  {
    assert p.heard - (set c | c in []) == p.heard;
  }

  lemma WithoutLastTwice(p: Chat, cs: seq<int>)
    requires cs != [] && |cs| <= p.cnt
    ensures WithoutLast(WithoutLast(p, [cs[0]]), cs[1..]) == WithoutLast(p, cs)
  {
    assert p.closed + [cs[0]] + cs[1..] == p.closed + cs;
    assert p.heard - (set c | c in [cs[0]]) - (set c | c in cs[1..]) == p.heard - set c | c in cs;
  }

  lemma LastRemoved(p: Chat)
    requires Shaped(p) && Indexed(p) && 0 < p.cnt
    ensures var c := p.fds[p.cnt - 1]; RemoveClient(p, c) == WithoutLast(p, [c])
    ensures Indexed(WithoutLast(p, [p.fds[p.cnt - 1]]))
  {
    RemovalKeepsIndexIff(p, p.cnt - 1);
  }

  /** Removing entries from the last one down only shortens the table. */
  lemma {:induction false} RemovesLast(p: Chat, cs: seq<int>)
    requires Shaped(p) && p.running && Indexed(p) && |cs| <= p.cnt && Connected(p, cs) && Different(cs)
    requires forall j :: 0 <= j < |cs| ==> cs[j] == p.fds[p.cnt - 1 - j]
    ensures RemoveAll(p, cs) == WithoutLast(p, cs) && Indexed(WithoutLast(p, cs))
    decreases |cs|
  {
    hide Shaped, Indexed, RemoveClient, WithoutLast;
    if cs != [] {
      var q, rest := RemoveClient(p, cs[0]), cs[1..];
      LastRemoved(p);
      assert forall j :: 0 <= j < |rest| ==> rest[j] == cs[j + 1] != cs[0];
      RemovesLast(q, rest);
      WithoutLastTwice(p, cs);
    } else {
      WithoutNone(p);
    }
  }

  lemma {:induction false} IndexedCount(p: Chat)
    requires Shaped(p) && Indexed(p)
    ensures |p.heard| == p.cnt
    decreases p.cnt
  {
    hide RemoveClient;
    if p.cnt > 0 {
      LastRemoved(p);
      var c := p.fds[p.cnt - 1];
      var q := WithoutLast(p, [c]);
      IndexedCount(q);
      assert q.heard.Keys == p.heard.Keys - {c};
    } else {
      assert forall c :: c !in p.heard;
      assert p.heard == map[];
    }
  }

  // ---- Alarms

  /** The clients an alarm at `now` is to disconnect. */
  predicate Silent(p: Chat, c: int, now: int) { c in p.heard && p.heard[c] + CLIENT_ALIVE_SEC < now }

  /** An alarm at `now` closes exactly the silent clients, each once. */
  ghost predicate ClosesSilent(p: Chat, now: int)
    requires Shaped(p) && p.running
  {
    var q := Step(p, Timeout(now));
    && q.running && |p.closed| <= |q.closed|
    && Different(q.closed[|p.closed|..])
    && (forall c :: c in q.closed[|p.closed|..] <==> Silent(p, c, now))
  }

  /** With timers that match, the handlers of an alarm are those of the silent clients. */
  lemma FiredAreSilent(p: Chat, now: int)
    requires Shaped(p) && Timed(p)
    ensures var cs := FiredClients(p, now);
      Different(cs) && Connected(p, cs) && (forall c :: c in cs <==> Silent(p, c, now))
  {
    hide Early, Holds, Deadlines, Fired;
    var cs, fired, m := FiredClients(p, now), Fired(p.timers, now), Deadlines(p);
    FiredExact(p.timers, m, now);
    forall i | 0 <= i < |cs|
      ensures cs[i] in p.heard && p.clients[cs[i]].timer == fired[i].id && Silent(p, cs[i], now)
    {
      assert fired[i] in fired;
      assert fired[i].id in m;
    }
    forall c | Silent(p, c, now)
      ensures c in cs
    {
      var t := p.clients[c].timer;
      assert t in m && m[t] < now;
      var e :| e in fired && e.id == t;
      var i :| 0 <= i < |fired| && fired[i] == e;
      assert cs[i] == c;
    }
  }

  ghost predicate SilentAimed(p: Chat, now: int)
    requires Shaped(p)
  {
    forall c :: Silent(p, c, now) ==> AimedAt(p, c)
  }

  /** The timers match, and the table has as many entries in use as clients are connected. */
  ghost predicate Settled(p: Chat) {
    Shaped(p) && p.running && |p.heard| == p.cnt && Timed(p)
  }

  lemma FiredFit(p: Chat, now: int)
    requires Settled(p)
    ensures |FiredClients(p, now)| <= p.cnt
  {
    hide Timed, FiredClients;
    FiredAreSilent(p, now);
    DifferentCount(FiredClients(p, now), p.heard.Keys);
  }

  /** While the noted indices of the silent clients still lead to them an alarm closes exactly those clients. */
  lemma AlarmClosesSilent(p: Chat, now: int)
    requires Settled(p) && SilentAimed(p, now)
    ensures ClosesSilent(p, now)
    ensures Step(p, Timeout(now)).closed == p.closed + FiredClients(p, now)
  {
    hide Timed, Tick, FiredClients, RemoveAll;
    var cs := FiredClients(p, now);
    FiredAreSilent(p, now);
    FiredFit(p, now);
    ShapedByTimers(p, Alarm(now));
    var q := p.(timers := Tick(p.timers, now));
    forall i | 0 <= i < |cs|
      ensures AimedAt(q, cs[i])
    {
      assert cs[i] in cs && AimedAt(p, cs[i]);
    }
    RemovesAimed(q, cs);
    assert Step(p, Timeout(now)) == RemoveAll(q, cs);
    assert (p.closed + cs)[|p.closed|..] == cs;
  }

  // ---- Runs that remove from the end

  /** The clients the event removes are the last entries, the very last one first. */
  predicate TakesLast(p: Chat, e: Event) {
    match e
    case HangUp(i) => i + 1 == p.cnt
    case Timeout(now) =>
      var cs := FiredClients(p, now);
      |cs| <= p.cnt <= |p.fds| && forall j :: 0 <= j < |cs| ==> cs[j] == p.fds[p.cnt - 1 - j]
    case _ => true
  }

  lemma JoinIndexed(p: Chat, fd: int, now: int)
    requires Shaped(p) && Indexed(p) && fd !in p.heard && p.cnt < |p.fds|
    ensures Shaped(Joined(p, fd, now)) && Indexed(Joined(p, fd, now))
  {
    ShapedByJoin(p, fd, now);
  }

  lemma JoinTimed(p: Chat, fd: int, now: int)
    requires Timed(p) && fd !in p.heard && p.cnt < |p.fds|
    ensures Timed(Joined(p, fd, now))
  {
    hide Holds, Insert, Deadlines;
    var q, t := Joined(p, fd, now), Timer(fd, p.created);
    assert t !in Deadlines(p);
    StepHolds(p.timers, Deadlines(p), Add(t, now + CLIENT_ALIVE_SEC));
    DeadlinesAre(q, Deadlines(p)[t := now + CLIENT_ALIVE_SEC]);
  }

  /** What Timed depends on. */
  lemma TimedBy(p: Chat, q: Chat)
    requires Timed(p) && q.timers == p.timers && q.heard == p.heard && q.created == p.created
    requires forall c :: c in p.heard ==> c in q.clients && q.clients[c] == p.clients[c]
    ensures Timed(q)
  {
    hide Holds, Deadlines;
    DeadlinesAre(q, Deadlines(p));
  }

  lemma HearTimed(p: Chat, c: int, now: int)
    requires Timed(p) && c in p.heard
    ensures var t := p.clients[c].timer;
      Timed(p.(timers := Change(p.timers, t, now + CLIENT_ALIVE_SEC), heard := p.heard[c := now]))
  {
    hide Holds, Change, Deadlines;
    var t := p.clients[c].timer;
    var q := p.(timers := Change(p.timers, t, now + CLIENT_ALIVE_SEC), heard := p.heard[c := now]);
    StepHolds(p.timers, Deadlines(p), Reset(t, now + CLIENT_ALIVE_SEC));
    DeadlinesAre(q, Deadlines(p)[t := now + CLIENT_ALIVE_SEC]);
  }

  lemma HangUpTimed(p: Chat, c: int)
    requires Timed(p) && c in p.heard
    ensures Timed(p.(timers := Remove(p.timers, p.clients[c].timer), heard := p.heard - {c}))
  {
    hide Holds, Remove, Deadlines;
    var t := p.clients[c].timer;
    var q := p.(timers := Remove(p.timers, t), heard := p.heard - {c});
    StepHolds(p.timers, Deadlines(p), Delete(t));
    DeadlinesAre(q, Deadlines(p) - {t});
  }

  lemma TimeoutTimed(p: Chat, now: int, gone: set<int>)
    requires Timed(p) && forall c :: c in gone <==> Silent(p, c, now)
    ensures Timed(p.(timers := Tick(p.timers, now), heard := p.heard - gone))
  {
    hide Holds, Tick, Deadlines;
    var m, q := Deadlines(p), p.(timers := Tick(p.timers, now), heard := p.heard - gone);
    StepHolds(p.timers, m, Alarm(now));
    DeadlinesAre(q, map t | t in m && now <= m[t] :: m[t]);
  }

  lemma HangUpGood(p: Chat, i: nat)
    requires Good(p) && Enabled(p, HangUp(i)) && i + 1 == p.cnt
    ensures Good(Step(p, HangUp(i)))
  {
    hide Timed, Remove, Indexed;
    var c := p.fds[i];
    var t := p.clients[c].timer;
    IndexAt(p, i);
    ShapedByTimers(p, Delete(t));
    var q := p.(timers := Remove(p.timers, t));
    IndexedBy(p, q);
    LastRemoved(q);
    HangUpTimed(p, c);
    TimedBy(p.(timers := Remove(p.timers, t), heard := p.heard - {c}), WithoutLast(q, [c]));
  }

  lemma IndexAt(p: Chat, i: nat)
    requires Shaped(p) && Indexed(p) && i < p.cnt
    ensures p.clients[p.fds[i]].idx == i
  {
  }

  lemma IndexedBy(p: Chat, q: Chat)
    requires Shaped(p) && Shaped(q) && Indexed(p)
    requires q.fds == p.fds && q.cnt == p.cnt && q.clients == p.clients && q.heard.Keys == p.heard.Keys
    ensures Indexed(q)
  {
  }

  lemma TimeoutGood(p: Chat, now: int)
    requires Good(p) && TakesLast(p, Timeout(now))
    ensures Good(Step(p, Timeout(now)))
  {
    hide Timed, Tick, Indexed, FiredClients, RemoveAll;
    var cs := FiredClients(p, now);
    FiredAreSilent(p, now);
    ShapedByTimers(p, Alarm(now));
    var q := p.(timers := Tick(p.timers, now));
    IndexedBy(p, q);
    RemovesLast(q, cs);
    var gone := set c | c in cs;
    TimeoutTimed(p, now, gone);
    TimedBy(p.(timers := Tick(p.timers, now), heard := p.heard - gone), WithoutLast(q, cs));
  }

  lemma StepGood(p: Chat, e: Event)
    requires Good(p) && Enabled(p, e) && TakesLast(p, e)
    ensures Good(Step(p, e))
  {
    hide Timed, Indexed, RemoveClient, RemoveAll, Change, Insert;
    match e
    case Join(fd, now) =>
      if p.cnt < |p.fds| {
        JoinIndexed(p, fd, now);
        JoinTimed(p, fd, now);
      } else {
        var q := Step(p, e);
        IndexedBy(p, q);
        TimedBy(p, q);
      }
    case Hear(i, now) =>
      IndexedBy(p, Step(p, e));
      HearTimed(p, p.fds[i], now);
    case HangUp(i) => HangUpGood(p, i);
    case Timeout(now) => TimeoutGood(p, now);
  }

  predicate Orderly(p: Chat, es: seq<Event>)
    requires Shaped(p)
    decreases |es|
  {
    es == [] || (Enabled(p, es[0]) && TakesLast(p, es[0]) && Orderly(Step(p, es[0]), es[1..]))
  }

  lemma {:induction false} OrderlyGood(p: Chat, es: seq<Event>)
    requires Good(p) && Orderly(p, es)
    ensures Legal(p, es) && Good(Run(p, es))
    decreases |es|
  {
    hide Indexed, Timed, Enabled, TakesLast, Step;
    if es != [] {
      StepGood(p, es[0]);
      OrderlyGood(Step(p, es[0]), es[1..]);
    }
  }

  /**
   After any run whose hang-ups and alarms removed clients from the end of the table, an alarm closes
   exactly the silent clients, however many and wherever they are.
   */
  lemma OrderlyAlarm(max: nat, es: seq<Event>, now: int)
    requires Orderly(Empty(max), es)
    ensures Legal(Empty(max), es) && Run(Empty(max), es).running && ClosesSilent(Run(Empty(max), es), now)
  {
    hide Run, Legal, Orderly, ClosesSilent;
    EmptyGood(max);
    OrderlyGood(Empty(max), es);
    IndexedCount(Run(Empty(max), es));
    AlarmClosesSilent(Run(Empty(max), es), now);
  }

  // ---- All runs

  /** With room for one client every removal is of the last entry. */
  lemma OneIsLast(p: Chat, e: Event)
    requires Good(p) && Enabled(p, e) && |p.fds| <= 1
    ensures TakesLast(p, e)
  {
    hide Timed, FiredClients;
    if e.Timeout? {
      var cs := FiredClients(p, e.now);
      FiredAreSilent(p, e.now);
      assert forall i :: 0 <= i < |cs| ==> cs[i] == p.fds[0];
      assert cs != [] ==> cs[|cs| - 1] == cs[0];
    }
  }

  lemma {:induction false} OneIsOrderly(p: Chat, es: seq<Event>)
    requires Good(p) && Legal(p, es) && |p.fds| <= 1
    ensures Orderly(p, es)
    decreases |es|
  {
    hide Indexed, Timed, Enabled, TakesLast, Step;
    if es != [] {
      OneIsLast(p, es[0]);
      StepGood(p, es[0]);
      OneIsOrderly(Step(p, es[0]), es[1..]);
    }
  }

  lemma LegalNext(p: Chat, e: Event, es: seq<Event>)
    requires Shaped(p) && Enabled(p, e) && Legal(Step(p, e), es)
    ensures Legal(p, [e] + es) && Run(p, [e] + es) == Run(Step(p, e), es)
  {
    hide Enabled, Step;
    assert ([e] + es)[0] == e && ([e] + es)[1..] == es;
  }

  /** The states in which the first client has hung up and the second has been moved into its place. */
  function Moved(max: nat): (p: Chat)
    requires max >= 2
    ensures Shaped(p) && p.running && p.cnt == 1
  {
    var b := Timer(6, 1);
    Chat(Empty(max).fds[0 := 6][1 := 6], 1, map[5 := ClientData(1, b), 6 := ClientData(1, b)],
         [Entry(b, CLIENT_ALIVE_SEC)], 2, map[6 := 0], [5], true)
  }

  lemma SecondMoves(p: Chat, max: nat)
    requires max >= 2
    requires var a, b := Timer(5, 0), Timer(6, 1);
      p == Chat(Empty(max).fds[0 := 5][1 := 6], 2, map[5 := ClientData(0, a), 6 := ClientData(1, b)],
                [Entry(b, CLIENT_ALIVE_SEC), Entry(a, CLIENT_ALIVE_SEC)], 2, map[5 := 0, 6 := 0], [], true)
    ensures Shaped(p) && Enabled(p, HangUp(0)) && Step(p, HangUp(0)) == Moved(max)
  {
    FindIs(p.timers, Timer(5, 0), 1);
  }

  lemma FirstHangsUp(max: nat, es: seq<Event>)
    requires max >= 2 && Legal(Moved(max), es)
    ensures var all := [Join(5, 0)] + ([Join(6, 0)] + ([HangUp(0)] + es));
      Legal(Empty(max), all) && Run(Empty(max), all) == Run(Moved(max), es)
  {
    var p0 := Empty(max);
    var p1 := Step(p0, Join(5, 0));
    var p2 := Step(p1, Join(6, 0));
    assert p1.timers == [Entry(Timer(5, 0), 9)];
    assert p2.timers == [Entry(Timer(6, 1), 9), Entry(Timer(5, 0), 9)];
    SecondMoves(p2, max);
    LegalNext(p2, HangUp(0), es);
    LegalNext(p1, Join(6, 0), [HangUp(0)] + es);
    LegalNext(p0, Join(5, 0), [Join(6, 0)] + ([HangUp(0)] + es));
  }

  /** Whatever happens before it, an alarm closes exactly the silent clients. */
  ghost predicate AlwaysClosesSilent(max: nat) {
    forall es, now :: Legal(Empty(max), es) && Run(Empty(max), es).running ==> ClosesSilent(Run(Empty(max), es), now)
  }

  ghost predicate NeverAborts(max: nat) {
    forall es :: Legal(Empty(max), es) ==> Run(Empty(max), es).running
  }

  /**
   With room for two, a third client accepted where the moved one used to be is closed in its stead:
   it has just been heard of, and the silent one stays.
   */
  lemma StaleIndex(max: nat)
    requires max >= 2
    ensures var es := [Join(5, CLIENT_ALIVE_SEC + 1)]; var q := Run(Moved(max), es);
      && Legal(Moved(max), es) && q.running
      && Silent(q, 6, CLIENT_ALIVE_SEC + 1) && !Silent(q, 5, CLIENT_ALIVE_SEC + 1)
      && Step(q, Timeout(CLIENT_ALIVE_SEC + 1)).closed == q.closed + [5]
  {
    var p, now := Moved(max), CLIENT_ALIVE_SEC + 1;
    LegalNext(p, Join(5, now), []);
    var q := Step(p, Join(5, now));
    assert [Join(5, now)] + [] == [Join(5, now)];
    assert q.timers == [Entry(Timer(6, 1), 9), Entry(Timer(5, 2), 19)];
    assert Early(q.timers, now) == 1;
    assert FiredClients(q, now) == [6];
    var r := q.(timers := Tick(q.timers, now));
    ShapedByTimers(q, Alarm(now));
    assert RemoveAll(r, [6]) == RemoveClient(r, 6);
  }

  /** The alarm does what it is for in every run exactly when the table has room for no more than one client. */
  lemma AlarmDisconnectsIff(max: nat)
    ensures AlwaysClosesSilent(max) <==> max <= 1
  {
    hide Run, Legal, Orderly, Step;
    if max <= 1 {
      forall es, now | Legal(Empty(max), es) && Run(Empty(max), es).running
        ensures ClosesSilent(Run(Empty(max), es), now)
      {
        EmptyGood(max);
        OneIsOrderly(Empty(max), es);
        OrderlyAlarm(max, es, now);
      }
    } else {
      var es, now := [Join(5, CLIENT_ALIVE_SEC + 1)], CLIENT_ALIVE_SEC + 1;
      StaleIndex(max);
      FirstHangsUp(max, es);
      var q := Run(Moved(max), es);
      assert Step(q, Timeout(now)).closed[|q.closed|..] == [5];
      assert !ClosesSilent(q, now);
    }
  }

  /** Two clients join, the first hangs up, then the second: the assertion on its index fails. */
  lemma SecondHangUpAborts(max: nat)
    requires max >= 2
    ensures Legal(Moved(max), [HangUp(0)]) && !Run(Moved(max), [HangUp(0)]).running
  {
    LegalNext(Moved(max), HangUp(0), []);
    assert [HangUp(0)] + [] == [HangUp(0)];
  }

  /** The server survives every run exactly when the table has room for no more than one client. */
  lemma NeverAbortsIff(max: nat)
    ensures NeverAborts(max) <==> max <= 1
  {
    hide Run, Legal, Orderly, Step;
    if max <= 1 {
      forall es | Legal(Empty(max), es)
        ensures Run(Empty(max), es).running
      {
        EmptyGood(max);
        OneIsOrderly(Empty(max), es);
        OrderlyGood(Empty(max), es);
      }
    } else {
      SecondHangUpAborts(max);
      FirstHangsUp(max, [HangUp(0)]);
    }
  }
}
