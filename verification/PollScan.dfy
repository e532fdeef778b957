/** The poll table of the group chat: the scan that removes by swapping while it iterates, and what it broadcasts. */
module PollScan {
  import opened RequestLine

  const BUF_SIZE := 32

  /** A pollfd with the flags poll returned. */
  datatype PollFd = PollFd(fd: nat, out: bool, err: bool, hup: bool, input: bool)

  predicate Closes(p: PollFd) { !p.out && (p.err || p.hup) }

  predicate Reads(p: PollFd) { !p.out && !p.err && !p.hup && p.input }

  datatype Delivery = Delivery(from: nat, to: nat, text: bytes)

  /**
   What one pass does: the table it leaves, and the entries visited, descriptors closed and
   messages sent, in order.
   */
  datatype Pass = Pass(table: seq<PollFd>, visited: seq<PollFd>, closed: seq<nat>, sent: seq<Delivery>)

  /** The texts received in a pass, by descriptor; no entry when recv returned 0 or failed. */
  type Texts = map<nat, bytes>

  /** recv_buf after memset and recv. */
  function Buffer(got: Texts, fd: nat): bytes {
    var text := if fd in got then got[fd] else [];
    var cut := if |text| < BUF_SIZE then text else text[..BUF_SIZE - 1];
    cut + seq(BUF_SIZE - |cut|, _ => NUL)
  }

  predicate Speaks(p: PollFd, got: Texts) { Reads(p) && p.fd in got && got[p.fd] != [] }

  function SwapRemove(t: seq<PollFd>, i: nat): (r: seq<PollFd>)
    requires i < |t|
    ensures |r| == |t| - 1
  {
    t[i := t[|t| - 1]][..|t| - 1]
  }

  function Broadcast(t: seq<PollFd>, from: nat, text: bytes): seq<Delivery> {
    if t == [] then []
    else Broadcast(t[..|t| - 1], from, text) +
         if t[|t| - 1].fd == from then [] else [Delivery(from, t[|t| - 1].fd, text)]
  }

  /** The scan from position `i` on. */
  function Scan(t: seq<PollFd>, i: nat, got: Texts): Pass
    requires i <= |t|
    decreases |t| - i
  {
    if i == |t| then Pass(t, [], [], [])
    else if Closes(t[i]) then
      var rest := Scan(SwapRemove(t, i), i, got);
      rest.(visited := [t[i]] + rest.visited, closed := [t[i].fd] + rest.closed)
    else
      var rest := Scan(t, i + 1, got);
      var sent := if Speaks(t[i], got) then Broadcast(t, t[i].fd, Buffer(got, t[i].fd)) else [];
      rest.(visited := [t[i]] + rest.visited, sent := sent + rest.sent)
  }

  function Kept(s: seq<PollFd>): seq<PollFd> {
    if s == [] then [] else (if Closes(s[0]) then [] else [s[0]]) + Kept(s[1..])
  }

  function ClosedOf(s: seq<PollFd>): seq<nat> {
    if s == [] then [] else (if Closes(s[0]) then [s[0].fd] else []) + ClosedOf(s[1..])
  }

  ghost predicate DistinctFds(t: seq<PollFd>) {
    forall i, j :: 0 <= i < j < |t| ==> t[i].fd != t[j].fd
  }

  lemma SwapRemoveMultiset(t: seq<PollFd>, i: nat)
    requires i < |t|
    ensures multiset(t[i..]) == multiset{t[i]} + multiset(SwapRemove(t, i)[i..])
    ensures SwapRemove(t, i)[..i] == t[..i]
  {
    var n := |t| - 1;
    var r := SwapRemove(t, i);
    if i == n {
      assert r[i..] == [] && t[i..] == [t[i]];
    } else {
      assert r[i..] == [t[n]] + t[i + 1..n];
      assert t[i..] == [t[i]] + t[i + 1..n] + [t[n]];
    }
  }

  /**
   The pass visits every entry from `i` on once, closes exactly the ones to close, and leaves
   exactly the others, in visit order.
   */
  ghost predicate Exact(p: Pass, t: seq<PollFd>, i: nat)
    requires i <= |t|
  {
    && |p.visited| == |t| - i
    && multiset(p.visited) == multiset(t[i..])
    && p.closed == ClosedOf(p.visited)
    && p.table == t[..i] + Kept(p.visited)
  }

  /** Poll scan exactness, in spite of the swaps and the index that steps back. */
  lemma {:induction false} ScanIsExact(t: seq<PollFd>, i: nat, got: Texts)
    requires i <= |t|
    ensures Exact(Scan(t, i, got), t, i)
    decreases |t| - i
  {
    hide Exact, SwapRemove;
    if i == |t| {
      NothingVisited(t);
    } else if Closes(t[i]) {
      ScanIsExact(SwapRemove(t, i), i, got);
      ClosingStep(t, i, Scan(SwapRemove(t, i), i, got));
    } else {
      ScanIsExact(t, i + 1, got);
      KeepingStep(t, i, Scan(t, i + 1, got), Scan(t, i, got).sent);
    }
  }

  lemma NothingVisited(t: seq<PollFd>)
    ensures Exact(Pass(t, [], [], []), t, |t|)
  {
    assert t[..|t|] == t;
  }

  lemma ClosingStep(t: seq<PollFd>, i: nat, rest: Pass)
    requires i < |t| && Closes(t[i]) && Exact(rest, SwapRemove(t, i), i)
    ensures Exact(rest.(visited := [t[i]] + rest.visited, closed := [t[i].fd] + rest.closed), t, i)
  {
    hide SwapRemove, Kept, ClosedOf;
    SwapRemoveMultiset(t, i);
    VisitNext(t[i], rest.visited);
  }

  lemma KeepingStep(t: seq<PollFd>, i: nat, rest: Pass, sent: seq<Delivery>)
    requires i < |t| && !Closes(t[i]) && Exact(rest, t, i + 1)
    ensures Exact(rest.(visited := [t[i]] + rest.visited, sent := sent), t, i)
  {
    hide Kept, ClosedOf;
    VisitNext(t[i], rest.visited);
    assert t[i..] == [t[i]] + t[i + 1..];
    assert t[..i + 1] == t[..i] + [t[i]];
  }

  lemma VisitNext(here: PollFd, rest: seq<PollFd>)
    ensures multiset([here] + rest) == multiset{here} + multiset(rest)
    ensures ClosedOf([here] + rest) == (if Closes(here) then [here.fd] else []) + ClosedOf(rest)
    ensures Kept([here] + rest) == (if Closes(here) then [] else [here]) + Kept(rest)
  {
    assert ([here] + rest)[1..] == rest;
  }

  /** What a pass has done so far when it has just visited entry `i` of `t`. */
  function Visit(done: Pass, t: seq<PollFd>, i: nat, got: Texts): Pass
    requires i < |t|
  {
    done.(
      visited := done.visited + [t[i]],
      closed := if Closes(t[i]) then done.closed + [t[i].fd] else done.closed,
      sent := if Speaks(t[i], got) then done.sent + Broadcast(t, t[i].fd, Buffer(got, t[i].fd)) else done.sent)
  }

  /** The whole pass `goal` is what has been done followed by what remains to be scanned. */
  ghost predicate Remains(goal: Pass, done: Pass, t: seq<PollFd>, i: nat, got: Texts)
    requires i <= |t|
  {
    var rest := Scan(t, i, got);
    && goal.table == rest.table
    && goal.visited == done.visited + rest.visited
    && goal.closed == done.closed + rest.closed
    && goal.sent == done.sent + rest.sent
  }

  lemma VisitEffects(done: Pass, t: seq<PollFd>, i: nat, got: Texts)
    requires i < |t|
    ensures var r := Visit(done, t, i, got);
      && r.closed == (if Closes(t[i]) then done.closed + [t[i].fd] else done.closed)
      && r.sent == (if Speaks(t[i], got) then done.sent + Broadcast(t, t[i].fd, Buffer(got, t[i].fd)) else done.sent)
  {
  }

  const NOTHING := Pass([], [], [], [])

  lemma ScanStarts(t: seq<PollFd>, got: Texts)
    ensures Remains(Scan(t, 0, got), NOTHING, t, 0, got)
  {
  }

  lemma Regroup<T>(a: seq<T>, b: seq<T>, c: seq<T>)
    ensures a + (b + c) == a + b + c
  {
  }

  lemma ScanCloses(goal: Pass, done: Pass, t: seq<PollFd>, i: nat, got: Texts)
    requires i < |t| && Closes(t[i]) && Remains(goal, done, t, i, got)
    ensures Remains(goal, Visit(done, t, i, got), SwapRemove(t, i), i, got)
  {
    hide SwapRemove, Broadcast, Buffer;
    var rest := Scan(SwapRemove(t, i), i, got);
    Regroup(done.visited, [t[i]], rest.visited);
    Regroup(done.closed, [t[i].fd], rest.closed);
  }

  lemma ScanKeeps(goal: Pass, done: Pass, t: seq<PollFd>, i: nat, got: Texts)
    requires i < |t| && !Closes(t[i]) && Remains(goal, done, t, i, got)
    ensures Remains(goal, Visit(done, t, i, got), t, i + 1, got)
  {
    hide SwapRemove, Broadcast, Buffer, Speaks;
    var rest := Scan(t, i + 1, got);
    Regroup(done.visited, [t[i]], rest.visited);
    Regroup(done.sent, Broadcast(t, t[i].fd, Buffer(got, t[i].fd)), rest.sent);
    assert done.sent + ([] + rest.sent) == done.sent + rest.sent;
  }

  lemma ScanEnds(goal: Pass, done: Pass, t: seq<PollFd>, got: Texts)
    requires Remains(goal, done, t, |t|, got)
    ensures goal == done.(table := t)
  {
  }

  // ---- Deliveries

  function FdSet(t: seq<PollFd>): set<nat> { set i | 0 <= i < |t| :: t[i].fd }

  lemma {:induction false} BroadcastExact(t: seq<PollFd>, from: nat, text: bytes)
    requires DistinctFds(t)
    ensures forall d :: d in Broadcast(t, from, text) <==>
      d.from == from && d.text == text && d.to != from && d.to in FdSet(t)
    ensures forall i, j :: 0 <= i < j < |Broadcast(t, from, text)| ==>
      Broadcast(t, from, text)[i] != Broadcast(t, from, text)[j]
  {
    if t != [] {
      var n := |t| - 1;
      BroadcastExact(t[..n], from, text);
      assert FdSet(t) == FdSet(t[..n]) + {t[n].fd};
      assert t[n].fd !in FdSet(t[..n]);
      var b := Broadcast(t[..n], from, text);
      assert forall i :: 0 <= i < |b| ==> b[i] in b;
    }
  }

  lemma SwapRemoveFds(t: seq<PollFd>, i: nat)
    requires i < |t| && DistinctFds(t)
    ensures DistinctFds(SwapRemove(t, i)) && FdSet(SwapRemove(t, i)) == FdSet(t) - {t[i].fd}
  {
    var r, n := SwapRemove(t, i), |t| - 1;
    assert forall k :: 0 <= k < n ==> r[k] == if k == i then t[n] else t[k];
    forall fd | fd in FdSet(t) && fd != t[i].fd
      ensures fd in FdSet(r)
    {
      var k :| 0 <= k < |t| && t[k].fd == fd;
      assert r[if k == n then i else k].fd == fd;
    }
  }

  /**
   Message `d` is due in a pass: its sender spoke when visited, and its receiver was in the table
   and had not been closed yet.
   */
  ghost predicate Due(d: Delivery, fds: set<nat>, visited: seq<PollFd>, got: Texts, p: nat) {
    && p < |visited| && Speaks(visited[p], got)
    && d.from == visited[p].fd && d.text == Buffer(got, d.from)
    && d.to != d.from && d.to in fds && d.to !in ClosedOf(visited[..p])
  }

  ghost predicate ExactlyDue(sent: seq<Delivery>, fds: set<nat>, visited: seq<PollFd>, got: Texts) {
    forall d :: d in sent <==> exists p: nat :: Due(d, fds, visited, got, p)
  }

  lemma DueNext(d: Delivery, fds: set<nat>, here: PollFd, rest: seq<PollFd>, got: Texts, p: nat)
    ensures var fds' := if Closes(here) then fds - {here.fd} else fds;
      Due(d, fds, [here] + rest, got, p + 1) <==> Due(d, fds', rest, got, p)
  {
    if p < |rest| {
      var v := [here] + rest;
      assert v[..p + 1] == [here] + rest[..p];
      VisitNext(here, rest[..p]);
      assert v[p + 1] == rest[p];
    }
  }

  /** Every message of the pass is sent to exactly the clients that are due, and to nobody else. */
  lemma {:induction false} SentIsDue(t: seq<PollFd>, i: nat, got: Texts)
    requires i <= |t| && DistinctFds(t)
    ensures ExactlyDue(Scan(t, i, got).sent, FdSet(t), Scan(t, i, got).visited, got)
    decreases |t| - i
  {
    hide SwapRemove, FdSet, Speaks, DistinctFds, ExactlyDue;
    if i < |t| {
      var here, fds := t[i], FdSet(t);
      BroadcastExact(t, here.fd, Buffer(got, here.fd));
      if Closes(here) {
        var rest := Scan(SwapRemove(t, i), i, got);
        SwapRemoveFds(t, i);
        SentIsDue(SwapRemove(t, i), i, got);
        ClosingIsSilent(here, got);
        SentStep(here, fds, rest, [], got);
        assert [] + rest.sent == rest.sent;
      } else {
        var rest := Scan(t, i + 1, got);
        SentIsDue(t, i + 1, got);
        var sent := if Speaks(here, got) then Broadcast(t, here.fd, Buffer(got, here.fd)) else [];
        SentStep(here, fds, rest, sent, got);
      }
    } else {
      NoneDue(FdSet(t), got);
    }
  }

  lemma NoneDue(fds: set<nat>, got: Texts)
    ensures ExactlyDue([], fds, [], got)
  {
  }

  lemma ClosingIsSilent(here: PollFd, got: Texts)
    requires Closes(here)
    ensures !Speaks(here, got)
  {
  }

  lemma SentStep(here: PollFd, fds: set<nat>, rest: Pass, sent: seq<Delivery>, got: Texts)
    requires forall d :: d in sent <==>
      Speaks(here, got) && d.from == here.fd && d.text == Buffer(got, here.fd) && d.to != d.from && d.to in fds
    requires ExactlyDue(rest.sent, if Closes(here) then fds - {here.fd} else fds, rest.visited, got)
    ensures ExactlyDue(sent + rest.sent, fds, [here] + rest.visited, got)
  {
    hide Speaks, Due;
    forall d
      ensures d in sent + rest.sent <==> exists p: nat :: Due(d, fds, [here] + rest.visited, got, p)
    {
      DueHere(d, fds, here, rest.visited, got);
      DueSplits(d, fds, here, rest.visited, got);
      assert d in sent + rest.sent <==> d in sent || d in rest.sent;
    }
  }

  lemma DueHere(d: Delivery, fds: set<nat>, here: PollFd, rest: seq<PollFd>, got: Texts)
    ensures Due(d, fds, [here] + rest, got, 0) <==>
      Speaks(here, got) && d.from == here.fd && d.text == Buffer(got, here.fd) && d.to != d.from && d.to in fds
  {
    assert ([here] + rest)[..0] == [];
  }

  lemma DueSplits(d: Delivery, fds: set<nat>, here: PollFd, rest: seq<PollFd>, got: Texts)
    ensures var fds' := if Closes(here) then fds - {here.fd} else fds;
      (exists p: nat :: Due(d, fds, [here] + rest, got, p)) <==>
      Due(d, fds, [here] + rest, got, 0) || exists p: nat :: Due(d, fds', rest, got, p)
  {
    var fds' := if Closes(here) then fds - {here.fd} else fds;
    var v := [here] + rest;
    if exists p: nat :: Due(d, fds, v, got, p) {
      var p: nat :| Due(d, fds, v, got, p);
      if p > 0 {
        DueNext(d, fds, here, rest, got, p - 1);
      }
    }
    if exists p: nat :: Due(d, fds', rest, got, p) {
      var p: nat :| Due(d, fds', rest, got, p);
      DueNext(d, fds, here, rest, got, p);
    }
  }

  /** No delivery occurs twice, and all senders are in `fds`. */
  ghost predicate AllOnce(sent: seq<Delivery>, fds: set<nat>) {
    && (forall a, b :: 0 <= a < b < |sent| ==> sent[a] != sent[b])
    && (forall a :: 0 <= a < |sent| ==> sent[a].from in fds)
  }

  /** No message is sent twice to the same client in a pass. */
  lemma {:induction false} SentOnce(t: seq<PollFd>, i: nat, got: Texts)
    requires i <= |t| && DistinctFds(t)
    ensures AllOnce(Scan(t, i, got).sent, FdSet(t[i..]))
    decreases |t| - i
  {
    if i < |t| {
      var here := t[i];
      if Closes(here) {
        var r := SwapRemove(t, i);
        SwapRemoveFds(t, i);
        SentOnce(r, i, got);
        LaterFds(t, r, i);
        assert Scan(t, i, got).sent == Scan(r, i, got).sent;
      } else {
        SentOnce(t, i + 1, got);
        TailFds(t, i);
        var rest := Scan(t, i + 1, got).sent;
        BroadcastExact(t, here.fd, Buffer(got, here.fd));
        var b := if Speaks(here, got) then Broadcast(t, here.fd, Buffer(got, here.fd)) else [];
        assert forall k :: 0 <= k < |b| ==> b[k] in Broadcast(t, here.fd, Buffer(got, here.fd));
        AppendOnce(b, rest, here.fd, FdSet(t[i + 1..]), FdSet(t[i..]));
      }
    }
  }

  lemma AppendOnce(b: seq<Delivery>, rest: seq<Delivery>, from: nat, later: set<nat>, all: set<nat>)
    requires AllOnce(b, {from}) && AllOnce(rest, later)
    requires from !in later && from in all && later <= all
    ensures AllOnce(b + rest, all)
  {
  }

  lemma TailFds(t: seq<PollFd>, i: nat)
    requires i < |t| && DistinctFds(t)
    ensures FdSet(t[i + 1..]) <= FdSet(t[i..]) && t[i].fd !in FdSet(t[i + 1..]) && t[i].fd in FdSet(t[i..])
  {
    assert t[i..][0] == t[i];
    var tail := t[i + 1..];
    forall k | 0 <= k < |tail|
      ensures tail[k].fd in FdSet(t[i..])
    {
      assert tail[k] == t[i..][k + 1];
    }
  }

  lemma LaterFds(t: seq<PollFd>, r: seq<PollFd>, i: nat)
    requires i < |t| && r == SwapRemove(t, i)
    ensures FdSet(r[i..]) <= FdSet(t[i..])
  {
    var n := |t| - 1;
    forall k | 0 <= k < |r| - i
      ensures r[i..][k].fd in FdSet(t[i..])
    {
      var j := if k == 0 then n - i else k;
      assert r[i..][k] == t[i..][j];
    }
  }

  // ---- The pass over flags and bytes

  /** Reported with an error or a hang-up, and not as writable. */
  ghost predicate Gone(p: PollFd) { !p.out && (p.err || p.hup) }

  /** What `text` carries of the bytes `got`: at most 31 of them, filled up with zeros to 32. */
  ghost predicate Carries(text: bytes, got: bytes) {
    var n := if |got| < 31 then |got| else 31;
    |text| == 32 && text[..n] == got[..n] && forall i :: n <= i < 32 ==> text[i] == 0
  }

  lemma BufferCarries(got: Texts, fd: nat)
    ensures Carries(Buffer(got, fd), if fd in got then got[fd] else [])
  {
  }

  lemma CarriesOnce(a: bytes, b: bytes, got: bytes)
    requires Carries(a, got) && Carries(b, got)
    ensures a == b
  {
    var n := if |got| < 31 then |got| else 31;
    assert a == a[..n] + a[n..] && b == b[..n] + b[n..];
  }

  lemma {:induction false} ClosedMembers(s: seq<PollFd>, fd: nat)
    ensures fd in ClosedOf(s) <==> exists i :: 0 <= i < |s| && s[i].fd == fd && Gone(s[i])
  {
    if s != [] {
      ClosedMembers(s[1..], fd);
      assert forall i :: 1 <= i < |s| ==> s[i] == s[1..][i - 1];
      assert fd in ClosedOf(s[1..]) ==> exists i :: 1 <= i < |s| && s[i].fd == fd && Gone(s[i]) by {
        if i: nat :| i < |s[1..]| && s[1..][i].fd == fd && Gone(s[1..][i]) {
          assert s[i + 1] == s[1..][i];
        }
      }
      assert ClosedOf(s) == (if Gone(s[0]) then [s[0].fd] else []) + ClosedOf(s[1..]);
    }
  }

  lemma {:induction false} KeptMembers(s: seq<PollFd>, p: PollFd)
    ensures p in Kept(s) <==> p in s && !Gone(p)
  {
    if s != [] {
      KeptMembers(s[1..], p);
      assert p in s <==> p == s[0] || p in s[1..];
    }
  }

  /**
   Poll scan exactness, in spite of the swaps and the index that steps back: one visit for each
   entry, and an entry is closed, and no longer in the table, exactly when it has an error or a hang-up
   and is not reported writable.
   */
  lemma ScanExact(t: seq<PollFd>, got: Texts)
    requires DistinctFds(t)
    ensures var p := Scan(t, 0, got);
      && multiset(p.visited) == multiset(t)
      && |p.closed| + |p.table| == |t|
      && (forall fd :: fd in p.closed <==> exists e :: e in t && e.fd == fd && !e.out && (e.err || e.hup))
      && (forall e :: e in p.table <==> e in t && (e.out || (!e.err && !e.hup)))
  {
    hide Scan, Kept, ClosedOf, DistinctFds;
    var p := Scan(t, 0, got);
    ScanIsExact(t, 0, got);
    assert t[0..] == t && t[..0] == [];
    KeptAndClosed(p.visited);
    forall fd
      ensures fd in p.closed <==> exists e :: e in t && e.fd == fd && !e.out && (e.err || e.hup)
    {
      ClosedMembers(p.visited, fd);
      VisitedMembers(p.visited, t, fd);
    }
    forall e
      ensures e in p.table <==> e in t && (e.out || (!e.err && !e.hup))
    {
      KeptMembers(p.visited, e);
      assert e in p.visited <==> e in multiset(p.visited);
    }
  }

  lemma VisitedMembers(visited: seq<PollFd>, t: seq<PollFd>, fd: nat)
    requires multiset(visited) == multiset(t)
    ensures (exists i :: 0 <= i < |visited| && visited[i].fd == fd && Gone(visited[i])) <==>
      exists e :: e in t && e.fd == fd && Gone(e)
  {
    assert forall e :: e in multiset(visited) <==> e in t;
    assert forall i :: 0 <= i < |visited| ==> visited[i] in visited;
    if e :| e in t && e.fd == fd && Gone(e) {
      assert e in visited;
    }
  }

  /** Without an error or a hang-up the pass goes through the table in order and leaves it as it is. */
  lemma {:induction false} CalmScan(t: seq<PollFd>, i: nat, got: Texts)
    requires i <= |t| && forall e :: e in t ==> !Gone(e)
    ensures var p := Scan(t, i, got); p.visited == t[i..] && p.table == t && p.closed == []
    decreases |t| - i
  {
    if i < |t| {
      CalmScan(t, i + 1, got);
      assert t[i] in t && t[i..] == [t[i]] + t[i + 1..];
    }
  }

  /** An entry that is closed makes room for the last one, which is visited next. */
  lemma NextVisited(t: seq<PollFd>, i: nat, got: Texts)
    requires i < |t| && Gone(t[i])
    ensures (if i + 1 < |t| then [t[i], t[|t| - 1]] else [t[i]]) <= Scan(t, i, got).visited
  {
    var r := SwapRemove(t, i);
    if i < |r| {
      assert r[i] == t[|t| - 1] && [r[i]] <= Scan(r, i, got).visited;
    }
  }

  lemma {:induction false} KeptAndClosed(s: seq<PollFd>)
    ensures |Kept(s)| + |ClosedOf(s)| == |s|
  {
    if s != [] {
      KeptAndClosed(s[1..]);
    }
  }

  /**
   A message is due when its sender, at the moment it was visited, could be read without an error or
   a hang-up and had sent something, which the message carries, and its receiver, another client,
   was in the table and none of the entries removed before.
   */
  ghost predicate Expected(d: Delivery, t: seq<PollFd>, visited: seq<PollFd>, got: Texts, p: nat) {
    && p < |visited| && d.from == visited[p].fd
    && visited[p].input && !visited[p].out && !visited[p].err && !visited[p].hup
    && d.from in got && got[d.from] != [] && Carries(d.text, got[d.from])
    && d.to != d.from && (exists e :: e in t && e.fd == d.to)
    && !exists q :: 0 <= q < p && visited[q].fd == d.to && Gone(visited[q])
  }

  lemma ExpectedIsDue(d: Delivery, t: seq<PollFd>, visited: seq<PollFd>, got: Texts, p: nat)
    ensures Expected(d, t, visited, got, p) <==> Due(d, FdSet(t), visited, got, p)
  {
    hide Buffer, Carries, ClosedOf, FdSet;
    if p < |visited| && d.from in got {
      BufferCarries(got, d.from);
      if Carries(d.text, got[d.from]) {
        CarriesOnce(d.text, Buffer(got, d.from), got[d.from]);
      }
    }
    FdMembers(t, d.to);
    if p < |visited| {
      ClosedMembers(visited[..p], d.to);
      assert forall q :: 0 <= q < p ==> visited[..p][q] == visited[q];
    }
  }

  lemma FdMembers(t: seq<PollFd>, fd: nat)
    ensures fd in FdSet(t) <==> exists e :: e in t && e.fd == fd
  {
    if e :| e in t && e.fd == fd {
      var i :| 0 <= i < |t| && t[i] == e;
    }
  }

  /** Every message of the pass is sent to exactly the clients it is due to, and carries what was received. */
  lemma SentExact(t: seq<PollFd>, got: Texts)
    requires DistinctFds(t)
    ensures var p := Scan(t, 0, got);
      forall d :: d in p.sent <==> exists i: nat :: Expected(d, t, p.visited, got, i)
  {
    hide Scan, Due, Expected, FdSet, DistinctFds;
    SentIsDue(t, 0, got);
    var p := Scan(t, 0, got);
    forall d
      ensures d in p.sent <==> exists i: nat :: Expected(d, t, p.visited, got, i)
    {
      forall i: nat
        ensures Expected(d, t, p.visited, got, i) <==> Due(d, FdSet(t), p.visited, got, i)
      {
        ExpectedIsDue(d, t, p.visited, got, i);
      }
    }
  }

  /** The receivers of a broadcast come in table order. */
  lemma {:induction false} BroadcastOrder(t: seq<PollFd>, from: nat, text: bytes, i: nat, j: nat)
    returns (a: nat, b: nat)
    requires i < j < |Broadcast(t, from, text)|
    ensures a < b < |t|
    ensures t[a].fd == Broadcast(t, from, text)[i].to && t[b].fd == Broadcast(t, from, text)[j].to
    decreases |t|
  {
    var n := |t| - 1;
    var rest := Broadcast(t[..n], from, text);
    if j < |rest| {
      a, b := BroadcastOrder(t[..n], from, text, i, j);
    } else {
      a := ReceiverAt(t[..n], from, text, i);
      b := n;
    }
  }

  lemma {:induction false} ReceiverAt(t: seq<PollFd>, from: nat, text: bytes, i: nat) returns (a: nat)
    requires i < |Broadcast(t, from, text)|
    ensures a < |t| && t[a].fd == Broadcast(t, from, text)[i].to
    decreases |t|
  {
    var n := |t| - 1;
    if i < |Broadcast(t[..n], from, text)| {
      a := ReceiverAt(t[..n], from, text, i);
    } else {
      a := n;
    }
  }

  // ---- The table

  /** The entries have distinct descriptors below `m`. */
  ghost predicate TableOk(t: seq<PollFd>, m: nat) {
    DistinctFds(t) && forall i :: 0 <= i < |t| ==> t[i].fd < m
  }

  lemma TableKept(t: seq<PollFd>, i: nat, m: nat)
    requires i < |t| && TableOk(t, m)
    ensures TableOk(SwapRemove(t, i), m)
  {
    SwapRemoveFds(t, i);
    var r, n := SwapRemove(t, i), |t| - 1;
    assert forall k :: 0 <= k < n ==> r[k] == if k == i then t[n] else t[k];
  }

  lemma SwapInArray(before: seq<PollFd>, after: seq<PollFd>, i: nat, n: nat)
    requires 1 <= i <= n < |before| && after == before[i := before[n]]
    ensures after[1..n] == SwapRemove(before[1..n + 1], i - 1)
  {
    var t := before[1..n + 1];
    assert t[n - 1] == before[n];
  }

  lemma {:induction false} BroadcastNext(t: seq<PollFd>, j: nat, from: nat, text: bytes)
    requires j < |t|
    ensures Broadcast(t[..j + 1], from, text) ==
      Broadcast(t[..j], from, text) + if t[j].fd == from then [] else [Delivery(from, t[j].fd, text)]
  {
    assert t[..j + 1][..j] == t[..j];
  }

  /**
   The receive buffers of the entries of `t`: fresh for the first `n` where they could be read, and
   as `before` for the others.
   */
  ghost predicate BuffersOk(t: seq<PollFd>, buffers: seq<bytes>, before: seq<bytes>, n: nat, got: Texts)
    requires TableOk(t, |buffers|) && |before| == |buffers|
  {
    forall k :: 0 <= k < |t| ==>
      buffers[t[k].fd] == if k < n && Reads(t[k]) then Buffer(got, t[k].fd) else before[t[k].fd]
  }

  lemma BuffersStart(t: seq<PollFd>, buffers: seq<bytes>, got: Texts)
    requires TableOk(t, |buffers|)
    ensures BuffersOk(t, buffers, buffers, 0, got)
  {
  }

  lemma BuffersSkip(t: seq<PollFd>, buffers: seq<bytes>, before: seq<bytes>, n: nat, got: Texts)
    requires TableOk(t, |buffers|) && |before| == |buffers| && BuffersOk(t, buffers, before, n, got)
    requires n < |t| && !Reads(t[n])
    ensures BuffersOk(t, buffers, before, n + 1, got)
  {
  }

  lemma BuffersRead(t: seq<PollFd>, buffers: seq<bytes>, before: seq<bytes>, n: nat, got: Texts)
    requires TableOk(t, |buffers|) && |before| == |buffers| && BuffersOk(t, buffers, before, n, got)
    requires n < |t| && Reads(t[n])
    ensures BuffersOk(t, buffers[t[n].fd := Buffer(got, t[n].fd)], before, n + 1, got)
  {
    hide Buffer;
  }

  /** Swap removal copies the last client's buffer over the closed one's and no other. */
  lemma BuffersClose(t: seq<PollFd>, buffers: seq<bytes>, before: seq<bytes>, n: nat, got: Texts)
    requires TableOk(t, |buffers|) && |before| == |buffers| && BuffersOk(t, buffers, before, n, got)
    requires n < |t|
    ensures TableOk(SwapRemove(t, n), |buffers|)
    ensures BuffersOk(SwapRemove(t, n), buffers[t[n].fd := buffers[t[|t| - 1].fd]], before, n, got)
  {
    hide Buffer;
    TableKept(t, n, |buffers|);
    var r := SwapRemove(t, n);
    assert forall k :: 0 <= k < |r| ==> r[k] == if k == n then t[|t| - 1] else t[k];
  }

  /** The logs and the receive buffers when a pass starts. */
  datatype Start = Start(closed: seq<nat>, sent: seq<Delivery>, buffers: seq<bytes>)

  class ChatTable {
    const fds: array<PollFd>      // kFDS; entry 0 is the listening socket
    const clients: array<bytes>   // kClient, by descriptor: the receive buffers
    var cnt: nat                  // kCntClient

    ghost var closed: seq<nat>
    ghost var sent: seq<Delivery>

    ghost function Table(): seq<PollFd>
      reads this`cnt, fds
      requires cnt < fds.Length
    {
      fds[1..cnt + 1]
    }

    ghost predicate Valid()
      reads this`cnt, fds
    {
      cnt < fds.Length && TableOk(Table(), clients.Length)
    }

    constructor (maxClients: nat, maxFd: nat)
      ensures Valid() && Table() == [] && fds.Length == maxClients + 1 && clients.Length == maxFd
      ensures closed == [] && sent == [] && fresh(fds) && fresh(clients)
    {
      fds := new PollFd[maxClients + 1](_ => PollFd(0, false, false, false, false));
      clients := new bytes[maxFd](_ => []);
      cnt := 0;
      closed, sent := [], [];
    }

    /** Phase 1: a new connection gets the next entry, or is closed when the table is full. */
    method Accept(peer: nat)
      requires Valid() && peer < clients.Length && peer !in FdSet(Table())
      modifies this`cnt, this`closed, fds
      ensures Valid()
      ensures old(cnt) + 1 < fds.Length ==>
        Table() == old(Table()) + [PollFd(peer, false, false, false, false)] && closed == old(closed)
      ensures old(cnt) + 1 >= fds.Length ==> Table() == old(Table()) && closed == old(closed) + [peer]
    {
      if cnt + 1 >= fds.Length {
        closed := closed + [peer];
      } else {
        ghost var t := Table();
        assert forall i :: 0 <= i < |t| ==> t[i].fd in FdSet(t);
        cnt := cnt + 1;
        fds[cnt] := PollFd(peer, false, false, false, false);
        assert Table() == t + [PollFd(peer, false, false, false, false)];
      }
    }

    /** ReplaceAndClosePollfd(&kFDS[i], &kFDS[kCntClient]), then the count goes down. */
    method ReplaceAndClose(i: nat)
      requires Valid() && 1 <= i <= cnt
      modifies this`cnt, this`closed, fds, clients
      ensures Valid() && cnt == old(cnt) - 1
      ensures Table() == SwapRemove(old(Table()), i - 1)
      ensures forall k :: 0 <= k < cnt ==> Table()[k] == old(Table())[if k == i - 1 then cnt else k]
      ensures closed == old(closed) + [old(Table())[i - 1].fd]
      ensures var t, buffers := old(Table()), old(clients[..]);
        clients[..] == buffers[t[i - 1].fd := buffers[t[|t| - 1].fd]]
    {
      hide SwapRemove, DistinctFds;
      ghost var t, all, n := Table(), fds[..], cnt;
      TableKept(t, i - 1, clients.Length);
      assert t == all[1..n + 1] && t[i - 1] == fds[i] && t[n - 1] == fds[n];
      closed := closed + [fds[i].fd];
      clients[fds[i].fd] := clients[fds[cnt].fd];
      fds[i] := fds[cnt];
      cnt := cnt - 1;
      SwapInArray(all, fds[..], i, n);
      assert Table() == fds[..][1..n];
    }

    /** The sending loop: to every entry but the sender's own. */
    method SendToOthers(from: nat)
      requires Valid() && from < clients.Length
      modifies this`sent
      ensures sent == old(sent) + Broadcast(Table(), from, clients[from])
    {
      hide Broadcast, TableOk;
      ghost var t, text := Table(), clients[from];
      assert Broadcast(t[..0], from, text) == [] by { NoBroadcast(from, text); }
      var j := 1;
      while j <= cnt
        invariant 1 <= j <= cnt + 1
        invariant sent == old(sent) + Broadcast(t[..j - 1], from, text)
      {
        BroadcastNext(t, j - 1, from, text);
        if fds[j].fd != from {
          sent := sent + [Delivery(from, fds[j].fd, clients[from])];
        }
        j := j + 1;
      }
      assert t[..cnt] == t;
    }

    static lemma NoBroadcast(from: nat, text: bytes)
      ensures Broadcast([], from, text) == []
    {
    }

    /** What one entry of the scan does when its client can be read: recv, then send to the others. */
    method Receive(i: nat, got: Texts)
      requires Valid() && 1 <= i <= cnt
      modifies this`sent, clients
      ensures var p := Table()[i - 1];
        && sent == old(sent) +
             (if p.fd in got && got[p.fd] != [] then Broadcast(Table(), p.fd, Buffer(got, p.fd)) else [])
        && clients[..] == old(clients[..])[p.fd := Buffer(got, p.fd)]
    {
      hide Buffer, Broadcast;
      var peer := fds[i].fd;
      assert peer == Table()[i - 1].fd;
      clients[peer] := Buffer(got, peer);
      if peer in got && got[peer] != [] {
        SendToOthers(peer);
      }
    }

    /**
     A pass that started with `start` in the logs and the buffers is to be `goal`: its effects so
     far are those of `done`, and the rest of it starts at entry `i`.
     */
    ghost predicate Scanning(goal: Pass, start: Start, done: Pass, i: nat, got: Texts)
      reads this`cnt, this`closed, this`sent, fds, clients
    {
      && Valid() && i <= cnt && |start.buffers| == clients.Length
      && Remains(goal, done, Table(), i, got) && BuffersOk(Table(), clients[..], start.buffers, i, got)
      && closed == start.closed + done.closed && sent == start.sent + done.sent
    }

    /** One round on an entry with an error or a hang-up. */
    method CloseRound(i: nat, got: Texts, ghost goal: Pass, ghost start: Start, ghost done: Pass)
      requires 1 <= i <= cnt && Scanning(goal, start, done, i - 1, got) && Closes(Table()[i - 1])
      modifies this`cnt, this`closed, fds, clients
      ensures cnt == old(cnt) - 1 && Scanning(goal, start, old(Visit(done, Table(), i - 1, got)), i - 1, got)
    {
      hide SwapRemove, Remains, BuffersOk, TableOk, Visit, Broadcast, Buffer;
      VisitEffects(done, Table(), i - 1, got);
      ScanCloses(goal, done, Table(), i - 1, got);
      BuffersClose(Table(), clients[..], start.buffers, i - 1, got);
      ReplaceAndClose(i);
    }

    /** One round on an entry that can be read. */
    method ReadRound(i: nat, got: Texts, ghost goal: Pass, ghost start: Start, ghost done: Pass)
      requires 1 <= i <= cnt && Scanning(goal, start, done, i - 1, got) && Reads(Table()[i - 1])
      modifies this`sent, clients
      ensures Scanning(goal, start, Visit(done, Table(), i - 1, got), i, got)
    {
      hide Remains, BuffersOk, TableOk, Visit, Broadcast, Buffer;
      VisitEffects(done, Table(), i - 1, got);
      ScanKeeps(goal, done, Table(), i - 1, got);
      BuffersRead(Table(), clients[..], start.buffers, i - 1, got);
      Receive(i, got);
    }

    /** An entry with nothing to do. */
    lemma SkipRound(i: nat, got: Texts, goal: Pass, start: Start, done: Pass)
      requires 1 <= i <= cnt && Scanning(goal, start, done, i - 1, got)
      requires !Closes(Table()[i - 1]) && !Reads(Table()[i - 1])
      ensures Scanning(goal, start, Visit(done, Table(), i - 1, got), i, got)
    {
      hide Remains, BuffersOk, TableOk, Visit, Broadcast, Buffer;
      VisitEffects(done, Table(), i - 1, got);
      ScanKeeps(goal, done, Table(), i - 1, got);
      BuffersSkip(Table(), clients[..], start.buffers, i - 1, got);
    }

    lemma ScanBegins(got: Texts)
      requires Valid()
      ensures Scanning(Scan(Table(), 0, got), Start(closed, sent, clients[..]), NOTHING, 0, got)
    {
      ScanStarts(Table(), got);
      BuffersStart(Table(), clients[..], got);
    }

    /**
     Phase 2: the loop over the table, with its index stepping back at every removal. It visits what
     Scan visits, in one round per client, and does what Scan says; removal by swapping leaves
     the receive buffers of the remaining clients alone.
     */
    method ScanClients(got: Texts) returns (ghost visited: seq<PollFd>, ghost rounds: nat)
      requires Valid()
      modifies this`cnt, this`closed, this`sent, fds, clients
      ensures Valid() && rounds == old(cnt)
      ensures var p := Scan(old(Table()), 0, got);
        && Table() == p.table && visited == p.visited
        && closed == old(closed) + p.closed && sent == old(sent) + p.sent
      ensures BuffersOk(Table(), clients[..], old(clients[..]), cnt, got)
    {
      hide Scan, Remains, BuffersOk, TableOk, Scanning;
      ghost var goal, start := Scan(Table(), 0, got), Start(closed, sent, clients[..]);
      ghost var done := NOTHING;
      rounds := 0;
      var i := 1;
      ScanBegins(got);
      while i <= cnt
        invariant 1 <= i <= cnt + 1 <= fds.Length && Scanning(goal, start, done, i - 1, got)
        invariant rounds + (cnt + 1 - i) == old(cnt)
        decreases cnt + 1 - i
      {
        var p := fds[i];
        assert p == Table()[i - 1];
        rounds := rounds + 1;
        ghost var was := done;
        done := Visit(was, Table(), i - 1, got);
        if p.out {
          SkipRound(i, got, goal, start, was);
        } else if p.err || p.hup {
          CloseRound(i, got, goal, start, was);
          i := i - 1;
        } else if p.input {
          ReadRound(i, got, goal, start, was);
        } else {
          SkipRound(i, got, goal, start, was);
        }
        i := i + 1;
      }
      ScanFinished(goal, start, done, got);
      visited := done.visited;
    }

    lemma ScanFinished(goal: Pass, start: Start, done: Pass, got: Texts)
      requires Scanning(goal, start, done, cnt, got)
      ensures Valid() && goal == done.(table := Table())
      ensures closed == start.closed + goal.closed && sent == start.sent + goal.sent
      ensures |start.buffers| == clients.Length && BuffersOk(Table(), clients[..], start.buffers, cnt, got)
    {
      ScanEnds(goal, done, Table(), got);
    }
  }
}
