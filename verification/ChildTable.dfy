/** A child's table of clients, indexed by descriptor, and what becomes of every accepted descriptor. */
module ChildTable {
  import opened RequestLine
  import opened ClientEnd

  const MAX_ACCEPT := 100

  datatype Slot = Slot(sockfd: int, result: Code)

  datatype FdEvent = Opened(fd: nat) | Closed(fd: nat)

  /** The descriptors the kernel holds open for this process, or Broken if one was opened or closed twice. */
  datatype Table = Broken | Fds(open: set<nat>)

  function Replay(log: seq<FdEvent>): Table {
    if log == [] then Fds({})
    else
      var t := Replay(log[..|log| - 1]);
      if t == Broken then Broken
      else match log[|log| - 1]
        case Opened(fd) => if fd in t.open then Broken else Fds(t.open + {fd})
        case Closed(fd) => if fd in t.open then Fds(t.open - {fd}) else Broken
  }

  lemma ReplayNext(log: seq<FdEvent>, e: FdEvent)
    requires Replay(log).Fds? && (e.Opened? <==> e.fd !in Replay(log).open)
    ensures Replay(log + [e]) ==
      Fds(if e.Opened? then Replay(log).open + {e.fd} else Replay(log).open - {e.fd})
  {
    assert (log + [e])[..|log|] == log;
  }

  function Count(log: seq<FdEvent>, e: FdEvent): nat {
    if log == [] then 0 else Count(log[..|log| - 1], e) + if log[|log| - 1] == e then 1 else 0
  }

  /**
   A log that replays has closed every descriptor as often as it was opened, but for the open
   ones, opened once more.
   */
  lemma {:induction false} ClosedOnce(log: seq<FdEvent>, fd: nat)
    requires Replay(log).Fds?
    ensures Count(log, Opened(fd)) == Count(log, Closed(fd)) + if fd in Replay(log).open then 1 else 0
  {
    if log != [] {
      ClosedOnce(log[..|log| - 1], fd);
    }
  }

  /** The descriptors one round of accept calls takes: up to the first failure, and at most `max`. */
  function Taken(accepts: seq<int>, max: nat): (t: seq<nat>)
    ensures |t| <= max && |t| <= |accepts|
    ensures forall i :: 0 <= i < |t| ==> t[i] == accepts[i]
  {
    if max == 0 || accepts == [] || accepts[0] < 0 then [] else [accepts[0]] + Taken(accepts[1..], max - 1)
  }

  lemma {:induction false} TakenIs(accepts: seq<int>, max: nat)
    ensures var n := |Taken(accepts, max)|; n == max || n == |accepts| || accepts[n] < 0
    ensures forall i :: 0 <= i < |Taken(accepts, max)| ==> accepts[i] >= 0
  {
    if max != 0 && accepts != [] && accepts[0] >= 0 {
      TakenIs(accepts[1..], max - 1);
    }
  }

  function Opens(fds: seq<nat>): seq<FdEvent> { seq(|fds|, i requires 0 <= i < |fds| => Opened(fds[i])) }

  function Closes(fds: seq<nat>): seq<FdEvent> { seq(|fds|, i requires 0 <= i < |fds| => Closed(fds[i])) }

  lemma ClosesMembers(fds: seq<nat>)
    ensures forall e :: e in Closes(fds) <==> e.Closed? && e.fd in fds
  {
    forall fd | fd in fds
      ensures Closed(fd) in Closes(fds)
    {
      var i :| 0 <= i < |fds| && fds[i] == fd;
      assert Closes(fds)[i] == Closed(fd);
    }
  }

  /** The marked slots below `n`, in order. */
  function MarkedBelow(slots: seq<Slot>, n: nat): (fds: seq<nat>)
    requires n <= |slots|
    ensures forall i, j :: 0 <= i < j < |fds| ==> fds[i] < fds[j]
    ensures forall fd: nat :: fd in fds <==> fd < n && slots[fd].sockfd == fd
  {
    if n == 0 then []
    else
      var rest := MarkedBelow(slots, n - 1);
      assert forall i :: 0 <= i < |rest| ==> rest[i] in rest;
      rest + if slots[n - 1].sockfd == n - 1 then [n - 1] else []
  }

  /** The marked slots from `n` on. */
  ghost function MarkedFrom(slots: seq<Slot>, n: nat): set<nat> {
    set k: nat | n <= k < |slots| && slots[k].sockfd == k
  }

  lemma MarkedStart(slots: seq<Slot>)
    ensures MarkedBelow(slots, 0) == []
  {
  }

  lemma MarkedStep(slots: seq<Slot>, n: nat)
    requires n < |slots|
    ensures var marked := slots[n].sockfd == n;
      && MarkedBelow(slots, n + 1) == MarkedBelow(slots, n) + (if marked then [n] else [])
      && MarkedFrom(slots, n + 1) == MarkedFrom(slots, n) - {n}
      && (n in MarkedFrom(slots, n) <==> marked)
  {
  }

  class Child {
    const slots: array<Slot>
    ghost var log: seq<FdEvent>   // accept and close as the kernel saw them
    ghost var parked: set<nat>    // descriptors forgotten by the table but still open

    ghost function Marked(): (m: set<nat>)
      reads slots
    {
      set k: nat | k < slots.Length && slots[k].sockfd == k
    }

    ghost function Open(): set<nat>
      reads this, slots
    {
      Marked() + parked
    }

    /**
     A slot holds its own index or -1; the open descriptors are the marked slots and, apart from
     them, the parked ones.
     */
    ghost predicate Valid()
      reads this, slots
    {
      && (forall k :: 0 <= k < slots.Length ==> slots[k].sockfd == -1 || slots[k] == Slot(k, NoRequest))
      && (forall k :: k in parked ==> k < slots.Length)
      && Marked() !! parked
      && Replay(log) == Fds(Open())
    }

    constructor (maxClientFd: nat)
      ensures Valid() && fresh(slots) && slots.Length == maxClientFd && log == [] && parked == {}
      ensures Marked() == {}
    {
      slots := new Slot[maxClientFd](_ => Slot(-1, NoRequest));
      log, parked := [], {};
    }

    /** A descriptor that is not open finds its slot free: "accept to quick" does not happen. */
    method AcceptOne(fd: nat)
      requires Valid() && fd < slots.Length && fd !in Open()
      modifies this`log, slots
      ensures Valid() && parked == old(parked) && Open() == old(Open()) + {fd}
      ensures log == old(log) + [Opened(fd)]
      ensures slots[fd] == Slot(fd, NoRequest)
      ensures forall k :: 0 <= k < slots.Length && k != fd ==> slots[k] == old(slots[k])
    {
      hide Replay;
      assert slots[fd].sockfd == fd ==> fd in Marked();
      if slots[fd].sockfd != -1 {
        assert false;
      }
      ghost var before := Marked();
      slots[fd] := Slot(fd, NoRequest);
      assert Marked() == before + {fd};
      ReplayNext(log, Opened(fd));
      log := log + [Opened(fd)];
      assert Open() == before + parked + {fd};
    }

    /**
     The accept loop of one wake-up. `accepts` are the results of the calls: descriptors that are
     not open already, or a negative number.
     */
    method AcceptRound(accepts: seq<int>)
      requires Valid()
      requires forall i :: 0 <= i < |accepts| && accepts[i] >= 0 ==> accepts[i] < slots.Length && accepts[i] !in Open()
      requires forall i, j :: 0 <= i < j < |accepts| && accepts[i] >= 0 ==> accepts[i] != accepts[j]
      modifies this`log, slots
      ensures Valid() && parked == old(parked)
      ensures log == old(log) + Opens(Taken(accepts, MAX_ACCEPT))
      ensures forall k :: 0 <= k < slots.Length ==>
        slots[k] == if k in Taken(accepts, MAX_ACCEPT) then Slot(k, NoRequest) else old(slots[k])
      ensures var n := |log| - |old(log)|;
        && 0 <= n <= 100 && n <= |accepts| && (n < 100 && n < |accepts| ==> accepts[n] < 0)
        && forall i :: 0 <= i < n ==> accepts[i] >= 0 && log[|old(log)| + i] == Opened(accepts[i])
    {
      hide Valid, Open, Taken;
      ghost var all, open := Taken(accepts, MAX_ACCEPT), Open();
      TakenIs(accepts, MAX_ACCEPT);
      var left, i := MAX_ACCEPT, 0;
      while left > 0
        invariant Valid() && parked == old(parked)
        invariant 0 <= i <= |all| && i + left == MAX_ACCEPT
        invariant Open() == open + set fd | fd in all[..i]
        invariant log == old(log) + Opens(all[..i])
        invariant forall k :: 0 <= k < slots.Length ==>
          slots[k] == if k in all[..i] then Slot(k, NoRequest) else old(slots[k])
        decreases left
      {
        var fd := if i < |accepts| then accepts[i] else -1;
        if fd < 0 {
          break;
        }
        assert i < |all| && all[i] == fd && fd !in all[..i];
        AcceptOne(fd);
        assert all[..i + 1] == all[..i] + [fd];
        assert Opens(all[..i + 1]) == Opens(all[..i]) + [Opened(fd)];
        left, i := left - 1, i + 1;
      }
      assert all == all[..i];
    }

    /**
     An input event on descriptor `fd`, whose client's process() ends with code `after`. The table
     forgets the descriptor in every case and closes it unless the request is unfinished.
     */
    method ProcessClient(fd: nat, after: Code) returns (running: bool)
      requires Valid() && fd < slots.Length && CanEnd(slots[fd].sockfd, slots[fd].result, after)
      modifies this, slots
      ensures Valid() && running == Survives(after)
      ensures slots[fd] == if running then Slot(-1, after) else old(slots[fd])
      ensures forall k :: 0 <= k < slots.Length && k != fd ==> slots[k] == old(slots[k])
      ensures var closed := ClosedFd(old(slots[fd].sockfd), after);
        log == old(log) + if closed != -1 then [Closed(closed)] else []
      ensures after != NoRequest && after != Undefined && old(slots[fd].sockfd) != -1 ==>
        log == old(log) + [Closed(fd)]
      ensures after == NoRequest || after == Undefined || old(slots[fd].sockfd) == -1 ==> log == old(log)
      ensures parked == old(parked) + if fd in old(Marked()) && after == NoRequest then {fd} else {}
    {
      var s := slots[fd];
      if after == Undefined {
        return false;
      }
      ghost var before := Marked();
      slots[fd] := Slot(-1, after);
      assert Marked() == before - {fd};
      if after != NoRequest {
        if s.sockfd != -1 {
          ReplayNext(log, Closed(fd));
          log := log + [Closed(fd)];
        }
      } else {
        parked := parked + {fd};
      }
      ghost var open := before + old(parked);
      assert Open() == if s.sockfd == fd && after != NoRequest then open - {fd} else open;
      running := true;
    }

    /** The last loop of the child: every marked descriptor is closed once, the parked ones are not. */
    method CloseAll()
      requires Valid()
      modifies this`log
      ensures log == old(log) + Closes(MarkedBelow(slots[..], slots.Length))
      ensures var m := log[|old(log)|..];
        && (forall fd: nat :: Closed(fd) in m <==> fd < slots.Length && slots[fd].sockfd == fd)
        && (forall fd: nat :: Opened(fd) !in m)
        && (forall i, j :: 0 <= i < j < |m| ==> m[i].fd < m[j].fd)
      ensures Replay(log) == Fds(parked)
    {
      hide Replay, MarkedBelow;
      ghost var s := slots[..];
      assert Marked() == MarkedFrom(s, 0) && MarkedBelow(s, 0) == [] by { MarkedStart(s); }
      for fd := 0 to slots.Length
        invariant log == old(log) + Closes(MarkedBelow(s, fd))
        invariant Replay(log) == Fds(MarkedFrom(s, fd) + parked)
      {
        MarkedStep(s, fd);
        if slots[fd].sockfd == fd {
          assert fd !in parked by { assert fd in Marked(); }
          ReplayNext(log, Closed(fd));
          log := log + [Closed(fd)];
          assert MarkedFrom(s, fd) + parked - {fd} == MarkedFrom(s, fd + 1) + parked;
          ghost var m := MarkedBelow(s, fd);
          assert Closes(m + [fd]) == Closes(m) + [Closed(fd)];
        }
      }
      assert MarkedFrom(s, slots.Length) + parked == parked;
      ClosesMembers(MarkedBelow(s, slots.Length));
      assert log[|old(log)|..] == Closes(MarkedBelow(s, slots.Length));
    }
  }
}
