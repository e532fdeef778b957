/** The doubly linked list of client timers, updated in place. */
module TimerSortedList {
  import opened TimerSpec

  class ClientTimer {
    var prev: ClientTimer?
    var next: ClientTimer?
    var tExpire: int

    constructor (t: int)
      ensures prev == null && next == null && tExpire == t
    {
      prev, next := null, null;
      tExpire := t;
    }
  }

  class TimerList {
    var head: ClientTimer?
    var tail: ClientTimer?

    ghost var nodes: seq<ClientTimer>      // the list, first to last
    ghost var freed: set<ClientTimer>      // what has been deleted
    ghost var ops: seq<Op<ClientTimer>>    // the calls made so far

    static ghost function EntriesOf(ns: seq<ClientTimer>): (s: seq<Entry<ClientTimer>>)
      reads ns
      ensures |s| == |ns| && forall i :: 0 <= i < |ns| ==> s[i] == Entry(ns[i], ns[i].tExpire)
    {
      seq(|ns|, i requires 0 <= i < |ns| reads ns => Entry(ns[i], ns[i].tExpire))
    }

    ghost function Entries(): seq<Entry<ClientTimer>>
      reads this`nodes, nodes
    {
      EntriesOf(nodes)
    }

    /** `ns` is a doubly linked list from `first`: prev and next are mutually inverse and no node occurs twice. */
    static ghost predicate Linked(first: ClientTimer?, ns: seq<ClientTimer>)
      reads ns
    {
      && first == (if ns == [] then null else ns[0])
      && (forall i, j :: 0 <= i < j < |ns| ==> ns[i] != ns[j])
      && (forall i {:trigger ns[i].prev} :: 0 <= i < |ns| ==> ns[i].prev == if i == 0 then null else ns[i - 1])
      && (forall i {:trigger ns[i].next} :: 0 <= i < |ns| ==> ns[i].next == if i + 1 == |ns| then null else ns[i + 1])
    }

    /** The heap is a sorted list; its nodes are not freed; and it is what the calls so far say it must be. */
    ghost predicate Valid()
      reads this, nodes
    {
      && Linked(head, nodes)
      && (forall n :: n in nodes ==> n !in freed)
      && Recorded(Entries(), ops)
    }

    constructor ()
      ensures Valid() && nodes == [] && freed == {} && ops == []
    {
      head, tail := null, null;
      nodes, freed, ops := [], {}, [];
    }

    /** Splice `t` into the links before position `i`. */
    method Splice(t: ClientTimer, prev: ClientTimer?, cur: ClientTimer?, ghost i: nat)
      requires Linked(head, nodes) && t !in nodes && i <= |nodes|
      requires cur == if i < |nodes| then nodes[i] else null
      requires prev == if i > 0 then nodes[i - 1] else null
      modifies this`head, this`nodes, nodes`prev, nodes`next, t`prev, t`next
      ensures nodes == old(nodes[..i] + [t] + nodes[i..]) && Linked(head, nodes)
      ensures EntriesOf(old(nodes)) == old(Entries())
    {
      hide EntriesOf;
      if prev != null {
        prev.next := t;
      } else {
        head := t;
      }
      t.prev := prev;
      t.next := cur;
      if cur != null {
        cur.prev := t;
      }
      ghost var ns := nodes;
      nodes := ns[..i] + [t] + ns[i..];
      SplicedLinks(head, ns, t, i);
      SameEntries(ns);
    }

    /** `ns` is a list except that `t` is linked in before position `i`. */
    static ghost predicate Opened(first: ClientTimer?, ns: seq<ClientTimer>, t: ClientTimer, i: nat)
      requires i <= |ns|
      reads ns, t
    {
      && first == (if i == 0 then t else ns[0])
      && t.prev == (if i == 0 then null else ns[i - 1])
      && t.next == (if i == |ns| then null else ns[i])
      && (forall k, l :: 0 <= k < l < |ns| ==> ns[k] != ns[l])
      && (forall k {:trigger ns[k].prev} :: 0 <= k < |ns| ==>
            ns[k].prev == if k == i then t else if k == 0 then null else ns[k - 1])
      && (forall k {:trigger ns[k].next} :: 0 <= k < |ns| ==>
            ns[k].next == if k + 1 == i then t else if k + 1 == |ns| then null else ns[k + 1])
    }

    static lemma SplicedLinks(first: ClientTimer?, ns: seq<ClientTimer>, t: ClientTimer, i: nat)
      requires i <= |ns| && t !in ns && Opened(first, ns, t, i)
      ensures Linked(first, ns[..i] + [t] + ns[i..])
    {
      Joined(ns, t, i);
    }

    static lemma Joined(ns: seq<ClientTimer>, t: ClientTimer, i: nat)
      requires i <= |ns|
      ensures var r := ns[..i] + [t] + ns[i..];
        && (forall k :: 0 <= k < i ==> r[k] == ns[k])
        && r[i] == t
        && (forall k :: i < k <= |ns| ==> r[k] == ns[k - 1])
    {
    }

    static twostate lemma SameEntries(ns: seq<ClientTimer>)
      requires forall k :: 0 <= k < |ns| ==> ns[k].tExpire == old(ns[k].tExpire)
      ensures EntriesOf(ns) == old(EntriesOf(ns))
    {
    }

    lemma HeadIs()
      requires Linked(head, nodes)
      ensures head == if nodes == [] then null else nodes[0]
    {
    }

    static lemma Spliced(ns: seq<ClientTimer>, t: ClientTimer, i: nat)
      requires i <= |ns|
      ensures var s := EntriesOf(ns); EntriesOf(ns[..i] + [t] + ns[i..]) == s[..i] + [Entry(t, t.tExpire)] + s[i..]
      ensures forall n :: n in ns[..i] + [t] + ns[i..] <==> n == t || n in ns
    {
      assert ns == ns[..i] + ns[i..];
    }

    static lemma Singleton(t: ClientTimer)
      requires t.prev == null && t.next == null
      ensures Linked(t, [t])
    {
    }

    lemma LinksOf(i: nat)
      requires Linked(head, nodes) && i < |nodes|
      ensures nodes[i].prev == if i == 0 then null else nodes[i - 1]
      ensures nodes[i].next == if i + 1 == |nodes| then null else nodes[i + 1]
    {
    }

    /** The link part of AddTimer: the place is before the first timer that does not expire earlier. */
    method Link(t: ClientTimer)
      requires Linked(head, nodes) && t !in nodes
      requires nodes == [] ==> t.prev == null && t.next == null
      modifies this`head, this`tail, this`nodes, nodes`prev, nodes`next, t`prev, t`next
      ensures Linked(head, nodes)
      ensures Entries() == Insert(old(Entries()), Entry(t, t.tExpire))
      ensures forall n :: n in nodes <==> n == t || n in old(nodes)
    {
      hide Early, Linked, EntriesOf;
      ghost var s, ns := Entries(), nodes;
      HeadIs();
      var cur := head;
      if cur == null {
        head := t;
        tail := t;
        nodes := [t];
        assert Linked(head, nodes) by { Singleton(t); }
        EarlyIs(s, t.tExpire, 0);
        Spliced(ns, t, 0);
        assert ns[..0] + [t] + ns[0..] == [t];
        return;
      }
      LinksOf(0);
      var prev := cur.prev;
      ghost var i := 0;
      while cur != null && cur.tExpire < t.tExpire
        invariant 0 <= i <= |nodes|
        invariant cur == if i < |nodes| then nodes[i] else null
        invariant prev == if i > 0 then nodes[i - 1] else null
        invariant forall k :: 0 <= k < i ==> nodes[k].tExpire < t.tExpire
        decreases |nodes| - i
        modifies {}
      {
        LinksOf(i);
        prev := cur;
        cur := cur.next;
        i := i + 1;
      }
      EarlyIs(s, t.tExpire, i);
      Splice(t, prev, cur, i);
      Spliced(ns, t, i);
    }

    method AddTimer(t: ClientTimer)
      requires Valid() && t !in nodes && t !in freed
      requires nodes == [] ==> t.prev == null && t.next == null
      modifies this, nodes`prev, nodes`next, t`prev, t`next
      ensures PutIn(old(Entries()), Entry(t, t.tExpire), Entries())
      ensures Valid() && freed == old(freed) && ops == old(ops) + [Add(t, t.tExpire)]
      ensures Entries() == Insert(old(Entries()), Entry(t, t.tExpire))
    {
      hide Recorded, Linked, Insert, Find, PutIn;
      ghost var s := Entries();
      FindIs(s, t, |nodes|);
      RecordNext(s, ops, Add(t, t.tExpire));
      RecordedSorted(s, ops);
      InsertPuts(s, Entry(t, t.tExpire));
      Link(t);
      ops := ops + [Add(t, t.tExpire)];
    }

    /** Unlink a timer without freeing it. The timer's own links are left as they were. */
    method SoftDelTimer(t: ClientTimer) returns (found: bool)
      requires Linked(head, nodes)
      modifies this`head, this`tail, this`nodes, nodes`prev, nodes`next
      ensures Linked(head, nodes) && found == (t in old(nodes))
      ensures Entries() == Remove(old(Entries()), t)
      ensures t !in nodes && forall n :: n in old(nodes) && n != t ==> n in nodes
      ensures forall n :: n in nodes ==> n in old(nodes)
    {
      ghost var s, ns := Entries(), nodes;
      var cur := head;
      ghost var i := 0;
      while cur != null && cur != t
        invariant 0 <= i <= |nodes|
        invariant cur == if i < |nodes| then nodes[i] else null
        invariant forall k :: 0 <= k < i ==> nodes[k] != t
        decreases |nodes| - i
        modifies {}
      {
        cur := cur.next;
        i := i + 1;
      }
      FindIs(s, t, i);
      if cur == null {
        return false;
      }
      Unsplice(cur, i);
      assert Entries() == s[..i] + s[i + 1..];
      assert forall n :: n in ns <==> n in ns[..i] || n == t || n in ns[i + 1..];
      found := true;
    }

    method Unsplice(cur: ClientTimer, ghost i: nat)
      requires Linked(head, nodes) && i < |nodes| && cur == nodes[i]
      modifies this`head, this`tail, this`nodes, nodes`prev, nodes`next
      ensures nodes == old(nodes[..i] + nodes[i + 1..]) && Linked(head, nodes)
    {
      var curprev, curnext := cur.prev, cur.next;
      if curprev != null {
        curprev.next := curnext;
      } else {
        head := curnext;
      }
      if curnext != null {
        curnext.prev := curprev;
      } else {
        tail := curprev;
      }
      nodes := nodes[..i] + nodes[i + 1..];
    }

    method DelTimer(t: ClientTimer)
      requires Valid()
      modifies this, nodes`prev, nodes`next
      ensures Valid() && ops == old(ops) + [Delete(t)]
      ensures Entries() == Remove(old(Entries()), t)
      ensures TakenOut(old(Entries()), t, Entries())
      ensures freed == old(freed) + if t in old(nodes) then {t} else {}
    {
      hide Recorded, Linked, Remove, TakenOut;
      RecordNext(Entries(), ops, Delete(t));
      RemoveTakes(Entries(), t);
      var found := SoftDelTimer(t);
      if found {
        freed := freed + {t};
      }
      ops := ops + [Delete(t)];
    }

    lemma FoundIffListed(t: ClientTimer)
      ensures Find(Entries(), t) < |nodes| <==> t in nodes
    {
      var n := Find(Entries(), t);
      assert n < |nodes| ==> nodes[n] == t;
      if t in nodes {
        var i :| 0 <= i < |nodes| && nodes[i] == t;
        assert Entries()[i].id == t;
      }
    }

    /** The link part of ChgTimer. */
    method Relink(t: ClientTimer, reset: int)
      requires Linked(head, nodes)
      modifies this`head, this`tail, this`nodes, nodes
      ensures Linked(head, nodes) && Entries() == Change(old(Entries()), t, reset)
      ensures forall n :: n in nodes <==> n in old(nodes)
      ensures t in old(nodes) ==> t.tExpire == reset
    {
      hide Linked, Insert, Find, EntriesOf;
      FoundIffListed(t);
      ghost var ns := nodes;
      var found := SoftDelTimer(t);
      if found {
        assert t in ns && forall i :: 0 <= i < |nodes| ==> nodes[i] in ns;
        Detach(t, reset);
        Link(t);
      }
    }

    /** A timer that is not in the list is given its new expiry and no links. */
    method Detach(t: ClientTimer, reset: int)
      requires Linked(head, nodes) && t !in nodes
      modifies t
      ensures Linked(head, nodes) && Entries() == old(Entries())
      ensures t.tExpire == reset && t.prev == null && t.next == null
    {
      t.tExpire := reset;
      t.prev := null;
      t.next := null;
    }

    method ChgTimer(t: ClientTimer, reset: int)
      requires Valid()
      modifies this, nodes
      ensures Valid() && freed == old(freed) && ops == old(ops) + [Reset(t, reset)]
      ensures Entries() == Change(old(Entries()), t, reset)
      ensures t in old(nodes) ==> t.tExpire == reset
      ensures Moved(old(Entries()), t, reset, Entries())
    {
      hide Recorded, Linked, Change, Moved, EntriesOf;
      ghost var s := Entries();
      RecordNext(s, ops, Reset(t, reset));
      RecordedSorted(s, ops);
      ChangePuts(s, t, reset);
      Relink(t, reset);
      ops := ops + [Reset(t, reset)];
    }

    method PopHead()
      requires Linked(head, nodes) && head != null
      modifies this`head, this`nodes, nodes`prev
      ensures nodes == old(nodes[1..]) && Linked(head, nodes) && Entries() == old(Entries())[1..]
    {
      head := head.next;
      if head != null {
        head.prev := null;
      }
      nodes := nodes[1..];
    }

    /** The loop of TickOnce: every removed timer is handed to its handler, then deleted. */
    method Expire(now: int) returns (expired: seq<ClientTimer>)
      requires Linked(head, nodes)
      modifies this`head, this`nodes, this`freed, nodes`prev
      ensures Linked(head, nodes) && Entries() == Tick(old(Entries()), now)
      ensures |expired| == Early(old(Entries()), now)
      ensures old(nodes) == expired + nodes && forall n :: n in nodes ==> n !in expired
      ensures freed == old(freed) + set n | n in expired
    {
      hide Early, Linked, EntriesOf;
      ghost var s, ns := Entries(), nodes;
      NodesDiffer();
      expired := [];
      ghost var k := 0;
      HeadIs();
      while head != null && head.tExpire < now
        invariant Linked(head, nodes) && head == if nodes == [] then null else nodes[0]
        invariant k <= |ns| && nodes == ns[k..] && expired == ns[..k] && Entries() == s[k..]
        invariant forall i :: 0 <= i < k ==> s[i].expire < now
        invariant freed == old(freed) + set n | n in ns[..k]
        decreases |ns| - k
      {
        var cur := head;
        Next(ns, s, k);
        PopHead();
        HeadIs();
        expired := expired + [cur];  // poll_expire_handler_(client_data_)
        freed := freed + {cur};      // delete
        k := k + 1;
      }
      assert nodes != [] ==> s[k] == Entries()[0];
      EarlyIs(s, now, k);
      Disjoint(ns, k);
    }

    static lemma Next(ns: seq<ClientTimer>, s: seq<Entry<ClientTimer>>, k: nat)
      requires k < |ns| == |s|
      ensures ns[k..][0] == ns[k] && ns[k..][1..] == ns[k + 1..] && ns[..k + 1] == ns[..k] + [ns[k]]
      ensures s[k..][0] == s[k] && s[k..][1..] == s[k + 1..]
    {
    }

    lemma NodesDiffer()
      requires Linked(head, nodes)
      ensures forall i, j :: 0 <= i < j < |nodes| ==> nodes[i] != nodes[j]
    {
    }

    static lemma Disjoint(ns: seq<ClientTimer>, k: nat)
      requires k <= |ns| && forall i, j :: 0 <= i < j < |ns| ==> ns[i] != ns[j]
      ensures ns == ns[..k] + ns[k..] && forall n :: n in ns[k..] ==> n !in ns[..k]
    {
    }

    /** One alarm. `expired` are the timers whose handler was called, in that order. */
    method TickOnce(now: int) returns (expired: seq<ClientTimer>)
      requires Valid()
      modifies this, nodes`prev
      ensures Valid() && ops == old(ops) + [Alarm(now)]
      ensures Entries() == Tick(old(Entries()), now)
      ensures |expired| == Early(old(Entries()), now) && old(nodes) == expired + nodes
      ensures SplitAt(old(Entries()), |expired|, now, Entries())
      ensures freed == old(freed) + set n | n in expired
    {
      hide Recorded, Tick, Linked, Early, SplitAt, EntriesOf;
      ghost var s := Entries();
      RecordNext(s, ops, Alarm(now));
      RecordedSorted(s, ops);
      TickSplits(s, now);
      expired := Expire(now);
      ops := ops + [Alarm(now)];
    }
  }
}
