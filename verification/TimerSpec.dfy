/** The timer list as a sequence of entries, and what a run of its operations keeps. */
module TimerSpec {

  datatype Entry<T> = Entry(id: T, expire: int)

  ghost predicate Sorted<T>(s: seq<Entry<T>>) {
    forall i, j :: 0 <= i < j < |s| ==> s[i].expire <= s[j].expire
  }

  ghost predicate Distinct<T>(s: seq<Entry<T>>) {
    forall i, j :: 0 <= i < j < |s| ==> s[i].id != s[j].id
  }

  /** How many entries at the front expire before `t`. */
  function Early<T>(s: seq<Entry<T>>, t: int): (n: nat)
    ensures n <= |s|
    ensures forall i :: 0 <= i < n ==> s[i].expire < t
    ensures n < |s| ==> t <= s[n].expire
  {
    if s == [] || t <= s[0].expire then 0 else 1 + Early(s[1..], t)
  }

  function Insert<T>(s: seq<Entry<T>>, e: Entry<T>): seq<Entry<T>> {
    var n := Early(s, e.expire);
    s[..n] + [e] + s[n..]
  }

  /** The position of the entry of `id`, or |s|. */
  function Find<T(==)>(s: seq<Entry<T>>, id: T): (n: nat)
    ensures n <= |s|
    ensures n < |s| ==> s[n].id == id
    ensures forall i :: 0 <= i < n ==> s[i].id != id
  {
    if s == [] || s[0].id == id then 0 else 1 + Find(s[1..], id)
  }

  function Remove<T(==)>(s: seq<Entry<T>>, id: T): seq<Entry<T>> {
    var n := Find(s, id);
    if n == |s| then s else s[..n] + s[n + 1..]
  }

  function Change<T(==)>(s: seq<Entry<T>>, id: T, t: int): seq<Entry<T>> {
    if Find(s, id) == |s| then s else Insert(Remove(s, id), Entry(id, t))
  }

  function Tick<T>(s: seq<Entry<T>>, t: int): seq<Entry<T>> { s[Early(s, t)..] }

  /** The entries a tick hands to the expiry handler, in the order it does. */
  function Fired<T>(s: seq<Entry<T>>, t: int): seq<Entry<T>> { s[..Early(s, t)] }

  lemma EarlyIs<T>(s: seq<Entry<T>>, t: int, n: nat)
    requires n <= |s| && (forall i :: 0 <= i < n ==> s[i].expire < t) && (n < |s| ==> t <= s[n].expire)
    ensures Early(s, t) == n
  {
  }

  lemma FindIs<T>(s: seq<Entry<T>>, id: T, n: nat)
    requires n <= |s| && (n < |s| ==> s[n].id == id) && forall i :: 0 <= i < n ==> s[i].id != id
    ensures Find(s, id) == n
  {
  }

  // ---- The places, entry by entry

  /** `r` is `s` with `e` put in: behind every entry that expires earlier, before every other. */
  ghost predicate PutIn<T>(s: seq<Entry<T>>, e: Entry<T>, r: seq<Entry<T>>) {
    exists n: nat ::
      && n <= |s| && r == s[..n] + [e] + s[n..]
      && (forall i :: 0 <= i < n ==> s[i].expire < e.expire)
      && (forall i :: n <= i < |s| ==> e.expire <= s[i].expire)
  }

  /** `r` is `s` without its entry of `id`, if it has one, in the same order. */
  ghost predicate TakenOut<T>(s: seq<Entry<T>>, id: T, r: seq<Entry<T>>) {
    if exists i :: 0 <= i < |s| && s[i].id == id
    then exists i :: 0 <= i < |s| && s[i].id == id && r == s[..i] + s[i + 1..]
    else r == s
  }

  /** `r` is `s` with its entry of `id`, if it has one, taken out and put in again to expire at `t`. */
  ghost predicate Moved<T>(s: seq<Entry<T>>, id: T, t: int, r: seq<Entry<T>>) {
    if exists i :: 0 <= i < |s| && s[i].id == id
    then exists i :: 0 <= i < |s| && s[i].id == id && PutIn(s[..i] + s[i + 1..], Entry(id, t), r)
    else r == s
  }

  lemma InsertPuts<T>(s: seq<Entry<T>>, e: Entry<T>)
    requires Sorted(s)
    ensures PutIn(s, e, Insert(s, e))
  {
    hide Early;
    var n := Early(s, e.expire);
    assert forall i :: n <= i < |s| ==> e.expire <= s[i].expire;
  }

  lemma RemoveTakes<T>(s: seq<Entry<T>>, id: T)
    ensures TakenOut(s, id, Remove(s, id))
  {
    hide Find;
    var n := Find(s, id);
    assert n < |s| ==> s[n].id == id;
  }

  /** A reset timer is taken out and put in again with its new expiry, before the timers of equal expiry. */
  lemma ChangePuts<T>(s: seq<Entry<T>>, id: T, t: int)
    requires Sorted(s) && Distinct(s)
    ensures Moved(s, id, t, Change(s, id, t))
  {
    hide Find, Insert, PutIn;
    RemoveOrder(s, id);
    InsertPuts(Remove(s, id), Entry(id, t));
    assert Find(s, id) < |s| ==> s[Find(s, id)].id == id;
  }

  /** A tick fires exactly the entries that expire before `t`, earliest first, and keeps exactly the others. */
  lemma TickExact<T>(s: seq<Entry<T>>, t: int)
    requires Sorted(s)
    ensures Fired(s, t) + Tick(s, t) == s && Sorted(Fired(s, t)) && Sorted(Tick(s, t))
    ensures forall e :: e in Fired(s, t) <==> e in s && e.expire < t
    ensures forall e :: e in Tick(s, t) <==> e in s && t <= e.expire
  {
    hide Early;
    var n := Early(s, t);
    assert forall i :: n <= i < |s| ==> t <= s[i].expire;
    assert forall e :: e in s <==> e in s[..n] || e in s[n..];
  }

  /** The first `n` entries of `s` expire before `t`; `r` is the others, and none of them does. */
  ghost predicate SplitAt<T>(s: seq<Entry<T>>, n: nat, t: int, r: seq<Entry<T>>) {
    && n <= |s| && r == s[n..]
    && (forall i :: 0 <= i < n ==> s[i].expire < t)
    && (forall i :: 0 <= i < |r| ==> t <= r[i].expire)
  }

  lemma TickSplits<T>(s: seq<Entry<T>>, t: int)
    requires Sorted(s)
    ensures SplitAt(s, Early(s, t), t, Tick(s, t))
  {
    hide Early;
  }

  // ---- Runs

  datatype Op<T> = Add(id: T, t: int) | Reset(id: T, t: int) | Delete(id: T) | Alarm(t: int)

  function Apply<T(==)>(s: seq<Entry<T>>, op: Op<T>): seq<Entry<T>> {
    match op
    case Add(id, t) => Insert(s, Entry(id, t))
    case Reset(id, t) => Change(s, id, t)
    case Delete(id) => Remove(s, id)
    case Alarm(t) => Tick(s, t)
  }

  /** The same on the expiry times of the live timers, with no list. */
  function Live<T(==)>(m: map<T, int>, op: Op<T>): map<T, int> {
    match op
    case Add(id, t) => m[id := t]
    case Reset(id, t) => if id in m then m[id := t] else m
    case Delete(id) => m - {id}
    case Alarm(t) => map id | id in m && t <= m[id] :: m[id]
  }

  function Run<T(==)>(ops: seq<Op<T>>): seq<Entry<T>> {
    if ops == [] then [] else Apply(Run(ops[..|ops| - 1]), ops[|ops| - 1])
  }

  function LiveRun<T(==)>(ops: seq<Op<T>>): map<T, int> {
    if ops == [] then map[] else Live(LiveRun(ops[..|ops| - 1]), ops[|ops| - 1])
  }

  /** A timer is added only when it is not live. */
  predicate Legal<T(==)>(ops: seq<Op<T>>) {
    ops == [] ||
    (Legal(ops[..|ops| - 1]) && (ops[|ops| - 1].Add? ==> ops[|ops| - 1].id !in LiveRun(ops[..|ops| - 1])))
  }

  ghost predicate Matches<T>(s: seq<Entry<T>>, m: map<T, int>) {
    && (forall i :: 0 <= i < |s| ==> s[i].id in m && m[s[i].id] == s[i].expire)
    && forall id :: id in m ==> Entry(id, m[id]) in s
  }

  ghost predicate Holds<T>(s: seq<Entry<T>>, m: map<T, int>) {
    Sorted(s) && Distinct(s) && Matches(s, m)
  }

  lemma InsertMembers<T>(s: seq<Entry<T>>, e: Entry<T>)
    ensures var r := Insert(s, e);
      && e in r
      && (forall i :: 0 <= i < |s| ==> s[i] in r)
      && (forall i :: 0 <= i < |r| ==> r[i] == e || r[i] in s)
  {
    hide Early;
    var n := Early(s, e.expire);
    var r := Insert(s, e);
    assert r[n] == e;
    forall i | 0 <= i < |s|
      ensures s[i] in r
    {
      assert s[i] == r[if i < n then i else i + 1];
    }
    forall i | 0 <= i < |r|
      ensures r[i] == e || r[i] in s
    {
      assert r[i] == if i < n then s[i] else if i == n then e else s[i - 1];
    }
  }

  lemma InsertSorted<T>(s: seq<Entry<T>>, e: Entry<T>)
    requires Sorted(s)
    ensures Sorted(Insert(s, e))
  {
    hide Early;
    var n := Early(s, e.expire);
    var r := Insert(s, e);
    assert forall i :: n <= i < |s| ==> e.expire <= s[i].expire;
    forall i, j | 0 <= i < j < |r|
      ensures r[i].expire <= r[j].expire
    {
      assert r[i] == if i < n then s[i] else if i == n then e else s[i - 1];
      assert r[j] == if j < n then s[j] else if j == n then e else s[j - 1];
    }
  }

  lemma InsertDistinct<T>(s: seq<Entry<T>>, e: Entry<T>)
    requires Distinct(s) && forall i :: 0 <= i < |s| ==> s[i].id != e.id
    ensures Distinct(Insert(s, e))
  {
    hide Early;
    var n := Early(s, e.expire);
    var r := Insert(s, e);
    forall i, j | 0 <= i < j < |r|
      ensures r[i].id != r[j].id
    {
      assert r[i] == if i < n then s[i] else if i == n then e else s[i - 1];
      assert r[j] == if j < n then s[j] else if j == n then e else s[j - 1];
    }
  }

  lemma InsertHolds<T>(s: seq<Entry<T>>, m: map<T, int>, e: Entry<T>)
    requires Holds(s, m) && e.id !in m
    ensures Holds(Insert(s, e), m[e.id := e.expire])
  {
    hide Insert, Sorted, Distinct;
    InsertMembers(s, e);
    InsertSorted(s, e);
    InsertDistinct(s, e);
    var m' := m[e.id := e.expire];
    var r := Insert(s, e);
    forall id | id in m'
      ensures Entry(id, m'[id]) in r
    {
      assert id != e.id ==> id in m && Entry(id, m[id]) in s;
    }
    assert Matches(r, m');
  }

  lemma RemoveMembers<T>(s: seq<Entry<T>>, id: T)
    requires Distinct(s)
    ensures var r := Remove(s, id);
      && (forall i :: 0 <= i < |r| ==> r[i] in s && r[i].id != id)
      && (forall i :: 0 <= i < |s| && s[i].id != id ==> s[i] in r)
  {
    hide Find;
    var n := Find(s, id);
    var r := Remove(s, id);
    forall i | 0 <= i < |r|
      ensures r[i] in s && r[i].id != id
    {
      assert r[i] == s[if i < n then i else i + 1];
    }
    forall i | 0 <= i < |s| && s[i].id != id
      ensures s[i] in r
    {
      assert s[i] == r[if i < n then i else i - 1];
    }
  }

  lemma RemoveOrder<T>(s: seq<Entry<T>>, id: T)
    requires Sorted(s) && Distinct(s)
    ensures Sorted(Remove(s, id)) && Distinct(Remove(s, id))
  {
    hide Find;
    var n := Find(s, id);
    var r := Remove(s, id);
    if n < |s| {
      assert forall i :: 0 <= i < |r| ==> r[i] == s[if i < n then i else i + 1];
    }
  }

  lemma RemoveHolds<T>(s: seq<Entry<T>>, m: map<T, int>, id: T)
    requires Holds(s, m)
    ensures Holds(Remove(s, id), m - {id})
  {
    hide Remove, Sorted, Distinct;
    RemoveMembers(s, id);
    assert Sorted(s) && Distinct(s);
    RemoveOrder(s, id);
    var m' := m - {id};
    var r := Remove(s, id);
    forall k | k in m'
      ensures Entry(k, m'[k]) in r
    {
      assert k in m && Entry(k, m[k]) in s;
    }
    assert Matches(r, m');
  }

  lemma TickHolds<T>(s: seq<Entry<T>>, m: map<T, int>, t: int)
    requires Holds(s, m)
    ensures Holds(Tick(s, t), map id | id in m && t <= m[id] :: m[id])
  {
    hide Sorted, Early;
    TickExact(s, t);
    var r := Tick(s, t);
    assert forall i :: 0 <= i < |r| ==> r[i] in r;
  }

  /** One operation on the list is the same operation on the live expiry times. */
  lemma StepHolds<T>(s: seq<Entry<T>>, m: map<T, int>, op: Op<T>)
    requires Holds(s, m) && (op.Add? ==> op.id !in m)
    ensures Holds(Apply(s, op), Live(m, op))
  {
    hide Holds, Insert, Remove, Tick, Find;
    match op
    case Add(id, t) => InsertHolds(s, m, Entry(id, t));
    case Delete(id) => RemoveHolds(s, m, id);
    case Alarm(t) => TickHolds(s, m, t);
    case Reset(id, t) =>
      FoundIffLive(s, m, id);
      RemoveHolds(s, m, id);
      if id in m {
        InsertHolds(Remove(s, id), m - {id}, Entry(id, t));
        assert (m - {id})[id := t] == m[id := t];
      }
  }

  lemma FoundIffLive<T>(s: seq<Entry<T>>, m: map<T, int>, id: T)
    requires Holds(s, m)
    ensures Find(s, id) < |s| <==> id in m
  {
    hide Find, Sorted, Distinct;
    var n := Find(s, id);
    assert n < |s| ==> s[n] in s;
    if id in m {
      assert Entry(id, m[id]) in s;
      var i :| 0 <= i < |s| && s[i] == Entry(id, m[id]);
      assert n <= i;
    }
  }

  /** After every legal run the list is sorted, has one entry per live timer, and that entry holds its latest expiry. */
  lemma {:induction false} RunHolds<T>(ops: seq<Op<T>>)
    requires Legal(ops)
    ensures Holds(Run(ops), LiveRun(ops))
  {
    if ops != [] {
      var n := |ops| - 1;
      RunHolds(ops[..n]);
      StepHolds(Run(ops[..n]), LiveRun(ops[..n]), ops[n]);
    }
  }

  lemma RunNext<T>(ops: seq<Op<T>>, op: Op<T>)
    requires Legal(ops) && (op.Add? ==> op.id !in LiveRun(ops))
    ensures Legal(ops + [op]) && Run(ops + [op]) == Apply(Run(ops), op) && LiveRun(ops + [op]) == Live(LiveRun(ops), op)
  {
    assert (ops + [op])[..|ops|] == ops;
  }

  /** A list that is what the calls `ops` say it must be. */
  ghost predicate Recorded<T>(s: seq<Entry<T>>, ops: seq<Op<T>>) {
    Legal(ops) && s == Run(ops) && Holds(s, LiveRun(ops))
  }

  lemma RecordedSorted<T>(s: seq<Entry<T>>, ops: seq<Op<T>>)
    requires Recorded(s, ops)
    ensures Sorted(s) && Distinct(s)
  {
  }

  lemma RecordNext<T>(s: seq<Entry<T>>, ops: seq<Op<T>>, op: Op<T>)
    requires Recorded(s, ops) && (op.Add? ==> Find(s, op.id) == |s|)
    ensures Recorded(Apply(s, op), ops + [op])
  {
    hide Holds, Apply, Find, Live;
    if op.Add? {
      FoundIffLive(s, LiveRun(ops), op.id);
    }
    RunNext(ops, op);
    StepHolds(s, LiveRun(ops), op);
  }

  // ---- How the chat server uses its timers

  const CLIENT_ALIVE_SEC := 9

  /** A timer is created at an accept, touched at a message, discarded at a hang-up; the clock elapses at an alarm. */
  datatype Use<Timer> =
    | Create(timer: Timer, now: int)
    | Touch(timer: Timer, now: int)
    | Discard(timer: Timer)
    | Elapse(now: int)

  function Call<Timer>(u: Use<Timer>): Op<Timer> {
    match u
    case Create(timer, now) => Add(timer, now + CLIENT_ALIVE_SEC)
    case Touch(timer, now) => Reset(timer, now + CLIENT_ALIVE_SEC)
    case Discard(timer) => Delete(timer)
    case Elapse(now) => Alarm(now)
  }

  function Calls<Timer>(us: seq<Use<Timer>>): seq<Op<Timer>> {
    seq(|us|, i requires 0 <= i < |us| => Call(us[i]))
  }

  /** The timers that have neither fired nor been discarded, and when each was last created or touched. */
  function LastTouch<Timer(==)>(us: seq<Use<Timer>>): map<Timer, int> {
    if us == [] then map[]
    else
      var m := LastTouch(us[..|us| - 1]);
      match us[|us| - 1]
      case Create(timer, now) => m[timer := now]
      case Touch(timer, now) => if timer in m then m[timer := now] else m
      case Discard(timer) => m - {timer}
      case Elapse(now) => map t | t in m && now <= m[t] + CLIENT_ALIVE_SEC :: m[t]
  }

  /** No timer is created while it is in use. */
  predicate Lawful<Timer(==)>(us: seq<Use<Timer>>) {
    us == [] ||
    (Lawful(us[..|us| - 1]) && (us[|us| - 1].Create? ==> us[|us| - 1].timer !in LastTouch(us[..|us| - 1])))
  }

  /** The server's calls keep the expiry of every timer in use at its last touch plus the alive time. */
  lemma {:induction false} CallsAreLegal<Timer>(us: seq<Use<Timer>>)
    requires Lawful(us)
    ensures Legal(Calls(us))
    ensures LiveRun(Calls(us)).Keys == LastTouch(us).Keys
    ensures forall t :: t in LastTouch(us) ==> LiveRun(Calls(us))[t] == LastTouch(us)[t] + CLIENT_ALIVE_SEC
  {
    if us != [] {
      var n := |us| - 1;
      CallsAreLegal(us[..n]);
      assert Calls(us)[..n] == Calls(us[..n]);
      assert Calls(us)[n] == Call(us[n]);
      CallStep(LiveRun(Calls(us[..n])), LastTouch(us[..n]), us[n], us);
    }
  }

  lemma CallStep<Timer>(live: map<Timer, int>, touched: map<Timer, int>, u: Use<Timer>, us: seq<Use<Timer>>)
    requires us != [] && u == us[|us| - 1] && touched == LastTouch(us[..|us| - 1])
    requires live.Keys == touched.Keys && forall t :: t in touched ==> live[t] == touched[t] + CLIENT_ALIVE_SEC
    ensures var live' := Live(live, Call(u));
      && live'.Keys == LastTouch(us).Keys
      && forall t :: t in LastTouch(us) ==> live'[t] == LastTouch(us)[t] + CLIENT_ALIVE_SEC
  {
    var live' := Live(live, Call(u));
    assert forall t :: t in live <==> t in touched;
    assert forall t :: t in live' <==> t in LastTouch(us);
  }

  /**
   Over every run an alarm at `now` fires exactly the timers in use that were last touched more than
   CLIENT_ALIVE_SEC before, each once, in the order of their last touch. Which connection the
   handler of a timer then closes is another matter (TimedChat).
   */
  lemma AlarmFires<Timer>(us: seq<Use<Timer>>, now: int)
    requires Lawful(us)
    ensures var fired, touched := Fired(Run(Calls(us)), now), LastTouch(us);
      && (forall t :: (exists e :: e in fired && e.id == t) <==> t in touched && touched[t] + CLIENT_ALIVE_SEC < now)
      && (forall i :: 0 <= i < |fired| ==>
            fired[i].id in touched && fired[i].expire == touched[fired[i].id] + CLIENT_ALIVE_SEC)
      && (forall i, j :: 0 <= i < j < |fired| ==>
            fired[i].id != fired[j].id && touched[fired[i].id] <= touched[fired[j].id])
  {
    hide Run, LastTouch, Lawful, LiveRun, Calls, Legal, Early;
    CallsAreLegal(us);
    RunHolds(Calls(us));
    FiredExact(Run(Calls(us)), LiveRun(Calls(us)), now);
  }

  lemma FiredExact<T>(s: seq<Entry<T>>, m: map<T, int>, t: int)
    requires Holds(s, m)
    ensures var fired := Fired(s, t);
      && (forall id :: (exists e :: e in fired && e.id == id) <==> id in m && m[id] < t)
      && (forall i :: 0 <= i < |fired| ==> fired[i].id in m && fired[i].expire == m[fired[i].id])
      && (forall i, j :: 0 <= i < j < |fired| ==> fired[i].id != fired[j].id && fired[i].expire <= fired[j].expire)
  {
    hide Early;
    TickExact(s, t);
    var fired := Fired(s, t);
    assert forall i :: 0 <= i < |fired| ==> fired[i] in fired;
    forall id | id in m && m[id] < t
      ensures exists e :: e in fired && e.id == id
    {
      assert Entry(id, m[id]) in s;
      assert Entry(id, m[id]) in fired;
    }
  }
}
