/**
The IL client's event lists in the source's form: records of the fixed array `event_rep` linked
by their `next` fields, with one free list and one list per component. A pointer to a record is
its index, NIL is the null pointer. The ghost `pool` is the state of module EventPool that the
links represent; every method is proved to perform the corresponding action.
*/
module IlClient {
  import opened EventPool
  import opened Options
  import opened Sequences

  const NIL := -1

  datatype Record = Record(ev: Event, next: int)

  const UNUSED := Event(Unused, 0, 0)

  /** The code of the error that a component reports when it already is in the wanted state. */
  const SAME_STATE := 0x8000_1012

  /** The commands that can be waited for, numbered as in OpenMAX IL: state set, port disable, port enable. */
  predicate Waitable(command: int) {
    command == 0 || command == 2 || command == 3
  }

  function Link(free: seq<nat>, i: nat): (r: int) {
    if i < |free| then free[i] else NIL
  }

  function EntryLink(l: seq<Entry>, i: nat): (r: int) {
    if i < |l| then l[i].id else NIL
  }

  /** The chain from head runs through the records of `free`. */
  ghost predicate FreeLinked(rep: seq<Record>, head: int, free: seq<nat>) {
    && head == Link(free, 0)
    && forall i :: 0 <= i < |free| ==> free[i] < |rep| && rep[free[i]].next == Link(free, i + 1)
  }

  /** The chain from head runs through the entries of l, which hold their events. */
  ghost predicate ListLinked(rep: seq<Record>, head: int, l: seq<Entry>) {
    && head == EntryLink(l, 0)
    && forall i :: 0 <= i < |l| ==> l[i].id < |rep| && rep[l[i].id] == Record(l[i].ev, EntryLink(l, i + 1))
  }

  ghost predicate Linked(rep: seq<Record>, eventList: int, heads: seq<int>, p: Pool) {
    && |rep| == NUM_EVENTS && |heads| == |p.lists|
    && Conserved(p)
    && FreeLinked(rep, eventList, p.free)
    && forall c :: 0 <= c < |heads| ==> ListLinked(rep, heads[c], p.lists[c])
  }

  // ----- relinking -----

  /** The records after entry j was taken out of its list and put on the free list. */
  function Relinked(rep: seq<Record>, eventList: int, prev: int, cur: nat, ev: Event): (r: seq<Record>)
    requires cur < |rep| && prev < |rep|
    ensures |r| == |rep|
  {
    var rep1 := if 0 <= prev then rep[prev := rep[prev].(next := rep[cur].next)] else rep;
    rep1[cur := Record(ev, eventList)]
  }

  function Prev(l: seq<Entry>, j: nat): (r: int)
    requires j <= |l|
  {
    if j == 0 then NIL else l[j - 1].id
  }

  lemma UnlinkList(rep: seq<Record>, eventList: int, head: int, l: seq<Entry>, j: nat, ev: Event)
    requires j < |l| && ListLinked(rep, head, l)
    requires forall i, k :: 0 <= i < k < |l| ==> l[i].id != l[k].id
    ensures Prev(l, j) < |rep| && l[j].id < |rep|
    ensures ListLinked(Relinked(rep, eventList, Prev(l, j), l[j].id, ev),
                       if j == 0 then EntryLink(l, 1) else head, Drop(l, j))
  {
    assert j > 0 ==> l[j - 1].id < |rep|;
    var l' := Drop(l, j);
    var rep' := Relinked(rep, eventList, Prev(l, j), l[j].id, ev);
    forall i | 0 <= i < |l'| ensures l'[i].id < |rep'| && rep'[l'[i].id] == Record(l'[i].ev, EntryLink(l', i + 1)) {
      UnlinkEntry(rep, eventList, head, l, j, ev, i);
    }
    FirstLeft(l, j);
  }

  lemma FirstLeft(l: seq<Entry>, j: nat)
    requires j < |l|
    ensures EntryLink(Drop(l, j), 0) == if j == 0 then EntryLink(l, 1) else l[0].id
  {}

  /** The record of each entry that is left has its content and links to the next one. */
  lemma UnlinkEntry(rep: seq<Record>, eventList: int, head: int, l: seq<Entry>, j: nat, ev: Event, i: nat)
    requires j < |l| && i < |l| - 1 && ListLinked(rep, head, l)
    requires forall i, k :: 0 <= i < k < |l| ==> l[i].id != l[k].id
    requires Prev(l, j) < |rep| && l[j].id < |rep|
    ensures var l', rep' := Drop(l, j), Relinked(rep, eventList, Prev(l, j), l[j].id, ev);
            l'[i].id < |rep'| && rep'[l'[i].id] == Record(l'[i].ev, EntryLink(l', i + 1))
  {
    hide Drop, Relinked, EntryLink, ListLinked;
    var k := if i < j then i else i + 1;
    EntryLinked(rep, head, l, k);
    EntryLinked(rep, head, l, j);
    DropAt(l, j, i);
    NextLeft(l, j, i, k);
    if j > 0 {
      EntryLinked(rep, head, l, j - 1);
    }
    RelinkedAt(rep, eventList, Prev(l, j), l[j].id, ev, l[k].id);
    assert l[k].id == Prev(l, j) <==> k == j - 1;
  }

  lemma EntryLinked(rep: seq<Record>, head: int, l: seq<Entry>, k: nat)
    requires ListLinked(rep, head, l) && k < |l|
    ensures l[k].id < |rep| && rep[l[k].id] == Record(l[k].ev, EntryLink(l, k + 1))
  {}

  lemma RelinkedAt(rep: seq<Record>, eventList: int, prev: int, cur: nat, ev: Event, x: nat)
    requires cur < |rep| && prev < |rep| && x < |rep| && x != cur
    ensures Relinked(rep, eventList, prev, cur, ev)[x] == if x == prev then rep[x].(next := rep[cur].next) else rep[x]
  {}

  lemma NextLeft(l: seq<Entry>, j: nat, i: nat, k: nat)
    requires j < |l| && i < |l| - 1 && k == (if i < j then i else i + 1)
    ensures EntryLink(Drop(l, j), i + 1) == EntryLink(l, if k == j - 1 then j + 1 else k + 1)
  {
    hide Drop;
    if i + 1 < |l| - 1 {
      DropAt(l, j, i + 1);
    }
  }

  lemma UnlinkFree(rep: seq<Record>, eventList: int, prev: int, cur: nat, ev: Event, free: seq<nat>)
    requires cur < |rep| && prev < |rep| && FreeLinked(rep, eventList, free)
    requires forall k :: 0 <= k < |free| ==> free[k] != cur && free[k] != prev
    ensures FreeLinked(Relinked(rep, eventList, prev, cur, ev), cur, [cur] + free)
  {
    var rep', free' := Relinked(rep, eventList, prev, cur, ev), [cur] + free;
    forall i | 0 <= i < |free'| ensures free'[i] < |rep'| && rep'[free'[i]].next == Link(free', i + 1) {
      if i > 0 {
        assert free'[i] == free[i - 1];
      }
    }
  }

  lemma UnlinkOther(rep: seq<Record>, eventList: int, prev: int, cur: nat, ev: Event, head: int, l: seq<Entry>)
    requires cur < |rep| && prev < |rep| && ListLinked(rep, head, l)
    requires forall k :: 0 <= k < |l| ==> l[k].id != cur && l[k].id != prev
    ensures ListLinked(Relinked(rep, eventList, prev, cur, ev), head, l)
  {}

  /** Taking entry j out of component c's list and freeing its record. */
  lemma UnlinkKeeps(rep: seq<Record>, eventList: int, heads: seq<int>, p: Pool, c: nat, j: nat, ev: Event)
    requires Linked(rep, eventList, heads, p) && c < |heads| && j < |p.lists[c]|
    ensures var l := p.lists[c];
            && Prev(l, j) < |rep| && l[j].id < |rep|
            && Linked(Relinked(rep, eventList, Prev(l, j), l[j].id, ev), l[j].id,
                      if j == 0 then heads[c := rep[l[j].id].next] else heads,
                      Pool([l[j].id] + p.free, p.lists[c := Drop(l, j)]))
  {
    hide Records, Conserved, Listed, Relinked, ListLinked, FreeLinked, Drop;
    var l := p.lists[c];
    var prev, cur := Prev(l, j), l[j].id;
    Partition(p);
    InBounds(rep, eventList, heads, p, c, j);
    UnlinkList(rep, eventList, heads[c], l, j, ev);
    UnlinkFree(rep, eventList, prev, cur, ev, p.free);
    UnlinkRecords(p, c, j);
    var rep' := Relinked(rep, eventList, prev, cur, ev);
    var lists' := p.lists[c := Drop(l, j)];
    ConservedSame(p, Pool([cur] + p.free, lists'));
    var heads' := if j == 0 then heads[c := rep[cur].next] else heads;
    forall d | 0 <= d < |heads'| ensures ListLinked(rep', heads'[d], lists'[d]) {
      if d != c {
        assert forall k :: 0 <= k < |p.lists[d]| ==> p.lists[d][k].id != cur && p.lists[d][k].id != prev;
        UnlinkOther(rep, eventList, prev, cur, ev, heads[d], p.lists[d]);
      }
    }
  }

  lemma UnlinkRecords(p: Pool, c: nat, j: nat)
    requires c < |p.lists| && j < |p.lists[c]|
    ensures Records(Pool([p.lists[c][j].id] + p.free, p.lists[c := Drop(p.lists[c], j)])) == Records(p)
  {
    hide Listed, Ids;
    var l := p.lists[c];
    IdsDrop(l, j);
    ListedUpdate(p.lists, c, Drop(l, j));
    Balance(Listed(p.lists), Listed(p.lists[c := Drop(l, j)]), Ids(l), Ids(Drop(l, j)),
            multiset(p.free), multiset([l[j].id] + p.free));
  }

  class Client {
    const rep: array<Record>   // event_rep
    const heads: array<int>    // the components' lists
    var eventList: int         // event_list, the spare records
    ghost var pool: Pool

    ghost predicate Valid()
      reads this, rep, heads
    {
      && rep.Length == NUM_EVENTS && heads.Length == |pool.lists|
      && Linked(rep[..], eventList, heads[..], pool)
    }

    /** `ilclient_init`, together with the components' empty lists. */
    constructor (components: nat)
      ensures Valid() && fresh(rep) && fresh(heads)
      ensures heads.Length == components && pool == Init(components)
    {
      rep := new Record[NUM_EVENTS](_ => Record(UNUSED, NIL));
      heads := new int[components](_ => NIL);
      eventList := NIL;
      new;
      pool := Init(components);
      Build();
    }

    /** Chains all records into the free list. */
    method Build()
      requires rep.Length == NUM_EVENTS && heads.Length == |pool.lists| && pool == Init(heads.Length)
      requires eventList == NIL && forall c :: 0 <= c < heads.Length ==> heads[c] == NIL
      modifies this`eventList, rep
      ensures Valid()
    {
      hide Records, Conserved, Countdown;
      CountdownNone();
      for i := 0 to NUM_EVENTS
        invariant FreeLinked(rep[..], eventList, Countdown(i))
        modifies this`eventList, rep
      {
        ghost var rep0 := rep[..];
        rep[i] := Record(UNUSED, eventList);
        CountdownLinked(rep0, eventList, i);
        assert rep[..] == rep0[i := Record(UNUSED, eventList)];
        eventList := i;
      }
      InitConserves(heads.Length);
    }

    /** The list surgery shared by removal, waiting and duplicate removal. */
    method Unlink(c: nat, prev: int, cur: int, ghost j: nat)
      requires Valid() && c < heads.Length && j < |pool.lists[c]|
      requires cur == pool.lists[c][j].id && prev == Prev(pool.lists[c], j)
      modifies this, rep, heads
      ensures Valid()
      ensures pool == old(Pool([pool.lists[c][j].id] + pool.free, pool.lists[c := Drop(pool.lists[c], j)]))
    {
      hide Linked, ListLinked, Drop;
      ghost var rep0, heads0, p0 := rep[..], heads[..], pool;
      UnlinkKeeps(rep0, eventList, heads0, pool, c, j, UNUSED);
      InBounds(rep0, eventList, heads0, pool, c, j);
      if prev == NIL {
        heads[c] := rep[cur].next;
      } else {
        rep[prev] := rep[prev].(next := rep[cur].next);
      }
      rep[cur] := Record(UNUSED, eventList);
      eventList := cur;
      pool := Pool([cur] + pool.free, pool.lists[c := Drop(pool.lists[c], j)]);
      assert rep[..] == Relinked(rep0, old(eventList), prev, cur, UNUSED);
      assert heads[..] == if j == 0 then heads0[c := rep0[cur].next] else heads0;
    }

    /** The scan for the first event that matches, with the pointer behind it. */
    method Scan(c: nat, q: Query) returns (prev: int, cur: int, ghost i: nat)
      requires Valid() && c < heads.Length
      ensures i == Find(pool.lists[c], q) && cur == EntryLink(pool.lists[c], i) && prev == Prev(pool.lists[c], i)
      ensures cur != NIL <==> i < |pool.lists[c]|
      ensures cur != NIL ==> 0 <= cur < rep.Length && rep[cur].ev == pool.lists[c][i].ev
    {
      hide Linked, ListLinked, Find, Matches;
      ghost var l := pool.lists[c];
      ListHead(rep[..], eventList, heads[..], pool, c);
      cur, prev, i := heads[c], NIL, 0;
      if |l| > 0 {
        InBounds(rep[..], eventList, heads[..], pool, c, 0);
      }
      while cur != NIL && !Matches(q, rep[cur].ev)
        invariant i <= |l| && cur == EntryLink(l, i) && prev == Prev(l, i)
        invariant cur != NIL <==> i < |l|
        invariant cur != NIL ==> 0 <= cur < rep.Length && rep[cur] == Record(l[i].ev, EntryLink(l, i + 1))
        invariant forall k :: 0 <= k < i ==> !Matches(q, l[k].ev)
        decreases |l| - i
      {
        prev := cur;
        cur := rep[cur].next;
        i := i + 1;
        if i < |l| {
          InBounds(rep[..], eventList, heads[..], pool, c, i);
        }
      }
      FindUnique(l, q, i);
    }

    /** `ilclient_remove_event` */
    method RemoveEvent(c: nat, q: Query) returns (removed: bool)
      requires Valid() && c < heads.Length && q.Exact?
      modifies this, rep, heads
      ensures Valid()
      ensures removed == old(Found(pool.lists[c], q).Some?)
      ensures Some(pool) == old(Apply(pool, Remove(c, q)))
    {
      hide Linked, ListLinked, Find, Drop;
      var prev, cur, i := Scan(c, q);
      removed := cur != NIL;
      if removed {
        Unlink(c, prev, cur, i);
      }
    }

    /** One pass of the wait for a command: whether it is over, and the result it then returns. */
    method TryWait(c: nat, command: int, data2: int, other: Option<nat>) returns (done: bool, result: int)
      requires Valid() && c < heads.Length && (other.Some? ==> other.value < heads.Length)
      modifies this, rep, heads
      ensures Valid()
      ensures Waitable(command) ==> Some(pool) == old(Apply(pool, Remove(c, CommandDone(command, data2))))
      ensures !Waitable(command) ==> pool == old(pool)
      ensures (if done then Some(result) else None) == old(WaitResult(pool, c, command, data2, other))
    {
      hide Linked, ListLinked, Find, Drop;
      if !Waitable(command) {
        return true, -1;
      }
      var q := CommandDone(command, data2);
      var prev, cur, i := Scan(c, q);
      done, result := false, 0;
      if cur != NIL {
        done := true;
        result := if rep[cur].ev.kind == CmdComplete || rep[cur].ev.data1 == SAME_STATE then 0 else -1;
        Unlink(c, prev, cur, i);
      } else if other.Some? {
        var prev', cur', i' := Scan(other.value, FAILED_COMMAND);
        if cur' != NIL {
          done, result := true, -2;
        }
      }
    }

    /** `ilclient_return_events` */
    method ReturnEvents(c: nat)
      requires Valid() && c < heads.Length
      modifies this, rep, heads
      ensures Valid()
      ensures Some(pool) == old(Apply(pool, ReturnAll(c)))
    {
      hide Linked, ListLinked;
      ghost var target := PushAll(pool.lists[c], pool.free);
      ghost var lists := pool.lists;
      ListHead(rep[..], eventList, heads[..], pool, c);
      while heads[c] != NIL
        invariant Valid() && |pool.lists| == |lists| == heads.Length
        invariant PushAll(pool.lists[c], pool.free) == target
        invariant pool.lists == lists[c := pool.lists[c]]
        invariant heads[c] != NIL <==> |pool.lists[c]| > 0
        decreases |pool.lists[c]|
      {
        ListHead(rep[..], eventList, heads[..], pool, c);
        ReturnHead(c);
        ListHead(rep[..], eventList, heads[..], pool, c);
      }
      assert pool.lists[c] == [];
    }

    /** The body of that loop: the head of the list goes to the free list. */
    method ReturnHead(c: nat)
      requires Valid() && c < heads.Length && |pool.lists[c]| > 0
      modifies this, rep, heads
      ensures Valid()
      ensures pool == old(Pool([pool.lists[c][0].id] + pool.free, pool.lists[c := pool.lists[c][1..]]))
    {
      hide Linked, ListLinked, Relinked;
      ghost var rep0, heads0 := rep[..], heads[..];
      ListHead(rep0, eventList, heads0, pool, c);
      InBounds(rep0, eventList, heads0, pool, c, 0);
      var head := heads[c];
      ghost var ev := rep[head].ev;
      UnlinkKeeps(rep0, eventList, heads0, pool, c, 0, ev);
      var next := rep[head].next;
      rep[head] := rep[head].(next := eventList);
      eventList := head;
      heads[c] := next;
      RelinkedHead(rep0, old(eventList), head, ev);
      assert rep[..] == rep0[head := Record(ev, old(eventList))];
      assert heads[..] == heads0[c := next];
      assert Drop(pool.lists[c], 0) == pool.lists[c][1..];
      pool := Pool([pool.lists[c][0].id] + pool.free, pool.lists[c := pool.lists[c][1..]]);
    }

    /** One turn of the callback's inner loop: drops the record behind prev, or steps over it. */
    method SweepTurn(c: nat, event: int, prev: int, ghost i: nat, ghost j: nat) returns (prev': int, ghost j': nat)
      requires Valid() && c < heads.Length && i < j < |pool.lists[c]|
      requires event == pool.lists[c][i].id && prev == pool.lists[c][j - 1].id
      modifies this, rep, heads
      ensures Valid() && heads.Length == |pool.lists| && i < j' <= |pool.lists[c]|
      ensures |pool.lists[c]| - j' < old(|pool.lists[c]|) - j
      ensures prev' == pool.lists[c][j' - 1].id && pool.lists[c][i] == old(pool.lists[c][i])
      ensures pool.lists == old(pool.lists)[c := pool.lists[c]]
      ensures Sweep(pool.lists[c], i, j', pool.free) == old(Sweep(pool.lists[c], i, j, pool.free))
    {
      hide Linked, ListLinked;
      InBounds(rep[..], eventList, heads[..], pool, c, i);
      InBounds(rep[..], eventList, heads[..], pool, c, j - 1);
      InBounds(rep[..], eventList, heads[..], pool, c, j);
      prev', j' := prev, j;
      var cur := rep[prev].next;
      if rep[cur].ev == rep[event].ev {
        Unlink(c, prev, cur, j);
      } else {
        prev', j' := cur, j + 1;
      }
    }

    /** The callback's inner loop: removes the later duplicates of entry i. */
    method SweepList(c: nat, event: int, ghost i: nat)
      requires Valid() && c < heads.Length && i < |pool.lists[c]| && event == pool.lists[c][i].id
      modifies this, rep, heads
      ensures Valid() && |pool.lists| == heads.Length
      ensures old(Sweep(pool.lists[c], i, i + 1, pool.free)) == (pool.lists[c], pool.free)
      ensures pool.lists == old(pool.lists)[c := pool.lists[c]] && i < |pool.lists[c]|
              && pool.lists[c][i] == old(pool.lists[c][i])
    {
      hide Linked, ListLinked;
      ghost var target := Sweep(pool.lists[c], i, i + 1, pool.free);
      ghost var lists, first := pool.lists, pool.lists[c][i];
      ghost var j := i + 1;
      var prev := event;
      InBounds(rep[..], eventList, heads[..], pool, c, i);
      while rep[prev].next != NIL
        invariant Valid() && heads.Length == |pool.lists| && i < j <= |pool.lists[c]|
        invariant prev == pool.lists[c][j - 1].id && 0 <= prev < rep.Length
        invariant rep[prev].next == EntryLink(pool.lists[c], j)
        invariant pool.lists == lists[c := pool.lists[c]] && pool.lists[c][i] == first
        invariant Sweep(pool.lists[c], i, j, pool.free) == target
        decreases |pool.lists[c]| - j
      {
        prev, j := SweepTurn(c, event, prev, i, j);
        InBounds(rep[..], eventList, heads[..], pool, c, j - 1);
      }
    }

    /** The callback's removal of duplicates. */
    method RemoveDuplicates(c: nat)
      requires Valid() && c < heads.Length
      modifies this, rep, heads
      ensures Valid() && |pool.lists| == heads.Length
      ensures old(Purge(pool.lists[c], 0, pool.free)) == (pool.lists[c], pool.free)
      ensures pool.lists == old(pool.lists)[c := pool.lists[c]]
    {
      hide Linked, ListLinked, Sweep;
      ghost var target := Purge(pool.lists[c], 0, pool.free);
      ghost var lists, i := pool.lists, 0;
      ListHead(rep[..], eventList, heads[..], pool, c);
      var event := heads[c];
      while event != NIL
        invariant Valid() && |pool.lists| == |lists| == heads.Length && i <= |pool.lists[c]|
        invariant event == EntryLink(pool.lists[c], i) && (event != NIL <==> i < |pool.lists[c]|)
        invariant pool.lists == lists[c := pool.lists[c]]
        invariant Purge(pool.lists[c], i, pool.free) == target
        decreases |pool.lists[c]| - i
      {
        SweepList(c, event, i);
        InBounds(rep[..], eventList, heads[..], pool, c, i);
        event := rep[event].next;
        i := i + 1;
      }
    }

    /**
    `ilclient_event_handler`, up to the release of the lock. A component's masked errors are
    dropped. The source asserts that a free record is left after the duplicates are removed.
    */
    method EventHandler(c: nat, ev: Event, masked: bool)
      requires Valid() && c < heads.Length
      requires Apply(pool, Callback(c, ev, masked)).Some?
      modifies this, rep, heads
      ensures Valid()
      ensures Some(pool) == old(Apply(pool, Callback(c, ev, masked)))
    {
      hide Linked, ListLinked, Purge;
      RemoveDuplicates(c);
      if !masked {
        ghost var rep0, heads0 := rep[..], heads[..];
        PushKeeps(rep0, eventList, heads0, pool, c, ev);
        var event := eventList;
        eventList := rep[event].next;
        rep[event] := Record(ev, heads[c]);
        heads[c] := event;
        ghost var l := [Entry(event, ev)] + pool.lists[c];
        assert pool.lists[c := l] == old(pool.lists)[c := l];
        pool := Pool(pool.free[1..], pool.lists[c := l]);
        assert rep[..] == rep0[event := Record(ev, heads0[c])];
        assert heads[..] == heads0[c := event];
      }
    }
  }

  /** A failed command on another component. */
  const FAILED_COMMAND := Exact(Error, 0, true, 1, false)

  /** What a pass of the wait returns: success, failure, failure of the other component, or nothing yet. */
  function WaitResult(p: Pool, c: nat, command: int, data2: int, other: Option<nat>): (r: Option<int>)
    requires c < |p.lists| && (other.Some? ==> other.value < |p.lists|)
  {
    if !Waitable(command) then Some(-1)
    else match Found(p.lists[c], CommandDone(command, data2))
    case Some(e) => Some(if e.ev.kind == CmdComplete || e.ev.data1 == SAME_STATE then 0 else -1)
    case None =>
      if other.Some? && Found(p.lists[other.value], FAILED_COMMAND).Some? then Some(-2) else None
  }

  lemma {:induction false} CountdownBelow(n: nat)
    ensures forall k :: 0 <= k < |Countdown(n)| ==> Countdown(n)[k] < n
  {
    if n > 0 {
      CountdownBelow(n - 1);
    }
  }

  lemma CountdownNone()
    ensures Countdown(0) == []
  {}

  lemma CountdownLinked(rep: seq<Record>, eventList: int, n: nat)
    requires n < |rep| && FreeLinked(rep, eventList, Countdown(n))
    ensures FreeLinked(rep[n := Record(UNUSED, eventList)], n, Countdown(n + 1))
  {
    CountdownBelow(n);
    var free := Countdown(n);
    var free', rep' := [n] + free, rep[n := Record(UNUSED, eventList)];
    forall i | 0 <= i < |free'| ensures free'[i] < |rep'| && rep'[free'[i]].next == Link(free', i + 1) {
      if i > 0 {
        assert free'[i] == free[i - 1];
      }
    }
  }

  lemma FindUnique(l: seq<Entry>, q: Query, i: nat)
    requires i <= |l| && (forall k :: 0 <= k < i ==> !Matches(q, l[k].ev)) && (i < |l| ==> Matches(q, l[i].ev))
    ensures Find(l, q) == i
  {}

  lemma ListHead(rep: seq<Record>, eventList: int, heads: seq<int>, p: Pool, c: nat)
    requires Linked(rep, eventList, heads, p) && c < |heads|
    ensures |rep| == NUM_EVENTS && |heads| == |p.lists|
    ensures heads[c] == EntryLink(p.lists[c], 0) && (heads[c] != NIL <==> |p.lists[c]| > 0)
  {
    hide Records, Conserved;
    assert ListLinked(rep, heads[c], p.lists[c]);
  }

  lemma RelinkedHead(rep: seq<Record>, eventList: int, cur: nat, ev: Event)
    requires cur < |rep|
    ensures Relinked(rep, eventList, NIL, cur, ev) == rep[cur := Record(ev, eventList)]
  {}

  /** Putting the first free record at the head of component c's list. */
  lemma PushKeeps(rep: seq<Record>, eventList: int, heads: seq<int>, p: Pool, c: nat, ev: Event)
    requires Linked(rep, eventList, heads, p) && c < |heads| && |p.free| > 0
    ensures 0 <= eventList < |rep| && eventList == p.free[0]
    ensures Linked(rep[eventList := Record(ev, heads[c])], rep[eventList].next, heads[c := eventList],
                   Pool(p.free[1..], p.lists[c := [Entry(eventList, ev)] + p.lists[c]]))
  {
    hide Records, Conserved, Listed, ListLinked;
    Partition(p);
    var event := p.free[0];
    var rep' := rep[event := Record(ev, heads[c])];
    var lists' := p.lists[c := [Entry(event, ev)] + p.lists[c]];
    PushRecords(p, c, ev);
    ConservedSame(p, Pool(p.free[1..], lists'));
    PushFree(rep, eventList, p.free, Record(ev, heads[c]));
    forall d | 0 <= d < |heads| ensures ListLinked(rep', heads[c := event][d], lists'[d]) {
      if d == c {
        PushList(rep, event, ev, heads[c], p.lists[c]);
      } else {
        PushOther(rep, event, Record(ev, heads[c]), heads[d], p.lists[d]);
      }
    }
  }

  lemma PushFree(rep: seq<Record>, eventList: int, free: seq<nat>, record: Record)
    requires |free| > 0 && FreeLinked(rep, eventList, free) && forall i, j :: 0 <= i < j < |free| ==> free[i] != free[j]
    ensures free[0] < |rep| && FreeLinked(rep[free[0] := record], rep[free[0]].next, free[1..])
  {
    var rep', free' := rep[free[0] := record], free[1..];
    forall i | 0 <= i < |free'| ensures free'[i] < |rep'| && rep'[free'[i]].next == Link(free', i + 1) {
      assert free'[i] == free[i + 1];
    }
  }

  lemma PushOther(rep: seq<Record>, event: nat, record: Record, head: int, l: seq<Entry>)
    requires ListLinked(rep, head, l) && event < |rep| && forall k :: 0 <= k < |l| ==> l[k].id != event
    ensures ListLinked(rep[event := record], head, l)
  {}

  lemma PushList(rep: seq<Record>, event: nat, ev: Event, head: int, l: seq<Entry>)
    requires ListLinked(rep, head, l) && event < |rep| && forall k :: 0 <= k < |l| ==> l[k].id != event
    ensures ListLinked(rep[event := Record(ev, head)], event, [Entry(event, ev)] + l)
  {
    var rep', l' := rep[event := Record(ev, head)], [Entry(event, ev)] + l;
    forall i | 0 <= i < |l'| ensures l'[i].id < |rep'| && rep'[l'[i].id] == Record(l'[i].ev, EntryLink(l', i + 1)) {
      if i > 0 {
        assert l'[i] == l[i - 1];
      }
    }
  }

  lemma PushRecords(p: Pool, c: nat, ev: Event)
    requires c < |p.lists| && |p.free| > 0
    ensures Records(Pool(p.free[1..], p.lists[c := [Entry(p.free[0], ev)] + p.lists[c]])) == Records(p)
  {
    hide Listed, Ids;
    var l := p.lists[c];
    var l' := [Entry(p.free[0], ev)] + l;
    IdsPush(Entry(p.free[0], ev), l);
    ListedUpdate(p.lists, c, l');
    assert p.free == [p.free[0]] + p.free[1..];
    Balance(Listed(p.lists), Listed(p.lists[c := l']), Ids(l), Ids(l'), multiset(p.free), multiset(p.free[1..]));
  }

  lemma InBounds(rep: seq<Record>, eventList: int, heads: seq<int>, p: Pool, c: nat, j: nat)
    requires Linked(rep, eventList, heads, p) && c < |heads| && j < |p.lists[c]|
    ensures |rep| == NUM_EVENTS && |heads| == |p.lists| && ListLinked(rep, heads[c], p.lists[c])
    ensures p.lists[c][j].id < |rep| && NIL <= Prev(p.lists[c], j) < |rep|
    ensures j > 0 ==> Prev(p.lists[c], j) != NIL
    ensures rep[p.lists[c][j].id] == Record(p.lists[c][j].ev, EntryLink(p.lists[c], j + 1))
  {
    hide Records, Conserved;
    assert ListLinked(rep, heads[c], p.lists[c]);
    assert j > 0 ==> p.lists[c][j - 1].id < |rep|;
  }
}
