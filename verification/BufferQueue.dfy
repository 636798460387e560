/**
The IL client's lists of returned buffers. A buffer-done callback appends a header at the end of
its component's list; a get takes the first header of the wanted port. Per port this is a queue
under any interleaving, unless a blocking get repeats its pass with a predecessor that is left
over from an earlier one and finds its buffer at the front.
*/
module BufferQueue {
  import opened Sequences
  import opened Options

  /** The entries of one port, in order. */
  function OfPort<T>(s: seq<T>, port: T -> int, p: int): (r: seq<T>) {
    if |s| == 0 then []
    else OfPort(s[..|s| - 1], port, p) + (if port(s[|s| - 1]) == p then [s[|s| - 1]] else [])
  }

  /** The position of the first entry of a port, or the length. */
  function First<T>(s: seq<T>, port: T -> int, p: int): (i: nat)
    ensures i <= |s| && (i < |s| ==> port(s[i]) == p)
    ensures forall k :: 0 <= k < i ==> port(s[k]) != p
  {
    if |s| == 0 || port(s[0]) == p then 0 else First(s[1..], port, p) + 1
  }

  /** What a pass of a get leaves: the list, the buffer it takes, and its predecessor pointer. */
  datatype Outcome<T> = Outcome(queue: seq<T>, taken: Option<T>, prev: Option<T>)

  /**
  One pass of a get, with the predecessor pointer it starts with. A pointer that is left over makes
  the pass believe that a match at the front has a predecessor: the match stays at the front, and
  its link, which was the only way to the others, is cleared.
  */
  function Attempt<T>(queue: seq<T>, prev: Option<T>, port: T -> int, p: int): (r: Outcome<T>) {
    var i := First(queue, port, p);
    if i == |queue| then Outcome(queue, None, if i == 0 then prev else Some(queue[i - 1]))
    else if i == 0 && prev.Some? then Outcome([queue[0]], Some(queue[0]), prev)
    else Outcome(Drop(queue, i), Some(queue[i]), if i == 0 then None else Some(queue[i - 1]))
  }

  /** A callback, a get without blocking, or a pass of the blocking get of a waiting thread. */
  datatype Op<T> = Done(buffer: T) | Get(port: int) | Pass(waiter: nat, port: int)

  /** The list, the buffers handed out, and the pointers left over in waiting threads. */
  datatype State<T> = State(queue: seq<T>, delivered: seq<T>, left: map<nat, T>)

  function LeftOver<T>(st: State<T>, waiter: nat): (prev: Option<T>) {
    if waiter in st.left then Some(st.left[waiter]) else None
  }

  function Apply<T>(st: State<T>, op: Op<T>, port: T -> int): (r: State<T>) {
    match op
    case Done(b) => st.(queue := st.queue + [b])
    case Get(p) =>
      var r := Attempt(st.queue, None, port, p);
      if r.taken.Some? then st.(queue := r.queue, delivered := st.delivered + [r.taken.value]) else st
    case Pass(w, p) =>
      var r := Attempt(st.queue, LeftOver(st, w), port, p);
      if r.taken.Some? then State(r.queue, st.delivered + [r.taken.value], st.left - {w})
      else if r.prev.Some? then st.(left := st.left[w := r.prev.value])
      else st
  }

  function Run<T>(ops: seq<Op<T>>, port: T -> int): (r: State<T>) {
    if |ops| == 0 then State([], [], map[]) else Apply(Run(ops[..|ops| - 1], port), ops[|ops| - 1], port)
  }

  /** The buffers the component returned, in order. */
  function Returned<T>(ops: seq<Op<T>>): (r: seq<T>) {
    if |ops| == 0 then []
    else With(Returned(ops[..|ops| - 1]), ops[|ops| - 1])
  }

  lemma {:induction false} OfPortConcat<T>(a: seq<T>, b: seq<T>, port: T -> int, p: int)
    ensures OfPort(a + b, port, p) == OfPort(a, port, p) + OfPort(b, port, p)
  {
    if |b| == 0 {
      assert a + b == a;
    } else {
      var b' := b[..|b| - 1];
      assert (a + b)[..|a + b| - 1] == a + b';
      OfPortConcat(a, b', port, p);
    }
  }

  lemma OfPortOne<T>(x: T, port: T -> int, p: int)
    ensures OfPort([x], port, p) == if port(x) == p then [x] else []
  {
    assert [x][..0] == [];
  }

  lemma {:induction false} NoneOfPort<T>(s: seq<T>, port: T -> int, p: int)
    requires forall k :: 0 <= k < |s| ==> port(s[k]) != p
    ensures OfPort(s, port, p) == []
  {
    if |s| > 0 {
      NoneOfPort(s[..|s| - 1], port, p);
    }
  }

  /** Taking out one entry: its port loses it, every other port keeps its order. */
  lemma OfPortDrop<T>(s: seq<T>, i: nat, port: T -> int, p: int)
    requires i < |s|
    ensures port(s[i]) != p ==> OfPort(Drop(s, i), port, p) == OfPort(s, port, p)
    ensures port(s[i]) == p && i == First(s, port, p) ==> OfPort(s, port, p) == [s[i]] + OfPort(Drop(s, i), port, p)
  {
    hide OfPort, First;
    var a, x, b := s[..i], s[i], s[i + 1..];
    assert s == a + ([x] + b);
    OfPortConcat(a, [x] + b, port, p);
    OfPortConcat([x], b, port, p);
    OfPortConcat(a, b, port, p);
    OfPortOne(x, port, p);
    if i == First(s, port, p) {
      NoneOfPort(a, port, p);
    }
  }

  /** What a port delivered and what it still holds are what it returned, in that order. */
  ghost predicate Fifo<T>(st: State<T>, returned: seq<T>, port: T -> int, p: int) {
    OfPort(st.delivered, port, p) + OfPort(st.queue, port, p) == OfPort(returned, port, p)
  }

  /** The step cuts the list: a left-over pointer, and the match at the front. */
  predicate Cuts<T>(st: State<T>, op: Op<T>, port: T -> int) {
    op.Pass? && op.waiter in st.left && |st.queue| > 0 && port(st.queue[0]) == op.port
  }

  /** A callback returns a buffer that is not in the list. */
  predicate Fresh<T(==)>(st: State<T>, op: Op<T>) {
    op.Done? ==> op.buffer !in st.queue
  }

  function With<T>(returned: seq<T>, op: Op<T>): (r: seq<T>) {
    returned + if op.Done? then [op.buffer] else []
  }

  /** A step that does not cut the list takes the oldest buffer of its port, or nothing. */
  lemma TakesOldest<T>(st: State<T>, op: Op<T>, port: T -> int)
    requires !op.Done? && !Cuts(st, op, port)
    ensures var i := First(st.queue, port, op.port);
            var r := Apply(st, op, port);
            if i < |st.queue| then r.queue == Drop(st.queue, i) && r.delivered == st.delivered + [st.queue[i]]
            else r.queue == st.queue && r.delivered == st.delivered
  {
    hide Drop;
  }

  lemma ApplyFifo<T>(st: State<T>, returned: seq<T>, op: Op<T>, port: T -> int, p: int)
    requires Fifo(st, returned, port, p) && !Cuts(st, op, port)
    ensures Fifo(Apply(st, op, port), With(returned, op), port, p)
  {
    hide OfPort, First, Drop, Cuts;
    if op.Done? {
      OfPortConcat(st.queue, [op.buffer], port, p);
      OfPortConcat(returned, [op.buffer], port, p);
    } else {
      hide Apply;
      assert returned + [] == returned;
      TakesOldest(st, op, port);
      var i := First(st.queue, port, op.port);
      if i < |st.queue| {
        var x := st.queue[i];
        OfPortConcat(st.delivered, [x], port, p);
        OfPortOne(x, port, p);
        OfPortDrop(st.queue, i, port, p);
      }
    }
  }

  /** A cut hands out a buffer that stays in the list, so its port is no queue any more. */
  lemma CutsBreak<T>(st: State<T>, returned: seq<T>, op: Op<T>, port: T -> int)
    requires Cuts(st, op, port) && Fifo(st, returned, port, op.port) && Distinct(st.queue)
    ensures !Fifo(Apply(st, op, port), With(returned, op), port, op.port)
  {
    hide OfPort;
    var b, rest, p := st.queue[0], st.queue[1..], op.port;
    assert First(st.queue, port, p) == 0;
    assert Apply(st, op, port).queue == [b] && Apply(st, op, port).delivered == st.delivered + [b];
    assert returned + [] == returned;
    assert st.queue == [b] + rest;
    OfPortConcat([b], rest, port, p);
    OfPortConcat(st.delivered, [b], port, p);
    OfPortOne(b, port, p);
    var d := OfPort(st.delivered, port, p);
    assert (d + [b]) + [b] == d + [b, b];
    if d + [b, b] == d + ([b] + OfPort(rest, port, p)) {
      assert (d + [b, b])[|d| + 1] == b;
      OfPortIn(rest, port, p, 0);
    }
  }

  lemma {:induction false} OfPortIn<T>(s: seq<T>, port: T -> int, p: int, i: nat)
    requires i < |OfPort(s, port, p)|
    ensures OfPort(s, port, p)[i] in s
  {
    if |s| > 0 && i < |OfPort(s[..|s| - 1], port, p)| {
      OfPortIn(s[..|s| - 1], port, p, i);
    }
  }

  predicate Distinct<T(==)>(s: seq<T>) {
    forall i, j :: 0 <= i < j < |s| ==> s[i] != s[j]
  }

  lemma ApplyDistinct<T>(st: State<T>, op: Op<T>, port: T -> int)
    requires Distinct(st.queue) && Fresh(st, op)
    ensures Distinct(Apply(st, op, port).queue)
  {
    hide First;
  }

  /** The run makes sense: no callback returns a buffer that is still in the list. */
  ghost predicate Sound<T>(ops: seq<Op<T>>, port: T -> int) {
    forall k :: 0 <= k < |ops| ==> Fresh(Run(ops[..k], port), ops[k])
  }

  /** No step of the run cuts the list. */
  ghost predicate Uncut<T>(ops: seq<Op<T>>, port: T -> int) {
    forall k :: 0 <= k < |ops| ==> !Cuts(Run(ops[..k], port), ops[k], port)
  }

  lemma Shorter<T>(ops: seq<Op<T>>, port: T -> int)
    requires |ops| > 0
    ensures Uncut(ops, port) <==> Uncut(ops[..|ops| - 1], port)
                                  && !Cuts(Run(ops[..|ops| - 1], port), ops[|ops| - 1], port)
    ensures Sound(ops, port) ==> Sound(ops[..|ops| - 1], port) && Fresh(Run(ops[..|ops| - 1], port), ops[|ops| - 1])
  {
    hide Run, Cuts, Fresh;
    var front := ops[..|ops| - 1];
    assert forall k :: 0 <= k < |front| ==> front[..k] == ops[..k] && front[k] == ops[k];
  }

  /** First in, first out on every port, under any interleaving of returns, gets and passes that cut nothing. */
  lemma {:induction false} RunFifo<T>(ops: seq<Op<T>>, port: T -> int, p: int)
    requires Uncut(ops, port)
    ensures Fifo(Run(ops, port), Returned(ops), port, p)
  {
    hide Apply, Uncut, Cuts;
    if |ops| > 0 {
      var n := |ops| - 1;
      Shorter(ops, port);
      RunFifo(ops[..n], port, p);
      ApplyFifo(Run(ops[..n], port), Returned(ops[..n]), ops[n], port, p);
    }
  }

  lemma {:induction false} RunDistinct<T>(ops: seq<Op<T>>, port: T -> int)
    requires Sound(ops, port)
    ensures Distinct(Run(ops, port).queue)
  {
    hide Apply, Sound, Fresh;
    if |ops| > 0 {
      Shorter(ops, port);
      RunDistinct(ops[..|ops| - 1], port);
      ApplyDistinct(Run(ops[..|ops| - 1], port), ops[|ops| - 1], port);
    }
  }

  /** Every port has been a queue after every step. */
  ghost predicate AlwaysFifo<T>(ops: seq<Op<T>>, port: T -> int) {
    forall k, p :: 0 <= k <= |ops| ==> Fifo(Run(ops[..k], port), Returned(ops[..k]), port, p)
  }

  /** Exactly when the ports are queues throughout a run: no step may cut the list. */
  lemma FifoExactly<T>(ops: seq<Op<T>>, port: T -> int)
    requires Sound(ops, port)
    ensures AlwaysFifo(ops, port) <==> Uncut(ops, port)
  {
    hide Run, Fifo, Cuts, Returned;
    if Uncut(ops, port) {
      forall k, p | 0 <= k <= |ops| ensures Fifo(Run(ops[..k], port), Returned(ops[..k]), port, p) {
        UncutPrefix(ops, port, k);
        RunFifo(ops[..k], port, p);
      }
    } else {
      var k :| 0 <= k < |ops| && Cuts(Run(ops[..k], port), ops[k], port);
      CutStep(ops, port, k);
    }
  }

  lemma UncutPrefix<T>(ops: seq<Op<T>>, port: T -> int, k: nat)
    requires k <= |ops|
    ensures Uncut(ops, port) ==> Uncut(ops[..k], port)
    ensures Sound(ops, port) ==> Sound(ops[..k], port)
  {
    hide Run, Cuts, Fresh;
    assert forall j :: 0 <= j < k ==> ops[..k][..j] == ops[..j] && ops[..k][j] == ops[j];
  }

  lemma CutStep<T>(ops: seq<Op<T>>, port: T -> int, k: nat)
    requires Sound(ops, port) && k < |ops| && Cuts(Run(ops[..k], port), ops[k], port)
    ensures !AlwaysFifo(ops, port)
  {
    hide Apply, Fifo, Sound, Cuts;
    var p := if ops[k].Pass? then ops[k].port else 0;
    UncutPrefix(ops, port, k);
    RunDistinct(ops[..k], port);
    assert ops[..k + 1][..k] == ops[..k];
    CutsPass(Run(ops[..k], port), ops[k], port);
    if AlwaysFifo(ops, port) {
      assert Fifo(Run(ops[..k], port), Returned(ops[..k]), port, p);
      assert Fifo(Run(ops[..k + 1], port), Returned(ops[..k + 1]), port, p);
      CutsBreak(Run(ops[..k], port), Returned(ops[..k]), ops[k], port);
    }
  }

  lemma CutsPass<T>(st: State<T>, op: Op<T>, port: T -> int)
    requires Cuts(st, op, port)
    ensures op.Pass?
  {}

  /** What a caller can see: no pass of a blocking get failed while other ports had buffers in the list. */
  ghost predicate Undisturbed<T>(ops: seq<Op<T>>, port: T -> int) {
    forall k :: 0 <= k < |ops| && ops[k].Pass? ==>
      var queue := Run(ops[..k], port).queue;
      First(queue, port, ops[k].port) == |queue| ==> queue == []
  }

  /** Then nothing is cut. */
  lemma {:induction false} UndisturbedUncut<T>(ops: seq<Op<T>>, port: T -> int)
    requires Undisturbed(ops, port)
    ensures Uncut(ops, port) && Run(ops, port).left == map[]
  {
    hide Run, First, Drop, Uncut, Apply, Cuts;
    if |ops| > 0 {
      var n := |ops| - 1;
      assert forall k :: 0 <= k < n ==> ops[..n][..k] == ops[..k] && ops[..n][k] == ops[k];
      UndisturbedUncut(ops[..n], port);
      Shorter(ops, port);
      LastStep(ops, port);
      QuietStep(Run(ops[..n], port), ops[n], port);
    } else {
      assert ops == [];
      RunStart(port);
      NothingCut(port);
    }
  }

  lemma NothingCut<T>(port: T -> int)
    ensures Uncut([], port)
  {}

  /** Without left-over pointers nothing is cut, and an undisturbed step leaves none. */
  lemma QuietStep<T>(st: State<T>, op: Op<T>, port: T -> int)
    requires st.left == map[]
    requires op.Pass? && First(st.queue, port, op.port) == |st.queue| ==> st.queue == []
    ensures !Cuts(st, op, port) && Apply(st, op, port).left == map[]
  {
    hide First, Drop;
  }

  lemma LastStep<T>(ops: seq<Op<T>>, port: T -> int)
    requires |ops| > 0
    ensures Run(ops, port) == Apply(Run(ops[..|ops| - 1], port), ops[|ops| - 1], port)
  {}

  /** A run that cuts: a waiting get meets another port's buffer, which is taken; then its own comes first. */
  lemma WaitingGetCuts<T>(a: T, b: T, port: T -> int)
    requires port(a) != port(b)
    ensures var run := Run([Done(a), Pass(0, port(b)), Get(port(a)), Done(b), Pass(0, port(b))], port);
            run.queue == [b] && run.delivered == [a, b]
  {
    hide Run, Apply;
    var p, q := port(a), port(b);
    var ops := [Done(a), Pass(0, q), Get(p), Done(b), Pass(0, q)];
    RunStart(port);
    RunStep([], ops[0], port);
    RunStep(ops[..1], ops[1], port);
    RunStep(ops[..2], ops[2], port);
    RunStep(ops[..3], ops[3], port);
    RunStep(ops[..4], ops[4], port);
    assert [] + [ops[0]] == ops[..1] && ops[..1] + [ops[1]] == ops[..2] && ops[..2] + [ops[2]] == ops[..3];
    assert ops[..3] + [ops[3]] == ops[..4] && ops[..4] + [ops[4]] == ops;
    MeetsOther(a, port, q);
    TakenThen(a, b, port);
  }

  /** The failed pass leaves a pointer to the other buffer. */
  lemma MeetsOther<T>(a: T, port: T -> int, q: int)
    requires port(a) != q
    ensures Apply(State([], [], map[]), Done(a), port) == State([a], [], map[])
    ensures Apply(State([a], [], map[]), Pass(0, q), port) == State([a], [], map[0 := a])
  {
    OneBuffer(a, port, q);
  }

  /** The other buffer is taken, the wanted one comes, and the next pass cuts. */
  lemma TakenThen<T>(a: T, b: T, port: T -> int)
    requires port(a) != port(b)
    ensures Apply(State([a], [], map[0 := a]), Get(port(a)), port) == State([], [a], map[0 := a])
    ensures Apply(State([], [a], map[0 := a]), Done(b), port) == State([b], [a], map[0 := a])
    ensures Apply(State([b], [a], map[0 := a]), Pass(0, port(b)), port) == State([b], [a, b], map[])
  {
    OneBuffer(a, port, port(a));
    OneBuffer(b, port, port(b));
  }

  lemma RunStart<T>(port: T -> int)
    ensures Run([], port) == State([], [], map[])
  {}

  lemma RunStep<T>(ops: seq<Op<T>>, op: Op<T>, port: T -> int)
    ensures Run(ops + [op], port) == Apply(Run(ops, port), op, port)
  {
    assert (ops + [op])[..|ops|] == ops;
  }

  lemma OneBuffer<T>(x: T, port: T -> int, p: int)
    ensures First([x], port, p) == if port(x) == p then 0 else 1
    ensures Drop([x], 0) == []
  {}

  lemma DropCounts<T>(s: seq<T>, i: nat)
    requires i < |s|
    ensures multiset(s) == multiset(Drop(s, i)) + multiset{s[i]}
  {
    assert s == s[..i] + [s[i]] + s[i + 1..];
  }

  /** No buffer is lost and none is doubled. */
  lemma {:induction false} RunConserves<T>(ops: seq<Op<T>>, port: T -> int)
    requires Uncut(ops, port)
    ensures var st := Run(ops, port); multiset(st.delivered) + multiset(st.queue) == multiset(Returned(ops))
  {
    hide First, Drop, Uncut, Cuts, Apply;
    if |ops| > 0 {
      var n := |ops| - 1;
      Shorter(ops, port);
      RunConserves(ops[..n], port);
      ConservesStep(Run(ops[..n], port), Returned(ops[..n]), ops[n], port);
    }
  }

  lemma ConservesStep<T>(st: State<T>, returned: seq<T>, op: Op<T>, port: T -> int)
    requires multiset(st.delivered) + multiset(st.queue) == multiset(returned) && !Cuts(st, op, port)
    ensures var r := Apply(st, op, port); multiset(r.delivered) + multiset(r.queue) == multiset(With(returned, op))
  {
    hide First, Drop, Cuts;
    if !op.Done? {
      hide Apply;
      TakesOldest(st, op, port);
      assert returned + [] == returned;
      var i := First(st.queue, port, op.port);
      if i < |st.queue| {
        DropCounts(st.queue, i);
      }
    }
  }

  // ----- the linked list -----

  /** A buffer header; `next` is its pAppPrivate field. */
  class Header {
    const port: int
    var next: Header?

    constructor (port: int)
      ensures this.port == port && next == null
    {
      this.port := port;
      next := null;
    }
  }

  function PortOf(h: Header): (p: int) {
    h.port
  }

  ghost function At(items: seq<Header>, i: nat): (h: Header?) {
    if i < |items| then items[i] else null
  }

  lemma DropFirst(s: seq<Header>, i: nat)
    requires i < |s|
    ensures At(Drop(s, i), 0) == At(s, if i == 0 then 1 else 0)
  {}

  lemma DropNext(s: seq<Header>, i: nat, k: nat)
    requires i < |s| && k < |s| - 1
    ensures var j := if k < i then k else k + 1;
            Drop(s, i)[k] == s[j] && At(Drop(s, i), k + 1) == At(s, if j == i - 1 then j + 2 else j + 1)
  {
    DropAt(s, i, k);
    if k + 1 < |s| - 1 {
      DropAt(s, i, k + 1);
    }
  }

  lemma DropDistinct(s: seq<Header>, i: nat)
    requires i < |s| && forall k, l :: 0 <= k < l < |s| ==> s[k] != s[l]
    ensures forall k, l :: 0 <= k < l < |Drop(s, i)| ==> Drop(s, i)[k] != Drop(s, i)[l]
  {
    hide Drop;
    var r := Drop(s, i);
    forall k, l | 0 <= k < l < |r| ensures r[k] != r[l] {
      DropAt(s, i, k);
      DropAt(s, i, l);
    }
  }

  /** The in_list or out_list of a component. */
  class List {
    var head: Header?
    ghost var items: seq<Header>

    constructor ()
      ensures Valid() && items == []
    {
      head, items := null, [];
    }

    ghost function Nth(i: nat): (h: Header?)
      reads this
    {
      At(items, i)
    }

    ghost predicate Valid()
      reads this, items
    {
      && head == Nth(0)
      && (forall i :: 0 <= i < |items| ==> items[i].next == Nth(i + 1))
      && (forall i, j :: 0 <= i < j < |items| ==> items[i] != items[j])
    }

    /** `ilclient_fill_buffer_done` and `ilclient_empty_buffer_done`: appends at the end. */
    method Done(buffer: Header)
      requires Valid() && buffer !in items
      modifies this, items, buffer
      ensures Valid() && items == old(items) + [buffer]
    {
      if head == null {
        head := buffer;
      } else {
        var list: Header := head;
        ghost var i := 0;
        while list.next != null
          invariant i < |items| && list == items[i]
          decreases |items| - i
        {
          list := list.next;
          i := i + 1;
        }
        list.next := buffer;
      }
      buffer.next := null;
      items := items + [buffer];
    }

    /** The scan for the first header of a port, with the header before it, or what was there at first. */
    method Locate(port: int, prev0: Header?) returns (prev: Header?, ret: Header?, ghost i: nat)
      requires Valid()
      ensures i == First(items, PortOf, port) && ret == Nth(i) && prev == (if i == 0 then prev0 else items[i - 1])
    {
      hide First;
      ret, prev, i := head, prev0, 0;
      while ret != null && ret.port != port
        invariant i <= |items| && ret == Nth(i) && prev == (if i == 0 then prev0 else items[i - 1])
        invariant forall k :: 0 <= k < i ==> items[k].port != port
        decreases |items| - i
      {
        prev := ret;
        ret := ret.next;
        i := i + 1;
      }
      FirstUnique(items, port, i);
    }

    /** Unlinks header i, if `prev` is right; a wrong one in front of the list cuts off the others. */
    method Cut(prev: Header?, ret: Header, ghost i: nat)
      requires Valid() && i < |items| && ret == items[i] && (i > 0 ==> prev == items[i - 1])
      modifies this, items, if prev != null then {prev} else {}
      ensures Valid() && ret.next == null
      ensures items == if i == 0 && prev != null then [ret] else old(Drop(items, i))
    {
      hide Drop;
      ghost var before := items;
      if prev == null {
        head := ret.next;
      } else {
        prev.next := ret.next;
      }
      ret.next := null;
      if i > 0 || prev == null {
        items := Drop(items, i);
        Links(before, i);
      } else {
        items := [ret];
      }
    }

    /** The links of the shortened list, from those of the list before. */
    lemma Links(before: seq<Header>, i: nat)
      requires i < |before| && items == Drop(before, i)
      requires head == At(before, if i == 0 then 1 else 0)
      requires forall k, l :: 0 <= k < l < |before| ==> before[k] != before[l]
      requires forall k :: 0 <= k < |before| && k != i ==>
                 before[k].next == At(before, if k == i - 1 then k + 2 else k + 1)
      ensures Valid()
    {
      hide Drop, At;
      DropFirst(before, i);
      DropDistinct(before, i);
      forall k | 0 <= k < |items| ensures items[k].next == Nth(k + 1) {
        DropNext(before, i, k);
        var j := if k < i then k else k + 1;
        assert items[k] == before[j];
      }
    }

    /**
    One pass of `ilclient_get_output_buffer` and `ilclient_get_input_buffer`, with the predecessor
    pointer that an earlier pass of the same call left over.
    */
    method Pass(port: int, prev0: Header?) returns (ret: Header?, prev: Header?)
      requires Valid()
      modifies this, items, if prev0 != null then {prev0} else {}
      ensures Valid() && (ret != null ==> ret.next == null)
      ensures old(Attempt(items, Pointer(prev0), PortOf, port)) == Outcome(items, Pointer(ret), Pointer(prev))
    {
      hide First, Drop;
      ghost var i;
      prev, ret, i := Locate(port, prev0);
      FirstInside(items, port);
      if ret != null {
        Cut(prev, ret, i);
      }
    }

    /** A get without blocking. */
    method Get(port: int) returns (ret: Header?)
      requires Valid()
      modifies this, items
      ensures Valid()
      ensures var i := old(First(items, PortOf, port));
              if i < |old(items)| then ret == old(items)[i] && items == old(Drop(items, i)) && ret.next == null
              else ret == null && items == old(items)
    {
      hide First, Drop;
      FirstInside(items, port);
      var prev;
      ret, prev := Pass(port, null);
    }
  }

  /** A pointer that may be null. */
  function Pointer(h: Header?): (p: Option<Header>) {
    if h == null then None else Some(h)
  }

  /** A waiting get that meets the buffer of another port first: what it returns is still in the list. */
  method ServeWaiting() returns (list: List, ret: Header?)
    ensures ret != null && ret.port == 1 && list.Valid() && list.items == [ret]
  {
    list := new List();
    var other := new Header(2);
    list.Done(other);
    var none, prev := list.Pass(1, null);
    var taken := list.Get(2);
    var buffer := new Header(1);
    list.Done(buffer);
    ret, prev := list.Pass(1, prev);
  }

  lemma FirstInside(s: seq<Header>, port: int)
    ensures First(s, PortOf, port) <= |s|
  {}

  lemma FirstUnique(s: seq<Header>, port: int, i: nat)
    requires i <= |s| && (i < |s| ==> s[i].port == port) && forall k :: 0 <= k < i ==> s[k].port != port
    ensures First(s, PortOf, port) == i
  {
    assert forall k :: 0 <= k < i ==> PortOf(s[k]) != port;
    assert i < |s| ==> PortOf(s[i]) == port;
  }
}
