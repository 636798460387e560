/**
The IL client's pool of 100 event records as a state machine. Records move between one free
list and the components' event lists; every lock-held section of the source is one action.

`Purge` is the callback's duplicate removal with the source's scan order; `Firsts` says
independently what it leaves.
*/
module EventPool {
  import opened Options
  import opened Sequences

  const NUM_EVENTS := 100

  /** The OpenMAX event types the callback handles; Unused marks a free record. */
  datatype Kind = Unused | CmdComplete | Error | BufferFlag | PortSettingsChanged | Mark | ParamOrConfigChanged

  /** What identifies an event: its type and its two data words. */
  datatype Event = Event(kind: Kind, data1: int, data2: int)

  /** A record on a component's list. */
  datatype Entry = Entry(id: nat, ev: Event)

  datatype Pool = Pool(free: seq<nat>, lists: seq<seq<Entry>>)

  // ----- duplicate removal -----

  /** The inner scan: removes from position j on what equals entry i. */
  function Sweep(l: seq<Entry>, i: nat, j: nat, free: seq<nat>): (r: (seq<Entry>, seq<nat>))
    requires i < j <= |l|
    ensures j <= |r.0| <= |l|
    decreases |l| - j
  {
    if j == |l| then (l, free)
    else if l[j].ev == l[i].ev then Sweep(Drop(l, j), i, j, [l[j].id] + free)
    else Sweep(l, i, j + 1, free)
  }

  /** The outer scan, from entry i on. */
  function Purge(l: seq<Entry>, i: nat, free: seq<nat>): (r: (seq<Entry>, seq<nat>))
    requires i <= |l|
    ensures i <= |r.0| <= |l|
    decreases |l| - i
  {
    if i == |l| then (l, free)
    else
      var (l', free') := Sweep(l, i, i + 1, free);
      Purge(l', i + 1, free')
  }

  function Without(l: seq<Entry>, ev: Event): (r: seq<Entry>)
    ensures |r| <= |l|
  {
    if |l| == 0 then []
    else if l[0].ev == ev then Without(l[1..], ev)
    else [l[0]] + Without(l[1..], ev)
  }

  /** The first occurrence of each event, in order. */
  function Firsts(l: seq<Entry>): (r: seq<Entry>)
    decreases |l|
  {
    if |l| == 0 then [] else [l[0]] + Firsts(Without(l[1..], l[0].ev))
  }

  lemma {:induction false} SweepIs(l: seq<Entry>, i: nat, j: nat, free: seq<nat>)
    requires i < j <= |l|
    ensures Sweep(l, i, j, free).0 == l[..j] + Without(l[j..], l[i].ev)
    decreases |l| - j
  {
    if j < |l| {
      var ev := l[i].ev;
      if l[j].ev == ev {
        var l' := Drop(l, j);
        SweepIs(l', i, j, [l[j].id] + free);
        assert l'[..j] == l[..j];
        assert l'[j..] == l[j..][1..];
      } else {
        SweepIs(l, i, j + 1, free);
        assert l[..j + 1] == l[..j] + [l[j]];
        assert l[j + 1..] == l[j..][1..];
      }
    }
  }

  /** Duplicate removal leaves the first occurrence of every event, in the old order. */
  lemma {:induction false} PurgeIs(l: seq<Entry>, i: nat, free: seq<nat>)
    requires i <= |l|
    ensures Purge(l, i, free).0 == l[..i] + Firsts(l[i..])
    decreases |l| - i
  {
    hide Sweep, Without;
    if i < |l| {
      SweepIs(l, i, i + 1, free);
      var (l', free') := Sweep(l, i, i + 1, free);
      var rest := Without(l[i + 1..], l[i].ev);
      PurgeIs(l', i + 1, free');
      SplitAt(l, i, rest);
    }
  }

  lemma SplitAt(l: seq<Entry>, i: nat, rest: seq<Entry>)
    requires i < |l|
    ensures (l[..i + 1] + rest)[..i + 1] == l[..i] + [l[i]] && (l[..i + 1] + rest)[i + 1..] == rest
    ensures l[i..][0] == l[i] && l[i..][1..] == l[i + 1..]
  {}

  ghost predicate Distinct(l: seq<Entry>) {
    forall i, j :: 0 <= i < j < |l| ==> l[i].ev != l[j].ev
  }

  /** An event that does not occur keeps not occurring. */
  ghost predicate Absent(l: seq<Entry>, ev: Event) {
    forall i :: 0 <= i < |l| ==> l[i].ev != ev
  }

  lemma {:induction false} WithoutAbsent(l: seq<Entry>, ev: Event, other: Event)
    ensures Absent(Without(l, ev), ev)
    ensures Absent(l, other) ==> Absent(Without(l, ev), other)
  {
    if |l| > 0 {
      WithoutAbsent(l[1..], ev, other);
    }
  }

  lemma {:induction false} FirstsAbsent(l: seq<Entry>, ev: Event)
    requires Absent(l, ev)
    ensures Absent(Firsts(l), ev)
    decreases |l|
  {
    if |l| > 0 {
      WithoutAbsent(l[1..], l[0].ev, ev);
      FirstsAbsent(Without(l[1..], l[0].ev), ev);
    }
  }

  lemma {:induction false} FirstsDistinct(l: seq<Entry>)
    ensures Distinct(Firsts(l))
    decreases |l|
  {
    if |l| > 0 {
      var others := Without(l[1..], l[0].ev);
      WithoutAbsent(l[1..], l[0].ev, l[0].ev);
      FirstsAbsent(others, l[0].ev);
      FirstsDistinct(others);
    }
  }

  // ----- searching -----

  /** What `ilclient_remove_event` and the wait for a command look for. */
  datatype Query =
    | Exact(kind: Kind, data1: int, ignore1: bool, data2: int, ignore2: bool)
    | CommandDone(command: int, data2: int)

  predicate Matches(q: Query, ev: Event) {
    match q
    case Exact(kind, data1, ignore1, data2, ignore2) =>
      ev.kind == kind && (ignore1 || ev.data1 == data1) && (ignore2 || ev.data2 == data2)
    case CommandDone(command, data2) =>
      || (ev.kind == CmdComplete && ev.data1 == command && ev.data2 == data2)
      || (ev.kind == Error && ev.data2 == 1)
  }

  /** The position of the first match, or the length of the list. */
  function Find(l: seq<Entry>, q: Query): (i: nat)
    ensures i <= |l| && (i < |l| ==> Matches(q, l[i].ev))
    ensures forall j :: 0 <= j < i ==> !Matches(q, l[j].ev)
  {
    if |l| == 0 || Matches(q, l[0].ev) then 0 else Find(l[1..], q) + 1
  }

  /** The record a search finds. */
  function Found(l: seq<Entry>, q: Query): (r: Option<Entry>)
    ensures r == if Find(l, q) < |l| then Some(l[Find(l, q)]) else None
  {
    if |l| == 0 then None
    else if Matches(q, l[0].ev) then Some(l[0])
    else Found(l[1..], q)
  }

  lemma {:induction false} FoundWithout(l: seq<Entry>, ev: Event, q: Query)
    requires !Matches(q, ev)
    ensures Found(Without(l, ev), q) == Found(l, q)
  {
    hide Find, Matches;
    if |l| > 0 {
      FoundWithout(l[1..], ev, q);
    }
  }

  /** Duplicate removal changes no search: the same record is found as before. */
  lemma {:induction false} FoundFirsts(l: seq<Entry>, q: Query)
    ensures Found(Firsts(l), q) == Found(l, q)
    decreases |l|
  {
    hide Find, Without;
    if |l| > 0 && !Matches(q, l[0].ev) {
      FoundFirsts(Without(l[1..], l[0].ev), q);
      FoundWithout(l[1..], l[0].ev, q);
    }
  }

  // ----- the actions -----

  datatype Action =
    | Callback(c: nat, ev: Event, masked: bool)  // a masked error is dropped
    | Remove(c: nat, q: Query)                   // remove_event, or a wait that finds its event
    | ReturnAll(c: nat)

  /** Pushes the records of a list on the free list, front to back. */
  function PushAll(l: seq<Entry>, free: seq<nat>): (r: seq<nat>) {
    if |l| == 0 then free else PushAll(l[1..], [l[0].id] + free)
  }

  function Countdown(n: nat): (ids: seq<nat>) {
    if n == 0 then [] else [n - 1] + Countdown(n - 1)
  }

  /** `ilclient_init` with a number of components. */
  function Init(components: nat): (p: Pool)
    ensures |p.lists| == components
  {
    Pool(Countdown(NUM_EVENTS), seq(components, _ => []))
  }

  /** One lock-held section. None: the callback's assertion that a free record is left fails. */
  function Apply(p: Pool, a: Action): (r: Option<Pool>)
    requires a.c < |p.lists|
    ensures r.Some? ==> |r.value.lists| == |p.lists|
  {
    var l := p.lists[a.c];
    match a
    case Callback(c, ev, masked) =>
      var (l', free') := Purge(l, 0, p.free);
      if free' == [] then None
      else if masked then Some(Pool(free', p.lists[c := l']))
      else Some(Pool(free'[1..], p.lists[c := [Entry(free'[0], ev)] + l']))
    case Remove(c, q) =>
      var i := Find(l, q);
      if i == |l| then Some(p)
      else Some(Pool([l[i].id] + p.free, p.lists[c := Drop(l, i)]))
    case ReturnAll(c) =>
      Some(Pool(PushAll(l, p.free), p.lists[c := []]))
  }

  /** Any interleaving of actions. */
  function Run(p: Pool, actions: seq<Action>): (r: Option<Pool>)
    requires forall i :: 0 <= i < |actions| ==> actions[i].c < |p.lists|
    ensures r.Some? ==> |r.value.lists| == |p.lists|
  {
    if |actions| == 0 then Some(p)
    else
      var q :- Run(p, actions[..|actions| - 1]);
      Apply(q, actions[|actions| - 1])
  }

  // ----- conservation -----

  function IdSeq(l: seq<Entry>): (ids: seq<nat>)
    ensures |ids| == |l| && forall i :: 0 <= i < |l| ==> ids[i] == l[i].id
  {
    seq(|l|, i requires 0 <= i < |l| => l[i].id)
  }

  function Ids(l: seq<Entry>): (ids: multiset<nat>) {
    multiset(IdSeq(l))
  }

  function Listed(lists: seq<seq<Entry>>): (ids: multiset<nat>) {
    if |lists| == 0 then multiset{} else Ids(lists[0]) + Listed(lists[1..])
  }

  /** All records, wherever they are. */
  function Records(p: Pool): (ids: multiset<nat>) {
    multiset(p.free) + Listed(p.lists)
  }

  lemma IdsPush(e: Entry, l: seq<Entry>)
    ensures Ids([e] + l) == multiset{e.id} + Ids(l)
  {
    assert IdSeq([e] + l) == [e.id] + IdSeq(l);
  }

  lemma IdsDrop(l: seq<Entry>, i: nat)
    requires i < |l|
    ensures Ids(l) == Ids(Drop(l, i)) + multiset{l[i].id}
  {
    var ids := IdSeq(l);
    assert IdSeq(Drop(l, i)) == ids[..i] + ids[i + 1..];
    assert ids == ids[..i] + [ids[i]] + ids[i + 1..];
  }

  lemma {:induction false} ListedUpdate(lists: seq<seq<Entry>>, c: nat, l: seq<Entry>)
    requires c < |lists|
    ensures Listed(lists[c := l]) + Ids(lists[c]) == Listed(lists) + Ids(l)
  {
    hide Ids;
    var rest := lists[1..];
    if c == 0 {
      assert lists[c := l][1..] == rest;
      Reorder(Listed(rest), Ids(l), Ids(lists[0]));
    } else {
      ListedUpdate(rest, c - 1, l);
      assert lists[c := l][1..] == rest[c - 1 := l];
      AddFront(Ids(lists[0]), Listed(rest[c - 1 := l]), Ids(lists[c]), Listed(rest), Ids(l));
    }
  }

  lemma Reorder(a: multiset<nat>, b: multiset<nat>, c: multiset<nat>)
    ensures (b + a) + c == (c + a) + b
  {}

  lemma AddFront(a: multiset<nat>, b: multiset<nat>, c: multiset<nat>, d: multiset<nat>, e: multiset<nat>)
    requires b + c == d + e
    ensures (a + b) + c == (a + d) + e
  {
    assert (a + b) + c == a + (b + c);
    assert (a + d) + e == a + (d + e);
  }

  lemma {:induction false} SweepKeeps(l: seq<Entry>, i: nat, j: nat, free: seq<nat>)
    requires i < j <= |l|
    ensures Ids(Sweep(l, i, j, free).0) + multiset(Sweep(l, i, j, free).1) == Ids(l) + multiset(free)
    decreases |l| - j
  {
    hide Ids;
    if j < |l| {
      if l[j].ev == l[i].ev {
        IdsDrop(l, j);
        SweepKeeps(Drop(l, j), i, j, [l[j].id] + free);
      } else {
        SweepKeeps(l, i, j + 1, free);
      }
    }
  }

  lemma {:induction false} PurgeKeeps(l: seq<Entry>, i: nat, free: seq<nat>)
    requires i <= |l|
    ensures Ids(Purge(l, i, free).0) + multiset(Purge(l, i, free).1) == Ids(l) + multiset(free)
    decreases |l| - i
  {
    hide Ids, Sweep;
    if i < |l| {
      SweepKeeps(l, i, i + 1, free);
      var (l', free') := Sweep(l, i, i + 1, free);
      PurgeKeeps(l', i + 1, free');
    }
  }

  lemma {:induction false} PushAllKeeps(l: seq<Entry>, free: seq<nat>)
    ensures multiset(PushAll(l, free)) == Ids(l) + multiset(free)
  {
    hide Ids;
    if |l| == 0 {
      NoIds();
    } else {
      PushAllKeeps(l[1..], [l[0].id] + free);
      IdsPush(l[0], l[1..]);
      assert l == [l[0]] + l[1..];
    }
  }

  /** Every action keeps the records: none is lost and none is doubled. */
  lemma ApplyKeeps(p: Pool, a: Action)
    requires a.c < |p.lists|
    ensures Apply(p, a).Some? ==> Records(Apply(p, a).value) == Records(p)
  {
    hide Ids, Listed, Purge, Find, PushAll;
    var l := p.lists[a.c];
    match a
    case Callback(c, ev, masked) =>
      PurgeKeeps(l, 0, p.free);
      var (l', free') := Purge(l, 0, p.free);
      if free' != [] {
        ListedUpdate(p.lists, c, l');
        Balance(Listed(p.lists), Listed(p.lists[c := l']), Ids(l), Ids(l'), multiset(p.free), multiset(free'));
        var l'' := [Entry(free'[0], ev)] + l';
        IdsPush(Entry(free'[0], ev), l');
        ListedUpdate(p.lists, c, l'');
        assert free' == [free'[0]] + free'[1..];
        Balance(Listed(p.lists), Listed(p.lists[c := l'']), Ids(l), Ids(l''), multiset(p.free), multiset(free'[1..]));
      }
    case Remove(c, q) =>
      var i := Find(l, q);
      if i < |l| {
        IdsDrop(l, i);
        ListedUpdate(p.lists, c, Drop(l, i));
        Balance(Listed(p.lists), Listed(p.lists[c := Drop(l, i)]), Ids(l), Ids(Drop(l, i)),
                multiset(p.free), multiset([l[i].id] + p.free));
      }
    case ReturnAll(c) =>
      PushAllKeeps(l, p.free);
      NoIds();
      ListedUpdate(p.lists, c, []);
      Balance(Listed(p.lists), Listed(p.lists[c := []]), Ids(l), Ids([]), multiset(p.free),
              multiset(PushAll(l, p.free)));
  }

  /** What one list gives up, the free list gains. */
  lemma Balance(all: multiset<nat>, all': multiset<nat>, list: multiset<nat>, list': multiset<nat>,
                free: multiset<nat>, free': multiset<nat>)
    requires all' + list == all + list' && list' + free' == list + free
    ensures free' + all' == free + all
  {
    forall x ensures (free' + all')[x] == (free + all)[x] {
      assert (all' + list)[x] == (all + list')[x];
      assert (list' + free')[x] == (list + free)[x];
    }
  }

  lemma NoIds()
    ensures Ids([]) == multiset{}
  {}

  // ----- near-uniqueness -----

  /** No event occurs twice behind the head of the list. */
  ghost predicate NearlyDistinct(l: seq<Entry>) {
    |l| > 0 ==> Distinct(l[1..])
  }

  ghost predicate AllNearlyDistinct(p: Pool) {
    forall c :: 0 <= c < |p.lists| ==> NearlyDistinct(p.lists[c])
  }

  lemma ApplyKeepsDistinct(p: Pool, a: Action)
    requires a.c < |p.lists| && AllNearlyDistinct(p)
    ensures Apply(p, a).Some? ==> AllNearlyDistinct(Apply(p, a).value)
  {
    hide Purge, Find, PushAll, Firsts;
    var l := p.lists[a.c];
    assert NearlyDistinct(l);
    match a
    case Callback(c, ev, masked) =>
      PurgeIs(l, 0, p.free);
      var (l', free') := Purge(l, 0, p.free);
      assert l[0..] == l && l[..0] == [];
      assert l' == Firsts(l);
      FirstsDistinct(l);
      if free' != [] {
        assert ([Entry(free'[0], ev)] + l')[1..] == l';
      }
    case Remove(c, q) =>
    case ReturnAll(c) =>
  }

  /** Each of the records is somewhere, exactly once. */
  ghost predicate Conserved(p: Pool) {
    forall x: nat :: Records(p)[x] == if x < NUM_EVENTS then 1 else 0
  }

  lemma {:induction false} CountdownOnce(n: nat, x: nat)
    ensures |Countdown(n)| == n && multiset(Countdown(n))[x] == if x < n then 1 else 0
  {
    if n > 0 {
      CountdownOnce(n - 1, x);
      var rest := Countdown(n - 1);
      assert Countdown(n) == [n - 1] + rest;
      assert multiset([n - 1] + rest) == multiset{n - 1} + multiset(rest);
    }
  }

  lemma {:induction false} NothingListed(components: nat)
    ensures Listed(seq(components, _ => [])) == multiset{}
  {
    if components > 0 {
      NothingListed(components - 1);
      var lists: seq<seq<Entry>> := seq(components, _ => []);
      assert lists[1..] == seq(components - 1, _ => []);
    }
  }

  lemma ConservedSame(p: Pool, p': Pool)
    requires Conserved(p) && Records(p) == Records(p')
    ensures Conserved(p')
  {}

  lemma InitConserves(components: nat)
    ensures Conserved(Init(components))
  {
    hide Countdown, Listed;
    NothingListed(components);
    forall x: nat ensures Records(Init(components))[x] == if x < NUM_EVENTS then 1 else 0 {
      CountdownOnce(NUM_EVENTS, x);
    }
  }

  /**
  Safety over whole runs: after any interleaving of callbacks, removals, waits and returns,
  each of the 100 records is on exactly one list, once, and behind the head of every component
  list no event occurs twice.
  */
  lemma {:induction false} RunInvariant(components: nat, actions: seq<Action>)
    requires forall i :: 0 <= i < |actions| ==> actions[i].c < components
    ensures var r := Run(Init(components), actions);
            r.Some? ==> Conserved(r.value) && AllNearlyDistinct(r.value)
  {
    hide Apply, Init, Records, AllNearlyDistinct;
    if |actions| == 0 {
      InitConserves(components);
      NoneNearlyDistinct(components);
    } else {
      var n := |actions| - 1;
      RunInvariant(components, actions[..n]);
      var before := Run(Init(components), actions[..n]);
      if before.Some? {
        ApplyKeeps(before.value, actions[n]);
        ApplyKeepsDistinct(before.value, actions[n]);
      }
    }
  }

  lemma NoneNearlyDistinct(components: nat)
    ensures AllNearlyDistinct(Init(components))
  {}

  // ----- what conservation means for the lists -----

  /** All list positions hold different records, and no listed record is free. */
  ghost predicate Separate(p: Pool) {
    && (forall i, j :: 0 <= i < j < |p.free| ==> p.free[i] != p.free[j])
    && (forall c, i, j :: 0 <= c < |p.lists| && 0 <= i < j < |p.lists[c]| ==> p.lists[c][i].id != p.lists[c][j].id)
    && (forall c, i, k :: 0 <= c < |p.lists| && 0 <= i < |p.lists[c]| && 0 <= k < |p.free| ==>
        p.lists[c][i].id != p.free[k])
    && (forall c, d, i, j :: 0 <= c < d < |p.lists| && 0 <= i < |p.lists[c]| && 0 <= j < |p.lists[d]| ==>
          p.lists[c][i].id != p.lists[d][j].id)
  }

  lemma CountTwice(s: seq<nat>, i: nat, j: nat)
    requires i < j < |s| && s[i] == s[j]
    ensures multiset(s)[s[i]] >= 2
  {
    assert s == s[..i] + [s[i]] + s[i + 1..];
    assert s[j] == s[i + 1..][j - i - 1];
    assert s[j] in s[i + 1..];
  }

  lemma CountOnce(s: seq<nat>, i: nat)
    requires i < |s|
    ensures multiset(s)[s[i]] >= 1
  {
    assert s[i] in s;
  }

  lemma {:induction false} ListedCounts(lists: seq<seq<Entry>>, c: nat, x: nat)
    requires c < |lists|
    ensures Listed(lists)[x] >= Ids(lists[c])[x]
  {
    hide Ids;
    if c > 0 {
      ListedCounts(lists[1..], c - 1, x);
    }
  }

  lemma {:induction false} ListedCountsTwo(lists: seq<seq<Entry>>, c: nat, d: nat, x: nat)
    requires c < d < |lists|
    ensures Listed(lists)[x] >= Ids(lists[c])[x] + Ids(lists[d])[x]
  {
    hide Ids;
    if c == 0 {
      ListedCounts(lists[1..], d - 1, x);
    } else {
      ListedCountsTwo(lists[1..], c - 1, d - 1, x);
    }
  }

  lemma EntryCounted(p: Pool, c: nat, i: nat)
    requires c < |p.lists| && i < |p.lists[c]|
    ensures Ids(p.lists[c])[p.lists[c][i].id] >= 1 && Listed(p.lists)[p.lists[c][i].id] >= 1
  {
    hide Listed;
    CountOnce(IdSeq(p.lists[c]), i);
    ListedCounts(p.lists, c, p.lists[c][i].id);
  }

  /** Conservation means that no record is on two lists or twice on one, and that all are in the pool. */
  lemma Partition(p: Pool)
    requires Conserved(p)
    ensures Separate(p)
    ensures forall k :: 0 <= k < |p.free| ==> p.free[k] < NUM_EVENTS
    ensures forall c, i :: 0 <= c < |p.lists| && 0 <= i < |p.lists[c]| ==> p.lists[c][i].id < NUM_EVENTS
    ensures forall x: nat :: x < NUM_EVENTS ==> x in p.free || x in Listed(p.lists)
  {
    hide Listed;
    assert forall x: nat :: Records(p)[x] == multiset(p.free)[x] + Listed(p.lists)[x];
    PartitionFree(p);
    PartitionLists(p);
  }

  lemma PartitionFree(p: Pool)
    requires forall x: nat :: multiset(p.free)[x] + Listed(p.lists)[x] <= 1
    ensures forall i, j :: 0 <= i < j < |p.free| ==> p.free[i] != p.free[j]
    ensures forall k :: 0 <= k < |p.free| ==> multiset(p.free)[p.free[k]] == 1
    ensures forall c, i, k :: 0 <= c < |p.lists| && 0 <= i < |p.lists[c]| && 0 <= k < |p.free| ==>
            p.lists[c][i].id != p.free[k]
  {
    hide Listed;
    forall i, j | 0 <= i < j < |p.free| ensures p.free[i] != p.free[j] {
      if p.free[i] == p.free[j] {
        CountTwice(p.free, i, j);
      }
    }
    forall k | 0 <= k < |p.free| ensures multiset(p.free)[p.free[k]] == 1 {
      CountOnce(p.free, k);
    }
    forall c, i, k | 0 <= c < |p.lists| && 0 <= i < |p.lists[c]| && 0 <= k < |p.free|
      ensures p.lists[c][i].id != p.free[k]
    {
      EntryCounted(p, c, i);
    }
  }

  lemma PartitionLists(p: Pool)
    requires forall x: nat :: multiset(p.free)[x] + Listed(p.lists)[x] <= 1
    ensures forall c, i, j :: 0 <= c < |p.lists| && 0 <= i < j < |p.lists[c]| ==> p.lists[c][i].id != p.lists[c][j].id
    ensures forall c, i :: 0 <= c < |p.lists| && 0 <= i < |p.lists[c]| ==> Listed(p.lists)[p.lists[c][i].id] == 1
    ensures forall c, d, i, j :: 0 <= c < d < |p.lists| && 0 <= i < |p.lists[c]| && 0 <= j < |p.lists[d]| ==>
              p.lists[c][i].id != p.lists[d][j].id
  {
    hide Listed;
    forall c, i, j | 0 <= c < |p.lists| && 0 <= i < j < |p.lists[c]| ensures p.lists[c][i].id != p.lists[c][j].id {
      var l := p.lists[c];
      if l[i].id == l[j].id {
        CountTwice(IdSeq(l), i, j);
        ListedCounts(p.lists, c, l[i].id);
      }
    }
    forall c, i | 0 <= c < |p.lists| && 0 <= i < |p.lists[c]| ensures Listed(p.lists)[p.lists[c][i].id] == 1 {
      EntryCounted(p, c, i);
    }
    forall c, d, i, j | 0 <= c < d < |p.lists| && 0 <= i < |p.lists[c]| && 0 <= j < |p.lists[d]|
      ensures p.lists[c][i].id != p.lists[d][j].id
    {
      EntryCounted(p, c, i);
      EntryCounted(p, d, j);
      ListedCountsTwo(p.lists, c, d, p.lists[c][i].id);
    }
  }

  lemma ConservedSize(p: Pool)
    requires Conserved(p)
    ensures |Records(p)| == NUM_EVENTS
  {
    hide Countdown;
    var all := multiset(Countdown(NUM_EVENTS));
    forall x: nat ensures Records(p)[x] == all[x] {
      CountdownOnce(NUM_EVENTS, x);
    }
    assert Records(p) == all;
    CountdownOnce(NUM_EVENTS, 0);
  }

  /**
  When the callback's assertion holds: exactly when the events left after removing the
  component's duplicates do not already use up all the records.
  */
  lemma CallbackPasses(p: Pool, c: nat, ev: Event, masked: bool)
    requires c < |p.lists| && Conserved(p)
    ensures Apply(p, Callback(c, ev, masked)).Some? <==> |Listed(p.lists[c := Firsts(p.lists[c])])| < NUM_EVENTS
  {
    hide Listed, Purge, Firsts, Ids;
    var l := p.lists[c];
    PurgeIs(l, 0, p.free);
    PurgeKeeps(l, 0, p.free);
    var (l', free') := Purge(l, 0, p.free);
    assert l[0..] == l && l[..0] == [];
    assert l' == Firsts(l);
    ListedUpdate(p.lists, c, l');
    Balance(Listed(p.lists), Listed(p.lists[c := l']), Ids(l), Ids(l'), multiset(p.free), multiset(free'));
    ConservedSize(p);
    assert |multiset(free') + Listed(p.lists[c := l'])| == NUM_EVENTS;
    assert |multiset(free')| == |free'|;
  }
}
