/**
What a caller of the IL client sees of the event lists: which record a removal takes, and with which
code a pass of the wait for a command ends after the callbacks.
*/
module IlWaiting {
  import opened EventPool
  import opened IlClient
  import opened Options
  import opened Sequences

  // ----- removing -----

  /** An event with the given type whose data words agree, each unless it is to be ignored. */
  predicate Wanted(ev: Event, kind: Kind, data1: int, ignore1: bool, data2: int, ignore2: bool) {
    ev.kind == kind && (ev.data1 == data1 || ignore1) && (ev.data2 == data2 || ignore2)
  }

  /** A removal takes the first wanted record out of its list and frees it, or changes nothing if there is none. */
  lemma RemoveTakes(p: Pool, c: nat, kind: Kind, data1: int, ignore1: bool, data2: int, ignore2: bool)
    requires c < |p.lists|
    ensures var l := p.lists[c];
            var r := Apply(p, Remove(c, Exact(kind, data1, ignore1, data2, ignore2)));
            || (r == Some(p) && forall i :: 0 <= i < |l| ==> !Wanted(l[i].ev, kind, data1, ignore1, data2, ignore2))
            || exists i ::
                 && 0 <= i < |l| && Wanted(l[i].ev, kind, data1, ignore1, data2, ignore2)
                 && (forall j :: 0 <= j < i ==> !Wanted(l[j].ev, kind, data1, ignore1, data2, ignore2))
                 && r == Some(Pool([l[i].id] + p.free, p.lists[c := l[..i] + l[i + 1..]]))
  {
    var q := Exact(kind, data1, ignore1, data2, ignore2);
    var l := p.lists[c];
    var i := Find(l, q);
    WantedIs(l, q);
    assert i < |l| ==> Wanted(l[i].ev, kind, data1, ignore1, data2, ignore2);
  }

  lemma WantedIs(l: seq<Entry>, q: Query)
    requires q.Exact?
    ensures forall i :: 0 <= i < |l| ==>
              (Matches(q, l[i].ev) <==> Wanted(l[i].ev, q.kind, q.data1, q.ignore1, q.data2, q.ignore2))
  {}

  // ----- the codes of the wait -----

  /** The event ends a wait for the command: its completion, or an error that ended a command. */
  predicate Ends(ev: Event, command: int, data2: int) {
    Completes(ev, command, data2) || Fails(ev)
  }

  predicate Completes(ev: Event, command: int, data2: int) {
    ev == Event(CmdComplete, command, data2)
  }

  predicate Fails(ev: Event) {
    ev.kind == Error && ev.data2 == 1
  }

  /** The first event that ends the wait is at place i. */
  ghost predicate EndsAt(l: seq<Entry>, command: int, data2: int, i: int) {
    0 <= i < |l| && Ends(l[i].ev, command, data2) && forall j :: 0 <= j < i ==> !Ends(l[j].ev, command, data2)
  }

  /** State set, port disable and port enable, the commands that can be waited for. */
  predicate Awaited(command: int) {
    command in {0, 2, 3}
  }

  /** The error of a component that already is in the wanted state, which counts as success. */
  const ALREADY_THERE := 0x8000_1012

  lemma EndsIs(l: seq<Entry>, command: int, data2: int)
    ensures forall i :: 0 <= i < |l| ==>
              (Matches(CommandDone(command, data2), l[i].ev) <==> Ends(l[i].ev, command, data2))
    ensures forall i :: 0 <= i < |l| ==> (Matches(FAILED_COMMAND, l[i].ev) <==> Fails(l[i].ev))
  {}

  /**
  The codes of a pass of the wait: 0 if the first event that ends it is the completion or the error of
  a component that is already there, -1 if it is another error or the command cannot be waited for, -2
  if no event ends it but another component's command failed; otherwise the pass keeps waiting.
  */
  lemma WaitCodes(p: Pool, c: nat, command: int, data2: int, other: Option<nat>)
    requires c < |p.lists| && (other.Some? ==> other.value < |p.lists|)
    ensures var l, r := p.lists[c], WaitResult(p, c, command, data2, other);
            var ended := exists i :: EndsAt(l, command, data2, i);
            var failed := other.Some? &&
              exists j :: 0 <= j < |p.lists[other.value]| && Fails(p.lists[other.value][j].ev);
            && (!Awaited(command) ==> r == Some(-1))
            && (Awaited(command) && ended ==>
                  exists i :: EndsAt(l, command, data2, i) &&
                    r == Some(if Completes(l[i].ev, command, data2) || l[i].ev.data1 == ALREADY_THERE then 0 else -1))
            && (r == Some(-2) <==> Awaited(command) && !ended && failed)
            && (r == None <==> Awaited(command) && !ended && !failed)
  {
    var l := p.lists[c];
    var q := CommandDone(command, data2);
    EndsIs(l, command, data2);
    var i := Find(l, q);
    if i < |l| {
      assert EndsAt(l, command, data2, i);
    } else if other.Some? {
      var m := p.lists[other.value];
      EndsIs(m, command, data2);
      var j := Find(m, FAILED_COMMAND);
      assert j < |m| ==> Fails(m[j].ev);
    }
  }

  /** A pass that reports the other component's failure removes nothing, and neither does one that keeps waiting. */
  lemma NothingRemoved(p: Pool, c: nat, command: int, data2: int, other: Option<nat>)
    requires c < |p.lists| && (other.Some? ==> other.value < |p.lists|) && Awaited(command)
    requires WaitResult(p, c, command, data2, other) in {Some(-2), None}
    ensures Apply(p, Remove(c, CommandDone(command, data2))) == Some(p)
  {}

  /** A pass that ends with 0 or -1 takes out the event that ended it, and no other. */
  lemma EndRemoved(p: Pool, c: nat, command: int, data2: int, i: nat)
    requires c < |p.lists| && EndsAt(p.lists[c], command, data2, i)
    ensures var l := p.lists[c];
            Apply(p, Remove(c, CommandDone(command, data2)))
            == Some(Pool([l[i].id] + p.free, p.lists[c := l[..i] + l[i + 1..]]))
  {
    var l := p.lists[c];
    EndsIs(l, command, data2);
    var k := Find(l, CommandDone(command, data2));
    assert Matches(CommandDone(command, data2), l[i].ev);
    assert k <= i && Ends(l[k].ev, command, data2);
  }

  // ----- what the callbacks make a waiter see -----

  /** The newest event decides: the completion ends a pass with 0, an error with 0 or -1. */
  lemma CallbackSeen(p: Pool, p': Pool, c: nat, ev: Event, command: int, data2: int, other: Option<nat>)
    requires c < |p.lists| && (other.Some? ==> other.value < |p.lists|) && Awaited(command)
    requires Apply(p, Callback(c, ev, false)) == Some(p')
    ensures |p'.lists| == |p.lists|
    ensures ev == Event(CmdComplete, command, data2) ==> WaitResult(p', c, command, data2, other) == Some(0)
    ensures ev.kind == Error && ev.data2 == 1 ==>
              WaitResult(p', c, command, data2, other) == Some(if ev.data1 == ALREADY_THERE then 0 else -1)
  {
    hide Purge, Find;
    assert p'.lists[c][0].ev == ev;
  }

  /** Actions that leave the answer to a waiter on c alone: those elsewhere, and callbacks that do not end its wait. */
  predicate Harmless(a: Action, c: nat, command: int, data2: int) {
    a.c != c || (a.Callback? && (a.masked || !Ends(a.ev, command, data2)))
  }

  lemma HarmlessStep(p: Pool, p': Pool, a: Action, c: nat, command: int, data2: int)
    requires c < |p.lists| && a.c < |p.lists| && Apply(p, a) == Some(p') && Harmless(a, c, command, data2)
    ensures |p'.lists| == |p.lists|
    ensures Found(p'.lists[c], CommandDone(command, data2)) == Found(p.lists[c], CommandDone(command, data2))
  {
    hide Find, Firsts;
    if a.c == c {
      var q := CommandDone(command, data2);
      hide Purge;
      PurgeIs(p.lists[c], 0, p.free);
      FoundFirsts(p.lists[c], q);
      var l' := Purge(p.lists[c], 0, p.free).0;
      assert p.lists[c][..0] == [] && p.lists[c][0..] == p.lists[c];
      assert l' == Firsts(p.lists[c]);
      if !a.masked {
        assert !Matches(q, a.ev);
        assert p'.lists[c][0].ev == a.ev && p'.lists[c][1..] == l';
      } else {
        assert p'.lists[c] == l';
      }
    }
  }

  lemma {:induction false} HarmlessRun(p: Pool, p': Pool, actions: seq<Action>, c: nat, command: int, data2: int)
    requires c < |p.lists|
    requires forall i :: 0 <= i < |actions| ==> actions[i].c < |p.lists| && Harmless(actions[i], c, command, data2)
    requires Run(p, actions) == Some(p')
    ensures |p'.lists| == |p.lists|
    ensures Found(p'.lists[c], CommandDone(command, data2)) == Found(p.lists[c], CommandDone(command, data2))
    decreases |actions|
  {
    hide Apply, Harmless, Find;
    if |actions| > 0 {
      var n := |actions| - 1;
      var q := Run(p, actions[..n]).value;
      HarmlessRun(p, q, actions[..n], c, command, data2);
      HarmlessStep(q, p', actions[n], c, command, data2);
    }
  }

  /**
  After the callback of a command's completion, and whatever happens to other components or is called
  back without ending the wait, a pass of the wait ends with 0.
  */
  lemma CompletionSeen(p: Pool, p1: Pool, p2: Pool, c: nat, command: int, data2: int, other: Option<nat>,
                       actions: seq<Action>)
    requires c < |p.lists| && (other.Some? ==> other.value < |p.lists|) && Awaited(command)
    requires Apply(p, Callback(c, Event(CmdComplete, command, data2), false)) == Some(p1)
    requires forall i :: 0 <= i < |actions| ==> actions[i].c < |p.lists| && Harmless(actions[i], c, command, data2)
    requires Run(p1, actions) == Some(p2)
    ensures |p2.lists| == |p.lists| && WaitResult(p2, c, command, data2, other) == Some(0)
  {
    hide Run, Harmless, Find, Purge;
    HarmlessRun(p1, p2, actions, c, command, data2);
    CallbackSeen(p, p1, c, Event(CmdComplete, command, data2), command, data2, other);
    assert p1.lists[c][0].ev == Event(CmdComplete, command, data2);
  }

  /** The same for an error that ended a command: 0 if the component is already there, -1 otherwise. */
  lemma FailureSeen(p: Pool, p1: Pool, p2: Pool, c: nat, code: int, command: int, data2: int, other: Option<nat>,
                    actions: seq<Action>)
    requires c < |p.lists| && (other.Some? ==> other.value < |p.lists|) && Awaited(command)
    requires Apply(p, Callback(c, Event(Error, code, 1), false)) == Some(p1)
    requires forall i :: 0 <= i < |actions| ==> actions[i].c < |p.lists| && Harmless(actions[i], c, command, data2)
    requires Run(p1, actions) == Some(p2)
    ensures |p2.lists| == |p.lists|
    ensures WaitResult(p2, c, command, data2, other) == Some(if code == ALREADY_THERE then 0 else -1)
  {
    hide Run, Harmless, Find, Purge;
    HarmlessRun(p1, p2, actions, c, command, data2);
    CallbackSeen(p, p1, c, Event(Error, code, 1), command, data2, other);
    assert p1.lists[c][0].ev == Event(Error, code, 1);
  }
}
