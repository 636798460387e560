/**
Arbitration between sources. A source announces that it is ready or stops; the selector then
starts every ready source unless some source is already running. The functions are the protocol
on the started/ready flags of the registered sources; the classes are the source's form of it.
*/
module SourceSelector {
  datatype Flags = Flags(started: bool, ready: bool)

  /** A source acts, by its place in the list, or a new source is registered. */
  datatype Action = SetReady(i: nat, ready: bool) | Stop(i: nat) | Add

  predicate SomeStarted(ss: seq<Flags>) {
    exists i :: 0 <= i < |ss| && ss[i].started
  }

  predicate NoneReady(ss: seq<Flags>) {
    forall i :: 0 <= i < |ss| ==> !ss[i].ready
  }

  /** `onSourceReady`: nothing if one is running, otherwise every ready source is started. */
  function Notify(ss: seq<Flags>): (r: seq<Flags>)
    ensures |r| == |ss|
    ensures forall i :: 0 <= i < |ss| ==> r[i].ready == ss[i].ready
    ensures forall i :: 0 <= i < |ss| ==> r[i].started == (ss[i].started || (ss[i].ready && !SomeStarted(ss)))
  {
    if SomeStarted(ss) then ss
    else seq(|ss|, i requires 0 <= i < |ss| => Flags(ss[i].started || ss[i].ready, ss[i].ready))
  }

  const OFF := Flags(false, false)

  /** If nobody runs, the notification starts exactly the ready sources. */
  lemma NobodyStarted(ss: seq<Flags>, r: seq<Flags>)
    requires |r| == |ss| && forall k :: 0 <= k < |ss| ==> !ss[k].started
    requires forall k :: 0 <= k < |ss| ==> r[k] == Flags(ss[k].ready, ss[k].ready)
    ensures r == Notify(ss)
  {}

  /** What a source does to its flags before it notifies the selector. */
  function Announce(f: Flags, a: Action): (r: Flags) {
    if a.SetReady? then f.(ready := a.ready) else OFF
  }

  /** The source that acts is registered. */
  predicate ByRegistered(ss: seq<Flags>, a: Action) {
    !a.Add? && a.i < |ss|
  }

  /** A new source is stopped before it is registered; a source that is not registered notifies nobody. */
  function Apply(ss: seq<Flags>, a: Action): (r: seq<Flags>) {
    if a.Add? then ss + [OFF]
    else if a.i < |ss| then Notify(ss[a.i := Announce(ss[a.i], a)])
    else ss
  }

  /** Any run of a selector, sources being registered at any time. */
  function Run(actions: seq<Action>): (r: seq<Flags>) {
    if |actions| == 0 then []
    else Apply(Run(actions[..|actions| - 1]), actions[|actions| - 1])
  }

  predicate Exclusive(ss: seq<Flags>) {
    forall i, j :: 0 <= i < j < |ss| ==> !(ss[i].started && ss[j].started)
  }

  /** No ready source waits while nothing runs. */
  predicate Served(ss: seq<Flags>) {
    SomeStarted(ss) || NoneReady(ss)
  }

  /** After every action a source runs or none is ready. */
  lemma {:induction false} RunServed(actions: seq<Action>)
    ensures Served(Run(actions))
  {
    hide Served;
    if |actions| == 0 {
      NothingServed();
    } else {
      RunServed(actions[..|actions| - 1]);
      StepServed(Run(actions[..|actions| - 1]), actions[|actions| - 1]);
    }
  }

  lemma NothingServed()
    ensures Served([])
  {}

  lemma StepServed(ss: seq<Flags>, a: Action)
    requires Served(ss)
    ensures Served(Apply(ss, a))
  {
    if ByRegistered(ss, a) {
      NotifyServes(ss[a.i := Announce(ss[a.i], a)]);
    } else if a.Add? && SomeStarted(ss) {
      var i :| 0 <= i < |ss| && ss[i].started;
      assert Apply(ss, a)[i].started;
    }
  }

  lemma NotifyServes(ss: seq<Flags>)
    ensures Served(Notify(ss))
  {
    var r := Notify(ss);
    if SomeStarted(ss) {
      var i :| 0 <= i < |ss| && ss[i].started;
      assert r[i].started;
    } else if !NoneReady(ss) {
      var i :| 0 <= i < |ss| && ss[i].ready;
      assert r[i].started;
    }
  }

  /** Two sources other than the one that acts are waiting. */
  predicate TwoWaiting(ss: seq<Flags>, i: nat) {
    exists j, k :: 0 <= j < k < |ss| && j != i && k != i && ss[j].ready && ss[k].ready
  }

  /** The running source stops while two others wait. */
  predicate Clash(ss: seq<Flags>, a: Action) {
    a.Stop? && a.i < |ss| && ss[a.i].started && TwoWaiting(ss, a.i)
  }

  /**
  Exactly when a step keeps the sources exclusive: all do, except the stop of the running source
  while two others wait, which starts both.
  */
  lemma StepExclusive(ss: seq<Flags>, a: Action)
    requires Exclusive(ss) && Served(ss)
    ensures Exclusive(Apply(ss, a)) <==> !Clash(ss, a)
  {
    if ByRegistered(ss, a) {
      var before := ss[a.i := Announce(ss[a.i], a)];
      var after := Apply(ss, a);
      if SomeStarted(before) {
        var s :| 0 <= s < |ss| && before[s].started;
        assert ss[s].started;
        assert after == before;
      } else {
        OnlyActingWasStarted(ss, a);
        if Clash(ss, a) {
          var j, k :| 0 <= j < k < |ss| && j != a.i && k != a.i && ss[j].ready && ss[k].ready;
          assert after[j].started && after[k].started;
        } else {
          NotTwoReady(ss, a);
        }
      }
    }
  }

  lemma OnlyActingWasStarted(ss: seq<Flags>, a: Action)
    requires ByRegistered(ss, a) && !SomeStarted(ss[a.i := Announce(ss[a.i], a)])
    ensures forall i :: 0 <= i < |ss| && i != a.i ==> !ss[i].started
    ensures ss[a.i].started ==> a.Stop?
  {
    var before := ss[a.i := Announce(ss[a.i], a)];
    forall i | 0 <= i < |ss| && i != a.i ensures !ss[i].started {
      assert !before[i].started;
    }
    assert !before[a.i].started;
  }

  lemma NotTwoReady(ss: seq<Flags>, a: Action)
    requires ByRegistered(ss, a) && Served(ss) && !SomeStarted(ss[a.i := Announce(ss[a.i], a)]) && !Clash(ss, a)
    ensures Exclusive(Apply(ss, a))
  {
    OnlyActingWasStarted(ss, a);
    var after := Apply(ss, a);
    forall j, k | 0 <= j < k < |ss| ensures !(after[j].started && after[k].started) {
      assert ss[a.i].started || !SomeStarted(ss);
    }
  }

  /** In every state of the run at most one source runs. */
  ghost predicate AlwaysExclusive(actions: seq<Action>) {
    forall k :: 0 <= k <= |actions| ==> Exclusive(Run(actions[..k]))
  }

  /** Exactly when at most one source runs throughout: no step of the run may be a clash. */
  lemma {:induction false} RunExclusive(actions: seq<Action>)
    ensures AlwaysExclusive(actions) <==> forall k :: 0 <= k < |actions| ==> !Clash(Run(actions[..k]), actions[k])
  {
    hide Run, Exclusive, Clash;
    if |actions| == 0 {
      assert actions[..0] == [];
      RunStart();
      NothingExclusive();
    } else {
      var n := |actions| - 1;
      var front := actions[..n];
      RunExclusive(front);
      assert forall k :: 0 <= k <= n ==> front[..k] == actions[..k];
      assert forall k :: 0 <= k < n ==> front[k] == actions[k];
      assert front[..n] == front && actions[..n + 1] == actions == front + [actions[n]];
      RunServed(front);
      RunStep(front, actions[n]);
      assert AlwaysExclusive(actions) <==> AlwaysExclusive(front) && Exclusive(Run(actions));
      if Exclusive(Run(front)) {
        StepExclusive(Run(front), actions[n]);
      }
    }
  }

  lemma NothingExclusive()
    ensures Exclusive([])
  {}

  /** With at most two sources, registered at any time, at most one runs in every reachable state. */
  lemma {:induction false} TwoSourcesExclusive(actions: seq<Action>)
    requires |Run(actions)| <= 2
    ensures Exclusive(Run(actions))
  {
    if |actions| > 0 {
      var m := |actions| - 1;
      TwoSourcesExclusive(actions[..m]);
      RunServed(actions[..m]);
      StepExclusive(Run(actions[..m]), actions[m]);
    }
  }

  /** With three sources two can run: the first stops while the others wait. */
  lemma ThreeSourcesClash()
    ensures var run := Run([Add, SetReady(0, true), Add, SetReady(1, true), Add, SetReady(2, true), Stop(0)]);
            |run| == 3 && run[1].started && run[2].started
  {
    hide Run, Apply;
    var a0, a1, a2, a3 := SetReady(0, true), SetReady(1, true), SetReady(2, true), Stop(0);
    RunStart();
    FirstTwo();
    LastTwo();
    RunStep([], Add);
    assert [] + [Add] == [Add];
    RunStep([Add], a0);
    RunStep([Add] + [a0], Add);
    RunStep([Add] + [a0] + [Add], a1);
    RunStep([Add] + [a0] + [Add] + [a1], Add);
    RunStep([Add] + [a0] + [Add] + [a1] + [Add], a2);
    RunStep([Add] + [a0] + [Add] + [a1] + [Add] + [a2], a3);
    assert [Add] + [a0] + [Add] + [a1] + [Add] + [a2] + [a3] == [Add, a0, Add, a1, Add, a2, a3];
  }

  const ON := Flags(true, true)
  const WAITS := Flags(false, true)

  lemma FirstTwo()
    ensures Apply([], Add) == [OFF] && Apply([OFF], SetReady(0, true)) == [ON]
    ensures Apply([ON], Add) == [ON, OFF] && Apply([ON, OFF], SetReady(1, true)) == [ON, WAITS]
  {
    assert !SomeStarted([OFF][0 := WAITS]);
    assert [ON, OFF][1 := WAITS][0].started;
  }

  lemma LastTwo()
    ensures Apply([ON, WAITS], Add) == [ON, WAITS, OFF]
    ensures Apply([ON, WAITS, OFF], SetReady(2, true)) == [ON, WAITS, WAITS]
    ensures Apply([ON, WAITS, WAITS], Stop(0)) == [OFF, ON, ON]
  {
    assert [ON, WAITS, OFF][2 := WAITS][0].started;
    assert !SomeStarted([ON, WAITS, WAITS][0 := OFF]);
  }

  lemma RunStart()
    ensures Run([]) == []
  {}

  lemma RunStep(actions: seq<Action>, a: Action)
    ensures Run(actions + [a]) == Apply(Run(actions), a)
  {
    assert (actions + [a])[..|actions|] == actions;
  }

  // ----- the classes -----

  /** The flags of a list of sources after one of them, wherever it is listed, got new flags. */
  ghost function Updated(ss: seq<Flags>, sources: seq<Source>, s: Source, f: Flags): (r: seq<Flags>)
    requires |ss| == |sources|
    ensures |r| == |ss| && forall i :: 0 <= i < |ss| ==> r[i] == if sources[i] == s then f else ss[i]
  {
    seq(|ss|, i requires 0 <= i < |ss| => if sources[i] == s then f else ss[i])
  }

  /** The source is listed at place i and nowhere else. */
  ghost predicate Once(sources: seq<Source>, s: Source, i: int) {
    0 <= i < |sources| && sources[i] == s && forall j :: 0 <= j < |sources| && j != i ==> sources[j] != s
  }

  /** For a source that is listed once, that is the update the protocol makes. */
  lemma UpdatedOnce(ss: seq<Flags>, sources: seq<Source>, i: nat, f: Flags)
    requires |ss| == |sources| && i < |sources| && Once(sources, sources[i], i)
    ensures Updated(ss, sources, sources[i], f) == ss[i := f]
  {}

  /** `Source`, reduced to the flags the selector reacts to. */
  class Source {
    var isStarted: bool
    var isReady: bool
    var isControlled: bool
    var callback: Selector?

    constructor ()
      ensures isStarted && !isReady && !isControlled && callback == null
    {
      isStarted, isReady, isControlled, callback := true, false, false, null;
    }

    method Start()
      modifies this`isStarted
      ensures isStarted
    {
      isStarted := true;
    }

    /** The sources that a notification by this one can start. */
    ghost function Reached(): (ss: seq<Source>)
      reads this, callback
    {
      if callback != null then callback.sources else []
    }

    /** `setReady`: the flag, then the callback if there is one. */
    method SetReady(ready: bool)
      modifies this`isReady, Reached()`isStarted
      ensures isReady == ready && (this !in Reached() ==> isStarted == old(isStarted))
      ensures callback != null ==>
                callback.View() == old(Notify(Updated(callback.View(), callback.sources, this,
                                                      Flags(isStarted, ready))))
      ensures callback != null ==> forall i :: Once(callback.sources, this, i) ==>
                callback.View() == old(Apply(callback.View(), Action.SetReady(i, ready)))
    {
      if callback != null {
        ghost var view, sources, flags := callback.View(), callback.sources, Flags(isStarted, ready);
        forall i | Once(sources, this, i)
          ensures Notify(Updated(view, sources, this, flags)) == Apply(view, Action.SetReady(i, ready))
        {
          UpdatedOnce(view, sources, i, flags);
        }
      }
      isReady := ready;
      if callback != null {
        assert callback.View() == old(Updated(callback.View(), callback.sources, this, Flags(isStarted, ready)));
        callback.OnSourceReady();
      }
    }

    /** `stop`: no longer started, then not ready. */
    method Stop()
      modifies this`isStarted, this`isReady, Reached()`isStarted
      ensures !isReady && !isStarted
      ensures callback != null ==> callback.View() == old(Notify(Updated(callback.View(), callback.sources, this, OFF)))
      ensures callback != null ==> forall i :: Once(callback.sources, this, i) ==>
                callback.View() == old(Apply(callback.View(), Action.Stop(i)))
    {
      if callback != null {
        ghost var view, sources := callback.View(), callback.sources;
        forall i | Once(sources, this, i)
          ensures Notify(Updated(view, sources, this, OFF)) == Apply(view, Action.Stop(i))
        {
          UpdatedOnce(view, sources, i, OFF);
        }
      }
      isStarted := false;
      if callback != null {
        assert Updated(callback.View(), callback.sources, this, OFF)
            == old(Updated(callback.View(), callback.sources, this, OFF));
      }
      SetReady(false);
      if this in Reached() {
        var i :| 0 <= i < |callback.sources| && callback.sources[i] == this;
        assert callback.View()[i] == Flags(isStarted, isReady);
      }
    }
  }

  /** `SourceSelector` */
  class Selector {
    var sources: seq<Source>

    constructor ()
      ensures sources == []
    {
      sources := [];
    }

    ghost function View(): (ss: seq<Flags>)
      reads this, sources
      ensures |ss| == |sources|
      ensures forall i :: 0 <= i < |sources| ==> ss[i] == Flags(sources[i].isStarted, sources[i].isReady)
    {
      seq(|sources|,
          i requires 0 <= i < |sources| reads this, sources => Flags(sources[i].isStarted, sources[i].isReady))
    }

    /** `onSourceReady` */
    method OnSourceReady()
      modifies sources`isStarted
      ensures View() == old(Notify(View()))
    {
      for i := 0 to |sources|
        invariant forall k :: 0 <= k < i ==> !sources[k].isStarted
        invariant unchanged(sources)
      {
        if sources[i].isStarted {
          assert View()[i].started;
          return;
        }
      }
      ghost var before := View();
      assert forall k :: 0 <= k < |sources| ==> !before[k].started;
      for i := 0 to |sources|
        invariant forall k :: 0 <= k < i && sources[k].isReady ==> sources[k].isStarted
        invariant forall k :: 0 <= k < |sources| && sources[k].isStarted ==> sources[k].isReady
      {
        if sources[i].isReady {
          sources[i].Start();
        }
      }
      NobodyStarted(before, View());
    }

    /**
    `addSource`: the source is stopped, which notifies the selector it was registered with before, if
    any, and then registered here.
    */
    method AddSource(source: Source)
      modifies this, source, source.Reached()`isStarted
      ensures sources == old(sources) + [source] && source.callback == this && source.isControlled
      ensures View()[|old(sources)|] == OFF
      ensures old(source.callback) == null ==>
                View()[..|old(sources)|] == old(Updated(View(), sources, source, OFF))
      ensures old(source.callback) == this ==>
                View()[..|old(sources)|] == old(Notify(Updated(View(), sources, source, OFF)))
      ensures old(source.callback) == null && source !in old(sources) ==> View() == old(Apply(View(), Add))
    {
      source.Stop();
      ghost var before := View();
      source.isControlled := true;
      source.callback := this;
      sources := sources + [source];
      assert View()[..|old(sources)|] == before;
    }
  }
}
