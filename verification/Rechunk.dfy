/**
The encoder node's re-chunking: interleaved input of any length is copied into planar frames of
fixed size, which are pushed when they are full; the rest waits in a partial frame.
*/
module Rechunk {
  import opened Arith
  import opened Strided

  /** The samples of all channels at one instant. */
  type Row = seq<int>

  // ----- what re-chunking means -----

  /** The frames pushed so far, and the rows that wait for more. */
  datatype Stream = Stream(pushed: seq<seq<Row>>, part: seq<Row>)

  function Feed(frameSize: nat, st: Stream, rows: seq<Row>): (r: Stream)
    requires |st.part| < frameSize
    ensures |r.part| < frameSize
    decreases |rows|
  {
    var k := frameSize - |st.part|;
    if |rows| < k then st.(part := st.part + rows)
    else Feed(frameSize, Stream(st.pushed + [st.part + rows[..k]], []), rows[k..])
  }

  function Flatten(frames: seq<seq<Row>>): (rows: seq<Row>) {
    if |frames| == 0 then [] else Flatten(frames[..|frames| - 1]) + frames[|frames| - 1]
  }

  function All(st: Stream): (rows: seq<Row>) {
    Flatten(st.pushed) + st.part
  }

  /** Nothing is lost or reordered, and every frame that was pushed is full. */
  lemma {:induction false} FeedKeeps(frameSize: nat, st: Stream, rows: seq<Row>)
    requires |st.part| < frameSize && forall i :: 0 <= i < |st.pushed| ==> |st.pushed[i]| == frameSize
    ensures var r := Feed(frameSize, st, rows);
            All(r) == All(st) + rows && forall i :: 0 <= i < |r.pushed| ==> |r.pushed[i]| == frameSize
    decreases |rows|
  {
    var k := frameSize - |st.part|;
    if |rows| < k {
      assert Flatten(st.pushed) + (st.part + rows) == All(st) + rows;
    } else {
      var next := Stream(st.pushed + [st.part + rows[..k]], []);
      FeedKeeps(frameSize, next, rows[k..]);
      FlattenOne(st.pushed, st.part + rows[..k]);
      Regroup(Flatten(st.pushed), st.part, rows, k);
    }
  }

  /** An empty buffer flushes the encoder: the waiting frame, if there is one, is pushed as it is. */
  function Flush(st: Stream, waiting: bool): (r: Stream) {
    Stream(if waiting then st.pushed + [st.part] else st.pushed, [])
  }

  /** Flushing loses nothing, and only the last frame can be short. */
  lemma FlushKeeps(frameSize: nat, st: Stream, waiting: bool, rows: seq<Row>)
    requires |st.part| < frameSize && forall i :: 0 <= i < |st.pushed| ==> |st.pushed[i]| == frameSize
    ensures var r := Flush(Feed(frameSize, st, rows), waiting);
            && (waiting || Feed(frameSize, st, rows).part == [] ==> Flatten(r.pushed) == All(st) + rows)
            && (forall i :: 0 <= i < |r.pushed| - 1 ==> |r.pushed[i]| == frameSize)
            && (|r.pushed| > 0 ==> |r.pushed[|r.pushed| - 1]| <= frameSize)
  {
    hide Feed;
    FeedKeeps(frameSize, st, rows);
    var fed := Feed(frameSize, st, rows);
    FlattenOne(fed.pushed, fed.part);
    assert Flatten(fed.pushed) + [] == Flatten(fed.pushed);
  }

  lemma FlattenOne(frames: seq<seq<Row>>, frame: seq<Row>)
    ensures Flatten(frames + [frame]) == Flatten(frames) + frame
  {
    assert (frames + [frame])[..|frames|] == frames;
  }

  lemma Regroup(a: seq<Row>, b: seq<Row>, c: seq<Row>, k: nat)
    requires k <= |c|
    ensures ((a + (b + c[..k])) + []) + c[k..] == (a + b) + c
  {
    assert c == c[..k] + c[k..];
  }

  /** Feeding in two steps is feeding at once. */
  lemma {:induction false} FeedAppend(frameSize: nat, st: Stream, a: seq<Row>, b: seq<Row>)
    requires |st.part| < frameSize
    ensures Feed(frameSize, Feed(frameSize, st, a), b) == Feed(frameSize, st, a + b)
    decreases |a|
  {
    var k := frameSize - |st.part|;
    if |a| < k {
      var st1 := st.(part := st.part + a);
      var k1 := k - |a|;
      if |b| >= k1 {
        assert st1.part + b[..k1] == st.part + (a + b)[..k];
        assert b[k1..] == (a + b)[k..];
      } else {
        assert st1.part + b == st.part + (a + b);
      }
    } else {
      assert (a + b)[..k] == a[..k] && (a + b)[k..] == a[k..] + b;
      FeedAppend(frameSize, Stream(st.pushed + [st.part + a[..k]], []), a[k..], b);
    }
  }

  function FeedAll(frameSize: nat, cuts: seq<seq<Row>>): (r: Stream)
    requires frameSize >= 1
    ensures |r.part| < frameSize
  {
    if |cuts| == 0 then Stream([], [])
    else Feed(frameSize, FeedAll(frameSize, cuts[..|cuts| - 1]), cuts[|cuts| - 1])
  }

  /**
  Re-chunking does not depend on how the input was cut into buffers: the pushed frames and the
  partial frame are those of the whole input fed at once; the frames are full, and together with
  the partial frame they are the input.
  */
  lemma {:induction false} CutsDoNotMatter(frameSize: nat, cuts: seq<seq<Row>>)
    requires frameSize >= 1
    ensures var r := FeedAll(frameSize, cuts);
            && r == Feed(frameSize, Stream([], []), Flatten(cuts))
            && All(r) == Flatten(cuts)
            && forall i :: 0 <= i < |r.pushed| ==> |r.pushed[i]| == frameSize
  {
    hide Feed;
    var empty := Stream([], []);
    if |cuts| == 0 {
      FeedNothing(frameSize);
    } else {
      var n := |cuts| - 1;
      CutsDoNotMatter(frameSize, cuts[..n]);
      FeedAppend(frameSize, empty, Flatten(cuts[..n]), cuts[n]);
    }
    FeedKeeps(frameSize, empty, Flatten(cuts));
  }

  lemma FeedNothing(frameSize: nat)
    requires frameSize >= 1
    ensures Feed(frameSize, Stream([], []), []) == Stream([], [])
  {}

  // ----- interleaved and planar samples -----

  /** Row i of an interleaved buffer. */
  function RowAt(data: seq<int>, channels: nat, i: nat): (row: Row)
    requires Start(i, channels) + channels <= |data|
    ensures |row| == channels && forall c :: 0 <= c < channels ==> row[c] == data[Start(i, channels) + c]
  {
    data[Start(i, channels)..Start(i, channels) + channels]
  }

  /** The first n rows of an interleaved buffer. */
  function Rows(data: seq<int>, channels: nat, n: nat): (rows: seq<Row>)
    requires Start(n, channels) <= |data|
    ensures |rows| == n
    ensures forall i :: 0 <= i < n ==> Start(i, channels) + channels <= |data| && rows[i] == RowAt(data, channels, i)
  {
    if n == 0 then []
    else
      StartOrder(n - 1, n, channels);
      Rows(data, channels, n - 1) + [RowAt(data, channels, n - 1)]
  }

  /** Cutting rows off the front. */
  lemma RowsSplit(data: seq<int>, channels: nat, k: nat, n: nat)
    requires k <= n && Start(n, channels) <= |data|
    ensures Start(k, channels) <= |data|
    ensures Start(n - k, channels) <= |data[Start(k, channels)..]|
    ensures Rows(data, channels, n) == Rows(data, channels, k) + Rows(data[Start(k, channels)..], channels, n - k)
  {
    hide Start, Rows;
    StartOrder(k, n, channels);
    StartSum(k, n - k, channels);
    var rest := data[Start(k, channels)..];
    var a, b := Rows(data, channels, n), Rows(data, channels, k) + Rows(rest, channels, n - k);
    assert |a| == |b|;
    forall i | 0 <= i < n ensures a[i] == b[i] {
      RowsSplitAt(data, channels, k, n, i, rest);
    }
  }

  lemma RowsSplitAt(data: seq<int>, channels: nat, k: nat, n: nat, i: nat, rest: seq<int>)
    requires i < n && k <= n && Start(n, channels) <= |data| && Start(k, channels) <= |data|
    requires rest == data[Start(k, channels)..] && Start(n - k, channels) <= |rest|
    ensures Rows(data, channels, n)[i] == (Rows(data, channels, k) + Rows(rest, channels, n - k))[i]
  {
    hide Start, Rows, RowAt;
    if i < k {
      assert Rows(data, channels, k)[i] == RowAt(data, channels, i);
    } else {
      StartOrder(i, n, channels);
      StartSum(k, i - k, channels);
      StartSum(i - k, 1, channels);
      RowOfRest(data, channels, k, i - k);
    }
  }

  lemma RowOfRest(data: seq<int>, channels: nat, k: nat, i: nat)
    requires Start(k + i, channels) + channels <= |data| && Start(k + i, channels) == Start(k, channels) + Start(i,
             channels)
    ensures RowAt(data[Start(k, channels)..], channels, i) == RowAt(data, channels, k + i)
  {
    hide Start;
  }

  // ----- the encoder node -----

  /** A planar frame under construction. */
  class Frame {
    const data: array2<int>
    var nbSamples: nat

    constructor (channels: nat, frameSize: nat)
      ensures Valid() && fresh(data) && nbSamples == 0 && data.Length0 == channels && data.Length1 == frameSize
    {
      data := new int[channels, frameSize];
      nbSamples := 0;
    }

    predicate Valid()
      reads this
    {
      nbSamples <= data.Length1
    }

    /** The rows filled in so far. */
    function Filled(): (rows: seq<Row>)
      requires Valid()
      reads this, data
      ensures |rows| == nbSamples && forall i :: 0 <= i < nbSamples ==> |rows[i]| == data.Length0
      ensures forall i, c :: 0 <= i < nbSamples && 0 <= c < data.Length0 ==> rows[i][c] == data[c, i]
    {
      seq(nbSamples, i requires 0 <= i < data.Length1 reads data => PlaneRow(i))
    }

    function PlaneRow(i: nat): (row: Row)
      requires i < data.Length1
      reads data
      ensures |row| == data.Length0 && forall c :: 0 <= c < data.Length0 ==> row[c] == data[c, i]
    {
      seq(data.Length0, c requires 0 <= c < data.Length0 reads data => data[c, i])
    }

    /** The channel loop of `fillFrame`: one interleaved row goes to column i of the planes. */
    method PutRow(i: nat, buffer: seq<int>, at: nat)
      requires i < data.Length1 && at + data.Length0 <= |buffer|
      modifies data
      ensures forall c :: 0 <= c < data.Length0 ==> data[c, i] == buffer[at + c]
      ensures forall c, k :: 0 <= c < data.Length0 && 0 <= k < data.Length1 && k != i ==> data[c, k] == old(data[c, k])
    {
      for j := 0 to data.Length0
        invariant forall c :: 0 <= c < j ==> data[c, i] == buffer[at + c]
        invariant forall c, k :: 0 <= c < data.Length0 && 0 <= k < data.Length1 && k != i ==>
                  data[c, k] == old(data[c, k])
      {
        data[j, i] := buffer[at + j];
      }
    }

    /** The loops of `fillFrame`: copies n rows behind those already there. */
    method Copy(buffer: seq<int>, n: nat)
      requires Valid() && nbSamples + n <= data.Length1 && Start(n, data.Length0) <= |buffer|
      modifies this`nbSamples, data
      ensures Valid() && Filled() == old(Filled()) + Rows(buffer, data.Length0, n)
    {
      hide Start, Rows;
      ghost var rows, first := Rows(buffer, data.Length0, n), nbSamples;
      ghost var before := Filled();
      StartNext(0, data.Length0);
      var at := 0;
      for i := 0 to n
        invariant at == Start(i, data.Length0) && nbSamples == first + i <= data.Length1
        invariant Filled() == before + rows[..i]
      {
        ghost var filled := Filled();
        StartOrder(i, n, data.Length0);
        StartNext(i, data.Length0);
        PutRow(nbSamples, buffer, at);
        nbSamples := nbSamples + 1;
        at := at + data.Length0;
        FilledNext(filled, rows[i]);
        assert rows[..i + 1] == rows[..i] + [rows[i]];
      }
      assert rows[..n] == rows;
    }

    /** One more column was filled with a row. */
    lemma FilledNext(filled: seq<Row>, row: Row)
      requires Valid() && nbSamples == |filled| + 1 && |row| == data.Length0
      requires forall i :: 0 <= i < |filled| ==> |filled[i]| == data.Length0
      requires forall i, c :: 0 <= i < |filled| && 0 <= c < data.Length0 ==> filled[i][c] == data[c, i]
      requires forall c :: 0 <= c < data.Length0 ==> row[c] == data[c, |filled|]
      ensures Filled() == filled + [row]
    {
      var rows := Filled();
      forall i | 0 <= i < nbSamples ensures rows[i] == (filled + [row])[i] {
        assert forall c :: 0 <= c < data.Length0 ==> rows[i][c] == (filled + [row])[i][c];
      }
    }
  }

  /** How many samples a buffer holds behind its last whole row. */
  function Leftover(buffer: seq<int>, channels: nat): (r: nat)
    requires channels >= 1
    ensures r < channels
  {
    DivMod(|buffer|, channels);
    |buffer| % channels
  }

  /** How many whole rows a buffer holds. */
  function RowCount(buffer: seq<int>, channels: nat): (n: nat)
    requires channels >= 1
    ensures Start(n, channels) <= |buffer| && |buffer| - Start(n, channels) == Leftover(buffer, channels)
  {
    DivMod(|buffer|, channels);
    |buffer| / channels
  }

  function WholeRows(buffer: seq<int>, channels: nat): (rows: seq<Row>)
    requires channels >= 1
  {
    Rows(buffer, channels, RowCount(buffer, channels))
  }

  /** Taking k whole rows off a buffer leaves the other rows. */
  lemma WholeRowsSplit(buffer: seq<int>, channels: nat, k: nat)
    requires channels >= 1 && k <= RowCount(buffer, channels)
    ensures Start(k, channels) <= |buffer|
    ensures var rest := buffer[Start(k, channels)..];
            && WholeRows(buffer, channels) == Rows(buffer, channels, k) + WholeRows(rest, channels)
            && RowCount(rest, channels) == RowCount(buffer, channels) - k
            && Leftover(rest, channels) == Leftover(buffer, channels)
  {
    hide Rows, RowCount, Start, Leftover, WholeRows;
    var n := RowCount(buffer, channels);
    RowsSplit(buffer, channels, k, n);
    var rest := buffer[Start(k, channels)..];
    StartSum(k, n - k, channels);
    RowCountUnique(rest, channels, n - k, Leftover(buffer, channels));
    WholeRowsAre(buffer, channels, n);
    WholeRowsAre(rest, channels, n - k);
  }

  lemma WholeRowsAre(buffer: seq<int>, channels: nat, n: nat)
    requires channels >= 1 && n == RowCount(buffer, channels)
    ensures Start(n, channels) <= |buffer| && WholeRows(buffer, channels) == Rows(buffer, channels, n)
  {}

  lemma RowCountUnique(buffer: seq<int>, channels: nat, n: nat, r: nat)
    requires channels >= 1 && r < channels && |buffer| == Start(n, channels) + r
    ensures RowCount(buffer, channels) == n && Leftover(buffer, channels) == r
  {
    DivModUnique(|buffer|, channels, n, r);
  }

  /** `AudioEncoderFfmpeg` between configuration changes; the pushed frames are recorded. */
  class Encoder {
    const channels: nat
    const frameSize: nat
    var partial: Frame?
    var pushed: seq<seq<Row>>
    var flushes: nat

    constructor (channels: nat, frameSize: nat)
      requires channels >= 1 && frameSize >= 1
      ensures Valid() && this.channels == channels && this.frameSize == frameSize && View() == Stream([], [])
              && flushes == 0
    {
      this.channels, this.frameSize := channels, frameSize;
      partial, pushed, flushes := null, [], 0;
    }

    /** A frame of this encoder's layout. */
    predicate Suits(frame: Frame)
      reads frame
    {
      frame.Valid() && frame.data.Length0 == channels && frame.data.Length1 == frameSize
    }

    predicate Valid()
      reads this, partial
    {
      && channels >= 1 && frameSize >= 1
      && (partial != null ==> Suits(partial) && partial.nbSamples < frameSize)
    }

    function View(): (st: Stream)
      requires Valid()
      reads this, partial, if partial != null then {partial.data} else {}
      ensures |st.part| < frameSize
    {
      Stream(pushed, if partial == null then [] else partial.Filled())
    }

    /** `fillFrame`: moves as many rows as fit and says whether the frame is full. */
    method FillFrame(frame: Frame, buffer: seq<int>) returns (full: bool, rest: seq<int>, ghost n: nat)
      requires channels >= 1 && Suits(frame)
      modifies frame`nbSamples, frame.data
      ensures Suits(frame) && full == (frame.nbSamples == frameSize)
      ensures n == Min(frameSize - old(frame.nbSamples), RowCount(buffer, channels))
      ensures Start(n, channels) <= |buffer| && rest == buffer[Start(n, channels)..]
      ensures frame.Filled() == old(frame.Filled()) + Rows(buffer, channels, n)
    {
      var samplesToFill := Min(frameSize - frame.nbSamples, RowCount(buffer, channels));
      n := samplesToFill;
      StartOrder(n, RowCount(buffer, channels), channels);
      frame.Copy(buffer, samplesToFill);
      rest := buffer[Start(samplesToFill, channels)..];
      full := frame.nbSamples == frameSize;
    }

    /** Step 1 of `onProcess`: the waiting frame is completed, or takes everything. */
    method FillPartial(buffer: seq<int>) returns (done: bool, rest: seq<int>)
      requires Valid() && partial != null
      modifies this`partial, this`pushed, partial`nbSamples, partial.data
      ensures Valid() && Leftover(rest, channels) == Leftover(buffer, channels)
      ensures done ==> View() == Feed(frameSize, old(View()), WholeRows(buffer, channels))
      ensures done ==> |rest| == Leftover(buffer, channels)
      ensures done ==> partial == old(partial)
      ensures !done ==> partial == null
      ensures !done ==> Feed(frameSize, old(View()), WholeRows(buffer, channels))
                        == Feed(frameSize, Stream(pushed, []), WholeRows(rest, channels))
    {
      hide Rows, WholeRows, RowCount, Feed, Start, Leftover;
      ghost var st := View();
      var full, rest', n := FillFrame(partial, buffer);
      rest := rest';
      WholeRowsSplit(buffer, channels, n);
      done := !full;
      ghost var rows := Rows(buffer, channels, n);
      if full {
        FeedFull(frameSize, st, rows, WholeRows(rest, channels));
        pushed := pushed + [partial.Filled()];
        partial := null;
      } else {
        Exhausted(rest, channels);
        FeedShort(frameSize, st, rows);
      }
    }

    /** Step 2 of `onProcess`: produces frames until the buffer has no whole row left. */
    method Produce(buffer: seq<int>) returns (rest: seq<int>)
      requires channels >= 1 && frameSize >= 1
      modifies this`partial, this`pushed
      ensures Valid() && partial != null && fresh(partial) && fresh(partial.data)
      ensures View() == Feed(frameSize, Stream(old(pushed), []), WholeRows(buffer, channels))
      ensures |rest| == Leftover(buffer, channels)
    {
      hide Rows, WholeRows, RowCount, Feed, Start, Leftover;
      ghost var target := Feed(frameSize, Stream(pushed, []), WholeRows(buffer, channels));
      var frame := new Frame(channels, frameSize);
      var full;
      ghost var n;
      full, rest, n := FillFrame(frame, buffer);
      FillNew(frameSize, pushed, frame.Filled(), buffer, channels, n);
      while full
        invariant Suits(frame) && fresh(frame) && fresh(frame.data) && full == (frame.nbSamples == frameSize)
        invariant Leftover(rest, channels) == Leftover(buffer, channels)
        invariant full ==> Feed(frameSize, Stream(pushed + [frame.Filled()], []), WholeRows(rest, channels)) == target
        invariant !full ==> Stream(pushed, frame.Filled()) == target && |rest| == Leftover(buffer, channels)
        decreases |rest| + if full then 1 else 0
      {
        pushed := pushed + [frame.Filled()];
        frame := new Frame(channels, frameSize);
        ghost var before := rest;
        full, rest, n := FillFrame(frame, rest);
        FillNew(frameSize, pushed, frame.Filled(), before, channels, n);
        StartPositive(n, channels);
      }
      partial := frame;
    }

    /**
    `onProcess`: the stream goes on as if the buffer's rows had been fed to it, and only what is not
    a whole row is left in the buffer. An empty buffer flushes the encoder instead.
    */
    method OnProcess(buffer: seq<int>) returns (rest: seq<int>)
      requires Valid()
      modifies this`partial, this`pushed, this`flushes, partial, if partial != null then {partial.data} else {}
      ensures Valid() && |rest| == Leftover(buffer, channels)
      ensures |buffer| > 0 ==> View() == Feed(frameSize, old(View()), WholeRows(buffer, channels))
      ensures |buffer| > 0 ==> flushes == old(flushes)
      ensures |buffer| == 0 ==> View() == Flush(old(View()), old(partial) != null) && flushes == old(flushes) + 1
    {
      hide Rows, WholeRows, RowCount, Feed, Start, Leftover;
      rest := buffer;
      if |buffer| == 0 {
        if partial != null {
          pushed := pushed + [partial.Filled()];
          partial := null;
        }
        flushes := flushes + 1;
        NoRows(frameSize, Stream(pushed, []), buffer, channels);
      }
      if partial != null {
        var done;
        done, rest := FillPartial(buffer);
        if done {
          return;
        }
      }
      rest := Produce(rest);
    }
  }

  lemma NoRows(frameSize: nat, st: Stream, buffer: seq<int>, channels: nat)
    requires channels >= 1 && |buffer| == 0 && |st.part| < frameSize
    ensures WholeRows(buffer, channels) == [] && Feed(frameSize, st, []) == st
  {
    RowCountUnique([], channels, 0, 0);
    assert buffer == [];
    assert st.part + [] == st.part;
  }

  lemma FeedFull(frameSize: nat, st: Stream, a: seq<Row>, b: seq<Row>)
    requires |st.part| < frameSize && |st.part| + |a| == frameSize
    ensures Feed(frameSize, st, a + b) == Feed(frameSize, Stream(st.pushed + [st.part + a], []), b)
  {
    assert (a + b)[..|a|] == a && (a + b)[|a|..] == b;
  }

  lemma FeedShort(frameSize: nat, st: Stream, a: seq<Row>)
    requires |st.part| + |a| < frameSize
    ensures Feed(frameSize, st, a + []) == st.(part := st.part + a)
  {
    assert a + [] == a;
  }

  lemma Exhausted(rest: seq<int>, channels: nat)
    requires channels >= 1 && RowCount(rest, channels) == 0
    ensures WholeRows(rest, channels) == [] && |rest| == Leftover(rest, channels)
  {
    StartNext(0, channels);
  }

  lemma StartPositive(n: nat, channels: nat)
    requires channels >= 1
    ensures n >= 1 ==> Start(n, channels) >= 1
  {
    StartOrder(0, n, channels);
  }

  /** A new frame took n rows of the buffer: it is full, or it took all of them. */
  lemma FillNew(frameSize: nat, pushed: seq<seq<Row>>, filled: seq<Row>, buffer: seq<int>, channels: nat, n: nat)
    requires channels >= 1 && frameSize >= 1 && n == Min(frameSize, RowCount(buffer, channels))
    requires Start(n, channels) <= |buffer| && filled == [] + Rows(buffer, channels, n)
    ensures var rest := buffer[Start(n, channels)..];
            && Leftover(rest, channels) == Leftover(buffer, channels)
            && (n < frameSize ==> |rest| == Leftover(buffer, channels))
            && Feed(frameSize, Stream(pushed, []), WholeRows(buffer, channels))
               == if n < frameSize then Stream(pushed, filled)
                  else Feed(frameSize, Stream(pushed + [filled], []), WholeRows(rest, channels))
  {
    hide Rows, WholeRows, RowCount, Feed, Start, Leftover;
    WholeRowsSplit(buffer, channels, n);
    var rest, rows := buffer[Start(n, channels)..], Rows(buffer, channels, n);
    if n == frameSize {
      FeedFull(frameSize, Stream(pushed, []), rows, WholeRows(rest, channels));
    } else {
      Exhausted(rest, channels);
      FeedShort(frameSize, Stream(pushed, []), rows);
    }
  }
}
