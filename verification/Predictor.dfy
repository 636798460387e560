/**
The sign-adaptive linear predictor. The functions state the decoder's recurrence with absolute
indices; `FirAdapt` is the source's loop with its sliding base pointer, proved equal to them.
`Residuals` is the mirror encoder and `RoundTrip` states that the decoder rebuilds the samples
and ends with the encoder's coefficient table.

`sum` and the coefficients wrap like 32-bit and 16-bit numbers.
*/
module Predictor {
  import opened Arith

  const COPY_PREVIOUS := 31

  datatype State = State(out: seq<int>, coefs: seq<int>)

  /** There are enough earlier samples for the next prediction. */
  predicate Ready(st: State) {
    1 <= |st.coefs| < |st.out|
  }

  function Max(a: int, b: int): (r: int) {
    if a >= b then a else b
  }

  function Sign(v: int): (s: int) {
    if v < 0 then -1 else if v > 0 then 1 else 0
  }

  /** The weighted sum of the first j taps: recent samples relative to the base sample. */
  function Dot(st: State, j: nat): (sum: int)
    requires Ready(st) && j <= |st.coefs|
  {
    if j == 0 then 0
    else
      var i := |st.out|;
      Wrap32(Dot(st, j - 1) + (st.out[i - j] - st.out[i - |st.coefs| - 1]) * st.coefs[j - 1])
  }

  function Predict(st: State, q: nat): (p: int)
    requires Ready(st) && q >= 1
  {
    Wrap32(Pow2(q - 1) + Dot(st, |st.coefs|)) / Pow2(q) + st.out[|st.out| - |st.coefs| - 1]
  }

  /** The update of the coefficients below index n, in the direction of the residual's sign. */
  function Adapt(st: State, q: nat, dir: int, n: nat, err: int): (coefs: seq<int>)
    requires Ready(st) && n <= |st.coefs|
    ensures |coefs| == |st.coefs|
    decreases n
  {
    if n == 0 || !Open(dir, err) then st.coefs
    else
      var i := |st.out|;
      var val := st.out[i - |st.coefs| - 1] - st.out[i - n];
      var sign := dir * Sign(val);
      Adapt(st.(coefs := st.coefs[n - 1 := Wrap16(st.coefs[n - 1] - sign)]), q, dir, n - 1,
            Rest(err, val, sign, q, |st.coefs| - n + 1))
  }

  /** There is residual left to adapt to. */
  predicate Open(dir: int, err: int) {
    dir * err > 0
  }

  /** What a step leaves of the residual. */
  function Rest(err: int, val: int, sign: int, q: nat, weight: int): (rest: int) {
    err - val * sign / Pow2(q) * weight
  }

  function Next(st: State, value: int, err: int, q: nat): (next: State)
    requires Ready(st)
    ensures Ready(next) && next.out == st.out + [value] && |next.coefs| == |st.coefs|
  {
    State(st.out + [value], Adapt(st, q, Sign(err), |st.coefs|, err))
  }

  /** The general case: one predicted sample after the other. */
  function Extend(err: seq<int>, size: nat, n: nat, q: nat, st: State): (r: State)
    requires Ready(st) && size <= |err| && n >= 1 && q >= 1
    ensures st.out <= r.out && |r.out| == Max(size, |st.out|) && |r.coefs| == |st.coefs|
    decreases size - |st.out|
  {
    if |st.out| >= size then st
    else
      var e := err[|st.out|];
      Extend(err, size, n, q, Next(st, SignExtend(Predict(st, q) + e, n), e, q))
  }

  /** Warm-up: each sample is the previous one plus its residual. */
  function Accumulate(err: seq<int>, count: nat, n: nat): (out: seq<int>)
    requires 1 <= count <= |err| && n >= 1
    ensures |out| == count
  {
    if count == 1 then [err[0]]
    else
      var out := Accumulate(err, count - 1, n);
      out + [SignExtend(out[count - 2] + err[count - 1], n)]
  }

  /** `predictor_decompress_fir_adapt`; err is the whole residual buffer, of which size entries are meant. */
  function Decode(err: seq<int>, size: nat, n: nat, coefs: seq<int>, q: nat): (r: State)
    requires |coefs| <= COPY_PREVIOUS && size <= |err| && 1 <= |err| && n >= 1
    requires 1 <= |coefs| < COPY_PREVIOUS ==> q >= 1 && |coefs| < |err|
    ensures size <= |r.out| <= |err|
  {
    if |coefs| == 0 then State(err[..Max(size, 1)], coefs)
    else if |coefs| == COPY_PREVIOUS then State(Accumulate(err, Max(size, 1), n), coefs)
    else Extend(err, size, n, q, State(Accumulate(err, |coefs| + 1, n), coefs))
  }

  // ----- what adaptation is for -----

  /** Tap j: a recent sample relative to the base sample. */
  function Tap(st: State, j: nat): (t: int)
    requires Ready(st) && j < |st.coefs|
  {
    st.out[|st.out| - 1 - j] - st.out[|st.out| - |st.coefs| - 1]
  }

  /** The first k taps weighted with a coefficient table, without wrap-around. */
  function Weighted(st: State, coefs: seq<int>, k: nat): (sum: int)
    requires Ready(st) && k <= |coefs| == |st.coefs|
  {
    if k == 0 then 0 else Weighted(st, coefs, k - 1) + Tap(st, k - 1) * coefs[k - 1]
  }

  lemma {:induction false} WeightedUpdate(st: State, coefs: seq<int>, j: nat, c: int, k: nat)
    requires Ready(st) && k <= |coefs| == |st.coefs| && j < |coefs|
    ensures Weighted(st, coefs[j := c], k) == Weighted(st, coefs, k) + if j < k then Tap(st, j) * (c - coefs[j]) else 0
  {
    hide Tap;
    if k > 0 {
      WeightedUpdate(st, coefs, j, c, k - 1);
      if j == k - 1 {
        MulDist(c - coefs[j], coefs[j], Tap(st, j));
      }
    }
  }

  /** One coefficient step changes the weighted sum by the size of its tap, towards the residual. */
  lemma StepTowards(val: int, dir: int)
    requires dir == 1 || dir == -1
    ensures dir * (-val * -(dir * Sign(val))) >= 0
  {
    if val > 0 {
      assert dir * Sign(val) == dir;
    } else if val < 0 {
      assert dir * Sign(val) == -dir;
    }
  }

  /** A table away from the ends of the 16-bit range, so that no step wraps around. */
  predicate Inner(coefs: seq<int>) {
    forall j :: 0 <= j < |coefs| ==> -0x7FFF <= coefs[j] <= 0x7FFE
  }

  /**
  Adaptation moves the prediction towards the sample: with the adapted table the taps weigh no less
  than before when the residual was positive, and no more when it was negative.
  */
  lemma {:induction false} AdaptsTowards(st: State, taps: State, q: nat, dir: int, n: nat, err: int)
    requires Ready(st) && n <= |st.coefs| && (dir == 1 || dir == -1)
    requires taps.out == st.out && |taps.coefs| == |st.coefs|
    requires forall j :: 0 <= j < n ==> -0x7FFF <= st.coefs[j] <= 0x7FFE
    ensures dir * Weighted(taps, Adapt(st, q, dir, n, err), |st.coefs|) >= dir * Weighted(taps, st.coefs, |st.coefs|)
    decreases n
  {
    hide Weighted, Sign, Open, Rest, Adapt;
    if n == 0 || !Open(dir, err) {
      AdaptDone(st, q, dir, n, err);
    } else {
      var m := |st.coefs|;
      var val := st.out[|st.out| - m - 1] - st.out[|st.out| - n];
      var sign := dir * Sign(val);
      SignSmall(val, dir);
      var coefs := st.coefs[n - 1 := Wrap16(st.coefs[n - 1] - sign)];
      var next := Rest(err, val, sign, q, m - n + 1);
      AdaptStep(st, q, dir, n, err, val, sign, st.(coefs := coefs), next);
      AdaptsTowards(st.(coefs := coefs), taps, q, dir, n - 1, next);
      WeightedUpdate(taps, st.coefs, n - 1, st.coefs[n - 1] - sign, m);
      assert Tap(taps, n - 1) == -val;
      StepTowards(val, dir);
      MulDist(Weighted(taps, st.coefs, m), -val * -sign, dir);
      assert Weighted(taps, coefs, m) == Weighted(taps, st.coefs, m) + -val * -sign;
    }
  }

  /** The same for one decoded sample: its residual's sign tells which way the prediction moves. */
  lemma NextTowards(st: State, value: int, err: int, q: nat)
    requires Ready(st) && Inner(st.coefs)
    ensures err > 0 ==> Weighted(st, Next(st, value, err, q).coefs, |st.coefs|) >= Weighted(st, st.coefs, |st.coefs|)
    ensures err < 0 ==> Weighted(st, Next(st, value, err, q).coefs, |st.coefs|) <= Weighted(st, st.coefs, |st.coefs|)
    ensures err == 0 ==> Next(st, value, err, q).coefs == st.coefs
  {
    hide Weighted;
    if err != 0 {
      AdaptsTowards(st, st, q, Sign(err), |st.coefs|, err);
    }
  }

  lemma SignSmall(val: int, dir: int)
    requires dir == 1 || dir == -1
    ensures -1 <= dir * Sign(val) <= 1
  {}

  /** The decoder's sum is the weighted sum of the taps, up to multiples of 2^32. */
  lemma {:induction false} DotIs(st: State, j: nat) returns (m: int)
    requires Ready(st) && j <= |st.coefs|
    ensures Weighted(st, st.coefs, j) == Dot(st, j) + m * 0x1_0000_0000
  {
    hide Wrap32;
    if j == 0 {
      m := 0;
    } else {
      m := DotIs(st, j - 1);
      var sum := Dot(st, j - 1) + (st.out[|st.out| - j] - st.out[|st.out| - |st.coefs| - 1]) * st.coefs[j - 1];
      var k := Wrapped(sum);
      m := m + k;
      assert Tap(st, j - 1) == st.out[|st.out| - j] - st.out[|st.out| - |st.coefs| - 1];
    }
  }

  lemma Wrapped(v: int) returns (m: int)
    ensures v == Wrap32(v) + m * 0x1_0000_0000 && (m == 0 <==> -0x8000_0000 <= v < 0x8000_0000)
  {
    m := (v + 0x8000_0000) / 0x1_0000_0000;
  }

  /** The base sample that the taps are relative to. */
  function Base(st: State): (b: int)
    requires Ready(st)
  {
    st.out[|st.out| - |st.coefs| - 1]
  }

  /** The weighted sum, with the rounding term, is a 32-bit number. */
  predicate SumFits(st: State, q: nat)
    requires Ready(st) && q >= 1
  {
    -0x8000_0000 <= Pow2(q - 1) + Weighted(st, st.coefs, |st.coefs|) < 0x8000_0000
  }

  /**
  The prediction is the weighted sum of the taps, divided by 2^q and rounded to the nearest number, on
  top of the base sample; the sum counts modulo 2^32, and exactly if it fits.
  */
  lemma PredictRounds(st: State, q: nat) returns (m: int)
    requires Ready(st) && q >= 1
    ensures var off := Pow2(q) * (Predict(st, q) - Base(st)) - (Weighted(st, st.coefs, |st.coefs|) + m * 0x1_0000_0000);
            -Pow2(q - 1) < off <= Pow2(q - 1)
    ensures m == 0 <==> SumFits(st, q)
  {
    hide Wrap32, Dot, Weighted;
    var n, half := |st.coefs|, Pow2(q - 1);
    var a := DotIs(st, n);
    var b := Wrapped(half + Dot(st, n));
    m := -(a + b);
    var sum := Wrap32(half + Dot(st, n));
    DivMod(sum, Pow2(q));
    assert Pow2(q) == 2 * half;
    assert sum == half + Weighted(st, st.coefs, n) + m * 0x1_0000_0000;
    if SumFits(st, q) {
      WrapOnce(sum, half + Weighted(st, st.coefs, n), m);
    }
  }

  lemma WrapOnce(sum: int, v: int, m: int)
    requires -0x8000_0000 <= sum < 0x8000_0000 && -0x8000_0000 <= v < 0x8000_0000 && sum == v + m * 0x1_0000_0000
    ensures m == 0
  {}

  /** So adaptation moves the prediction itself towards the sample, where the sums fit. */
  lemma PredictionTowards(st: State, value: int, err: int, q: nat)
    requires Ready(st) && Inner(st.coefs) && q >= 1
    requires SumFits(st, q) && SumFits(st.(coefs := Next(st, value, err, q).coefs), q)
    ensures err > 0 ==> Predict(st.(coefs := Next(st, value, err, q).coefs), q) >= Predict(st, q)
    ensures err < 0 ==> Predict(st.(coefs := Next(st, value, err, q).coefs), q) <= Predict(st, q)
  {
    hide Predict, Weighted, Next, Pow2;
    var coefs := Next(st, value, err, q).coefs;
    var after := st.(coefs := coefs);
    NextTowards(st, value, err, q);
    WeightedAlike(st, after, coefs, |coefs|);
    var m := PredictRounds(st, q);
    var m' := PredictRounds(after, q);
    Rounded(Predict(st, q) - Base(st), Weighted(st, st.coefs, |coefs|),
            Predict(after, q) - Base(st), Weighted(st, coefs, |coefs|), q);
  }

  /** The taps do not depend on the table. */
  lemma {:induction false} WeightedAlike(st: State, other: State, coefs: seq<int>, k: nat)
    requires Ready(st) && Ready(other) && st.out == other.out && |st.coefs| == |other.coefs| == |coefs| && k <= |coefs|
    ensures Weighted(st, coefs, k) == Weighted(other, coefs, k)
  {
    if k > 0 {
      WeightedAlike(st, other, coefs, k - 1);
    }
  }

  lemma Rounded(x: int, w: int, x': int, w': int, q: nat)
    requires q >= 1
    requires -Pow2(q - 1) < Pow2(q) * x - w <= Pow2(q - 1) && -Pow2(q - 1) < Pow2(q) * x' - w' <= Pow2(q - 1)
    ensures w' >= w ==> x' >= x
    ensures w' <= w ==> x' <= x
  {
    var p := Pow2(q);
    assert p == 2 * Pow2(q - 1);
    MulDist(x - x', x', p);
    MultipleApart(x - x', p);
  }

  // ----- how far adaptation reaches -----

  /** What one tap takes from the residual: its size divided by 2^q, rounded towards the residual's sign. */
  function Cost(tap: int, q: nat, dir: int): (c: nat) {
    CostPositive(tap, q);
    var size := if tap < 0 then -tap else tap;
    if dir == 1 then size / Pow2(q) else -(-size / Pow2(q))
  }

  lemma CostPositive(tap: int, q: nat)
    ensures var size := if tap < 0 then -tap else tap;
            size / Pow2(q) >= 0 && -(-size / Pow2(q)) >= 0
  {
    var size := if tap < 0 then -tap else tap;
    DivMod(size, Pow2(q));
    DivMod(-size, Pow2(q));
    MultipleApart(size / Pow2(q), Pow2(q));
    MultipleApart(-size / Pow2(q), Pow2(q));
  }

  /** What the k oldest taps take together, each as often as its place says. */
  function Spent(st: State, q: nat, dir: int, k: nat): (sum: nat)
    requires Ready(st) && k <= |st.coefs|
  {
    if k == 0 then 0 else Spent(st, q, dir, k - 1) + Cost(Tap(st, |st.coefs| - k), q, dir) * k
  }

  lemma {:induction false} SpentGrows(st: State, q: nat, dir: int, k: nat, l: nat)
    requires Ready(st) && k <= l <= |st.coefs|
    ensures Spent(st, q, dir, k) <= Spent(st, q, dir, l)
    decreases l - k
  {
    hide Cost, Tap;
    if k < l {
      SpentGrows(st, q, dir, k, l - 1);
    }
  }

  lemma {:induction false} SpentAlike(st: State, other: State, q: nat, dir: int, k: nat)
    requires Ready(st) && st.out == other.out && |st.coefs| == |other.coefs| && k <= |st.coefs|
    ensures Spent(st, q, dir, k) == Spent(other, q, dir, k)
  {
    hide Cost;
    if k > 0 {
      SpentAlike(st, other, q, dir, k - 1);
    }
  }

  /** A step takes the cost of its tap from the residual. */
  lemma RestCosts(err: int, tap: int, q: nat, dir: int, weight: nat)
    requires dir == 1 || dir == -1
    ensures dir * Rest(err, -tap, dir * Sign(-tap), q, weight) == dir * err - Cost(tap, q, dir) * weight
  {
    var size := if tap < 0 then -tap else tap;
    assert -tap * (dir * Sign(-tap)) == dir * size by { SizeOf(tap, dir); }
    var c := dir * size / Pow2(q);
    if dir == 1 {
      assert c == Cost(tap, q, dir);
    } else {
      assert -c == Cost(tap, q, dir);
      assert -(-c * weight) == c * weight;
    }
  }

  lemma SizeOf(tap: int, dir: int)
    requires dir == 1 || dir == -1
    ensures -tap * (dir * Sign(-tap)) == dir * (if tap < 0 then -tap else tap)
  {}

  lemma {:induction false} AdaptFrom(st: State, q: nat, dir: int, n: nat, err: int, j: nat)
    requires Ready(st) && n <= |st.coefs| && j < |st.coefs| && (dir == 1 || dir == -1)
    ensures var m := |st.coefs|;
            Adapt(st, q, dir, n, err)[j]
            == if j < n && Spent(st, q, dir, m - 1 - j) - Spent(st, q, dir, m - n) < dir * err
               then Wrap16(st.coefs[j] + dir * Sign(Tap(st, j))) else st.coefs[j]
    decreases n
  {
    hide Wrap16, Sign, Rest, Cost, Adapt, Tap, Open, Spent;
    var m := |st.coefs|;
    OpenIs(dir, err);
    if n == 0 || !Open(dir, err) {
      AdaptDone(st, q, dir, n, err);
      if j < n {
        SpentGrows(st, q, dir, m - n, m - 1 - j);
      }
    } else {
      var val := st.out[|st.out| - m - 1] - st.out[|st.out| - n];
      var sign := dir * Sign(val);
      TapIs(st, n);
      SignTurned(Tap(st, n - 1), dir);
      var next := st.(coefs := st.coefs[n - 1 := Wrap16(st.coefs[n - 1] - sign)]);
      var rest := Rest(err, val, sign, q, m - n + 1);
      AdaptStep(st, q, dir, n, err, val, sign, next, rest);
      RestCosts(err, Tap(st, n - 1), q, dir, m - n + 1);
      AdaptFrom(next, q, dir, n - 1, rest, j);
      SpentAlike(st, next, q, dir, m - 1 - j);
      SpentAlike(st, next, q, dir, m - n + 1);
      SpentStep(st, q, dir, m - n + 1);
      TapAlike(st, next, j);
    }
  }

  lemma OpenIs(dir: int, err: int)
    ensures Open(dir, err) <==> dir * err > 0
  {}

  lemma TapIs(st: State, n: nat)
    requires Ready(st) && 1 <= n <= |st.coefs|
    ensures st.out[|st.out| - |st.coefs| - 1] - st.out[|st.out| - n] == -Tap(st, n - 1)
  {}

  lemma TapAlike(st: State, other: State, j: nat)
    requires Ready(st) && st.out == other.out && |st.coefs| == |other.coefs| && j < |st.coefs|
    ensures Tap(st, j) == Tap(other, j)
  {}

  lemma SignTurned(tap: int, dir: int)
    ensures dir * Sign(-tap) == -(dir * Sign(tap))
  {
    assert Sign(-tap) == -Sign(tap);
  }

  lemma SpentStep(st: State, q: nat, dir: int, k: nat)
    requires Ready(st) && 1 <= k <= |st.coefs|
    ensures Spent(st, q, dir, k) == Spent(st, q, dir, k - 1) + Cost(Tap(st, |st.coefs| - k), q, dir) * k
  {}

  /**
  Which coefficients adaptation changes: from the oldest tap on, those in front of which the taps have
  not yet taken the whole residual; each moves by one in the direction of its tap and the residual.
  */
  lemma AdaptReaches(st: State, q: nat, dir: int, err: int, j: nat)
    requires Ready(st) && j < |st.coefs| && (dir == 1 || dir == -1)
    ensures Adapt(st, q, dir, |st.coefs|, err)[j]
         == if Spent(st, q, dir, |st.coefs| - 1 - j) < dir * err then Wrap16(st.coefs[j] + Along(Tap(st, j), dir))
            else st.coefs[j]
  {
    hide Wrap16, Sign, Adapt, Tap, Cost;
    AdaptFrom(st, q, dir, |st.coefs|, err, j);
    AlongIs(Tap(st, j), dir);
  }

  /** One step in the direction of the residual for a positive tap, against it for a negative one, none for zero. */
  function Along(tap: int, dir: int): (step: int) {
    if tap > 0 then dir else if tap < 0 then -dir else 0
  }

  lemma AlongIs(tap: int, dir: int)
    ensures dir * Sign(tap) == Along(tap, dir)
  {}

  // ----- the source's loops -----

  /** One turn of the adaptation, with its values named. */
  lemma AdaptStep(st: State, q: nat, dir: int, n: nat, err: int, val: int, sign: int, next: State, rest: int)
    requires Ready(st) && 1 <= n <= |st.coefs| && Open(dir, err)
    requires val == st.out[|st.out| - |st.coefs| - 1] - st.out[|st.out| - n] && sign == dir * Sign(val)
    requires next == st.(coefs := st.coefs[n - 1 := Wrap16(st.coefs[n - 1] - sign)])
    requires rest == Rest(err, val, sign, q, |st.coefs| - n + 1)
    ensures Ready(next) && Adapt(st, q, dir, n, err) == Adapt(next, q, dir, n - 1, rest)
  {
    hide Wrap16, Sign, Open, Rest;
  }

  lemma AdaptDone(st: State, q: nat, dir: int, n: nat, err: int)
    requires Ready(st) && n <= |st.coefs| && (n == 0 || !Open(dir, err))
    ensures Adapt(st, q, dir, n, err) == st.coefs
  {}

  /** The two adaptation loops, which differ in the sign only. */
  method AdaptLoop(out: array<int>, base: nat, coefs: array<int>, num: nat, q: nat, dir: int, residual: int)
    requires out != coefs && 1 <= num <= coefs.Length && base + num < out.Length
    modifies coefs
    ensures coefs[..num] == old(Adapt(State(out[..base + num + 1], coefs[..num]), q, dir, num, residual))
    ensures coefs[num..] == old(coefs[num..])
  {
    hide Wrap16, Sign, Adapt, Open, Rest;
    ghost var samples := out[..base + num + 1];
    ghost var target := Adapt(State(samples, coefs[..num]), q, dir, num, residual);
    var error := residual;
    var predictor := num - 1;
    while predictor >= 0 && Open(dir, error)
      invariant -1 <= predictor < num
      invariant Adapt(State(samples, coefs[..num]), q, dir, predictor + 1, error) == target
      invariant coefs[num..] == old(coefs[num..])
    {
      ghost var st, before := State(samples, coefs[..num]), error;
      var val := out[base] - out[base + num - predictor];
      var sign := dir * Sign(val);
      coefs[predictor] := Wrap16(coefs[predictor] - sign);
      ghost var next := State(samples, coefs[..num]);
      assert next.coefs == st.coefs[predictor := Wrap16(st.coefs[predictor] - sign)];
      error := Rest(error, val, sign, q, num - predictor);
      AdaptStep(st, q, dir, predictor + 1, before, val, sign, next, error);
      predictor := predictor - 1;
    }
    AdaptDone(State(samples, coefs[..num]), q, dir, predictor + 1, error);
  }

  /** The sum over the taps, relative to the base pointer. */
  method Sum(out: array<int>, base: nat, coefs: array<int>, num: nat) returns (sum: int)
    requires 1 <= num <= coefs.Length && base + num < out.Length
    ensures sum == Dot(State(out[..base + num + 1], coefs[..num]), num)
  {
    hide Wrap32;
    sum := 0;
    for j := 0 to num
      invariant sum == Dot(State(out[..base + num + 1], coefs[..num]), j)
    {
      sum := Wrap32(sum + (out[base + num - j] - out[base]) * coefs[j]);
    }
  }

  /** One turn of the general loop; `base` is the moving buffer_out pointer. */
  method PredictOne(error: int, out: array<int>, base: nat, n: nat, coefs: array<int>, num: nat, q: nat)
    requires out != coefs && n >= 1 && q >= 1
    requires 1 <= num <= coefs.Length && base + num + 1 < out.Length
    modifies out, coefs
    ensures var st := old(State(out[..base + num + 1], coefs[..num]));
            State(out[..base + num + 2], coefs[..num]) == Next(st, SignExtend(Predict(st, q) + error, n), error, q)
    ensures out[base + num + 2..] == old(out[base + num + 2..]) && coefs[num..] == old(coefs[num..])
  {
    hide Wrap32, Pow2, SignExtend, Dot, Wrap16;
    ghost var before := out[..base + num + 1];
    var sum := Sum(out, base, coefs, num);
    var value := Wrap32(Pow2(q - 1) + sum);
    value := value / Pow2(q);
    value := value + out[base] + error;
    value := SignExtend(value, n);
    out[base + num + 1] := value;
    assert out[..base + num + 1] == before;
    assert out[..base + num + 2] == before + [value];
    if error > 0 {
      AdaptLoop(out, base, coefs, num, q, 1, error);
    } else if error < 0 {
      AdaptLoop(out, base, coefs, num, q, -1, error);
    }
  }

  /** The loop shared by the warm-up and the copy-previous case. */
  method AccumulateLoop(err: array<int>, out: array<int>, count: nat, n: nat)
    requires err != out && 1 <= count <= err.Length && count <= out.Length && n >= 1 && out[0] == err[0]
    modifies out
    ensures out[..count] == Accumulate(err[..], count, n)
    ensures out[count..] == old(out[count..])
  {
    assert out[..1] == [err[0]];
    for i := 0 to count - 1
      invariant out[..i + 1] == Accumulate(err[..], i + 1, n)
      invariant out[count..] == old(out[count..])
    {
      out[i + 1] := SignExtend(out[i] + err[i + 1], n);
      assert out[..i + 2] == out[..i + 1] + [out[i + 1]];
    }
  }

  /** `predictor_decompress_fir_adapt` */
  method FirAdapt(err: array<int>, out: array<int>, size: nat, n: nat, coefs: array<int>, num: nat, q: nat)
    requires err != out && err != coefs && out != coefs && err.Length == out.Length
    requires num <= COPY_PREVIOUS && num <= coefs.Length && size <= err.Length && 1 <= err.Length && n >= 1
    requires 1 <= num < COPY_PREVIOUS ==> q >= 1 && num < err.Length
    modifies out, coefs
    ensures var r := old(Decode(err[..], size, n, coefs[..num], q));
            && out[..|r.out|] == r.out && out[|r.out|..] == old(out[|r.out|..])
            && coefs[..num] == r.coefs && coefs[num..] == old(coefs[num..])
  {
    hide Extend, Accumulate;
    out[0] := err[0];
    if num == 0 {
      for i := 1 to Max(size, 1)
        modifies out
        invariant out[..i] == err[..i]
        invariant out[Max(size, 1)..] == old(out[Max(size, 1)..])
      {
        out[i] := err[i];
      }
      assert err[..Max(size, 1)] == err[..][..Max(size, 1)];
      return;
    }
    if num == COPY_PREVIOUS {
      AccumulateLoop(err, out, Max(size, 1), n);
      return;
    }
    AccumulateLoop(err, out, num + 1, n);
    FirLoop(err, out, size, n, coefs, num, q);
  }

  /** The general loop of `predictor_decompress_fir_adapt`, sliding the base pointer. */
  method FirLoop(err: array<int>, out: array<int>, size: nat, n: nat, coefs: array<int>, num: nat, q: nat)
    requires err != out && err != coefs && out != coefs && err.Length == out.Length
    requires 1 <= num <= coefs.Length && num < err.Length && size <= err.Length && n >= 1 && q >= 1
    modifies out, coefs
    ensures var r := old(Extend(err[..], size, n, q, State(out[..num + 1], coefs[..num])));
            && out[..|r.out|] == r.out && out[|r.out|..] == old(out[|r.out|..])
            && coefs[..num] == r.coefs && coefs[num..] == old(coefs[num..])
  {
    hide Predict, Adapt, SignExtend, Extend, Next;
    ghost var target := Extend(err[..], size, n, q, State(out[..num + 1], coefs[..num]));
    var base := 0;
    for i := num + 1 to Max(size, num + 1)
      invariant base == i - num - 1
      invariant Extend(err[..], size, n, q, State(out[..i], coefs[..num])) == target
      invariant forall j :: i <= j < out.Length ==> out[j] == old(out[j])
      invariant coefs[num..] == old(coefs[num..])
    {
      ghost var st, rest := State(out[..i], coefs[..num]), out[i + 1..];
      PredictOne(err[i], out, base, n, coefs, num, q);
      ExtendStep(err[..], size, n, q, st, SignExtend(Predict(st, q) + err[i], n));
      base := base + 1;
      assert forall j :: i < j < out.Length ==> out[j] == out[i + 1..][j - i - 1] == rest[j - i - 1];
    }
    ExtendDone(err[..], size, n, q, State(out[..Max(size, num + 1)], coefs[..num]));
  }

  // ----- the mirror encoder -----

  predicate AllInRange(xs: seq<int>, n: nat)
    requires n >= 1
  {
    forall i :: 0 <= i < |xs| ==> InRange(xs[i], n)
  }

  /** The residuals of the samples behind st, and the state the encoder ends in. */
  function Predicted(samples: seq<int>, n: nat, q: nat, st: State): (r: (seq<int>, State))
    requires Ready(st) && st.out <= samples && n >= 1 && q >= 1
    ensures |r.0| == |samples| - |st.out| && AllInRange(r.0, n)
    decreases |samples| - |st.out|
  {
    var i := |st.out|;
    if i == |samples| then ([], st)
    else
      var e := SignExtend(samples[i] - Predict(st, q), n);
      var rest := Predicted(samples, n, q, Next(st, samples[i], e, q));
      ([e] + rest.0, rest.1)
  }

  function Differences(samples: seq<int>, count: nat, n: nat): (es: seq<int>)
    requires count <= |samples| && n >= 1 && AllInRange(samples, n)
    ensures |es| == count && AllInRange(es, n)
  {
    if count == 0 then []
    else Differences(samples, count - 1, n) +
         [if count == 1 then samples[0] else SignExtend(samples[count - 1] - samples[count - 2], n)]
  }

  /** The residuals the encoder writes, and its final coefficient table. */
  function Residuals(samples: seq<int>, n: nat, coefs: seq<int>, q: nat): (r: (seq<int>, seq<int>))
    requires n >= 1 && AllInRange(samples, n) && |coefs| <= COPY_PREVIOUS
    requires 1 <= |coefs| < COPY_PREVIOUS ==> q >= 1
    ensures |r.0| == |samples| && AllInRange(r.0, n)
  {
    if |coefs| == 0 then (samples, coefs)
    else if |coefs| == COPY_PREVIOUS || |samples| <= |coefs| then (Differences(samples, |samples|, n), coefs)
    else
      var rest := Predicted(samples, n, q, State(samples[..|coefs| + 1], coefs));
      (Differences(samples, |coefs| + 1, n) + rest.0, rest.1.coefs)
  }

  lemma {:induction false} AccumulateInverts(err: seq<int>, samples: seq<int>, count: nat, n: nat)
    requires 1 <= count <= |samples| <= |err| && n >= 1 && AllInRange(samples, n)
    requires err[..count] == Differences(samples, count, n)
    ensures Accumulate(err, count, n) == samples[..count]
  {
    hide SignExtend;
    if count > 1 {
      var es := Differences(samples, count, n);
      assert err[..count - 1] == es[..count - 1] == Differences(samples, count - 1, n);
      assert err[count - 1] == es[count - 1];
      AccumulateInverts(err, samples, count - 1, n);
      SignExtendResidual(samples[count - 1], samples[count - 2], n);
      assert samples[..count] == samples[..count - 1] + [samples[count - 1]];
    } else {
      assert err[0] == err[..1][0];
    }
  }

  lemma SplitHead(err: seq<int>, i: nat, k: nat, e: int, rest: seq<int>)
    requires i < k <= |err| && err[i..k] == [e] + rest
    ensures err[i] == e && err[i + 1..k] == rest
  {
    assert err[i] == err[i..k][0];
    assert err[i + 1..k] == err[i..k][1..];
  }

  /** The decoder follows the encoder sample by sample, coefficients included. */
  lemma {:induction false} ExtendInverts(err: seq<int>, samples: seq<int>, n: nat, q: nat, st: State)
    requires Ready(st) && st.out <= samples && |samples| <= |err| && n >= 1 && q >= 1 && AllInRange(samples, n)
    requires err[|st.out|..|samples|] == Predicted(samples, n, q, st).0
    ensures Extend(err, |samples|, n, q, st) == State(samples, Predicted(samples, n, q, st).1.coefs)
    ensures Predicted(samples, n, q, st).1.out == samples
    decreases |samples| - |st.out|
  {
    hide Predict, Adapt;
    var i := |st.out|;
    if i < |samples| {
      var p := Predict(st, q);
      var e := SignExtend(samples[i] - p, n);
      var next := Next(st, samples[i], e, q);
      SplitHead(err, i, |samples|, e, Predicted(samples, n, q, next).0);
      SignExtendResidual(samples[i], p, n);
      ExtendStep(err, |samples|, n, q, st, samples[i]);
      ExtendInverts(err, samples, n, q, next);
    }
  }

  lemma ExtendDone(err: seq<int>, size: nat, n: nat, q: nat, st: State)
    requires Ready(st) && size <= |st.out| && size <= |err| && n >= 1 && q >= 1
    ensures Extend(err, size, n, q, st) == st
  {}

  lemma ExtendStep(err: seq<int>, size: nat, n: nat, q: nat, st: State, value: int)
    requires Ready(st) && |st.out| < size <= |err| && n >= 1 && q >= 1
    requires value == SignExtend(Predict(st, q) + err[|st.out|], n)
    ensures Extend(err, size, n, q, st) == Extend(err, size, n, q, Next(st, value, err[|st.out|], q))
  {}

  /**
  Lossless prediction: for every order and every sample sequence in range, decoding the
  residuals gives the samples back, and the decoder's coefficients end equal to the encoder's.
  */
  lemma RoundTrip(err: seq<int>, samples: seq<int>, n: nat, coefs: seq<int>, q: nat)
    requires n >= 1 && AllInRange(samples, n) && |coefs| <= COPY_PREVIOUS && 1 <= |samples| <= |err|
    requires 1 <= |coefs| < COPY_PREVIOUS ==> q >= 1 && |coefs| < |err|
    requires err[..|samples|] == Residuals(samples, n, coefs, q).0
    ensures Decode(err, |samples|, n, coefs, q).out[..|samples|] == samples
    ensures Decode(err, |samples|, n, coefs, q).coefs == Residuals(samples, n, coefs, q).1
  {
    hide Extend, Predicted, Differences, Accumulate, InRange;
    var k := |samples|;
    if |coefs| == 0 {
    } else if |coefs| == COPY_PREVIOUS {
      AccumulateInverts(err, samples, k, n);
    } else if k <= |coefs| {
      AccumulateInverts(err, samples, k, n);
      AccumulatePrefix(err, k, |coefs| + 1, n);
      ExtendDone(err, k, n, q, State(Accumulate(err, |coefs| + 1, n), coefs));
    } else {
      var w := |coefs| + 1;
      var st := State(samples[..w], coefs);
      var es := Differences(samples, w, n) + Predicted(samples, n, q, st).0;
      assert err[..w] == es[..w] == Differences(samples, w, n);
      assert err[w..k] == err[..k][w..] == es[w..];
      AccumulateInverts(err, samples, w, n);
      ExtendInverts(err, samples, n, q, st);
    }
  }

  /** Running the warm-up longer does not change what it produced first. */
  lemma {:induction false} AccumulatePrefix(err: seq<int>, a: nat, b: nat, n: nat)
    requires 1 <= a <= b <= |err| && n >= 1
    ensures Accumulate(err, b, n)[..a] == Accumulate(err, a, n)
  {
    if a < b {
      AccumulatePrefix(err, a, b - 1, n);
      assert Accumulate(err, b, n)[..a] == Accumulate(err, b - 1, n)[..a];
    }
  }

  // ----- every residual sequence is that of some samples -----

  /** The samples whose residuals are es. */
  function Rebuilt(es: seq<int>, n: nat, coefs: seq<int>, q: nat): (samples: seq<int>)
    requires |es| >= 1 && n >= 1 && |coefs| <= COPY_PREVIOUS
    requires 1 <= |coefs| < COPY_PREVIOUS ==> q >= 1
    ensures |samples| == |es|
  {
    if |coefs| == 0 then es
    else if |coefs| == COPY_PREVIOUS || |es| <= |coefs| then Accumulate(es, |es|, n)
    else Extend(es, |es|, n, q, State(Accumulate(es, |coefs| + 1, n), coefs)).out
  }

  lemma ResidualOf(e: int, p: int, n: nat)
    requires n >= 1 && InRange(e, n)
    ensures SignExtend(SignExtend(p + e, n) - p, n) == e
  {
    hide SignExtend;
    SignExtendResidual(e, -p, n);
    assert e - -p == p + e;
    assert -p + SignExtend(p + e, n) == SignExtend(p + e, n) - p;
  }

  lemma {:induction false} DifferencesOfPrefix(a: seq<int>, b: seq<int>, count: nat, n: nat)
    requires count <= |a| && count <= |b| && n >= 1 && AllInRange(a, n) && AllInRange(b, n) && a[..count] == b[..count]
    ensures Differences(a, count, n) == Differences(b, count, n)
  {
    hide SignExtend, InRange;
    if count > 0 {
      assert a[count - 1] == a[..count][count - 1] == b[count - 1];
      assert a[..count - 1] == a[..count][..count - 1] == b[..count - 1];
      if count > 1 {
        assert a[count - 2] == a[..count][count - 2] == b[count - 2];
      }
      DifferencesOfPrefix(a, b, count - 1, n);
    }
  }

  lemma {:induction false} AccumulateOnto(es: seq<int>, count: nat, n: nat)
    requires 1 <= count <= |es| && n >= 1 && AllInRange(es, n)
    ensures AllInRange(Accumulate(es, count, n), n)
    ensures Differences(Accumulate(es, count, n), count, n) == es[..count]
  {
    hide SignExtend, InRange;
    var out := Accumulate(es, count, n);
    if count == 1 {
      assert es[..1] == [es[0]];
      OneDifference(es[0], n);
    } else {
      AccumulateOnto(es, count - 1, n);
      var front := Accumulate(es, count - 1, n);
      assert out[..count - 1] == front;
      InRangeOf(front[count - 2] + es[count - 1], n);
      DifferencesOfPrefix(out, front, count - 1, n);
      ResidualOf(es[count - 1], front[count - 2], n);
      assert es[..count] == es[..count - 1] + [es[count - 1]];
    }
  }

  lemma OneDifference(x: int, n: nat)
    requires n >= 1 && InRange(x, n)
    ensures Differences([x], 1, n) == [x]
  {
    assert Differences([x], 0, n) == [];
  }

  lemma InRangeOf(v: int, n: nat)
    requires n >= 1
    ensures InRange(SignExtend(v, n), n)
  {}

  lemma {:induction false} ExtendOnto(err: seq<int>, size: nat, n: nat, q: nat, st: State)
    requires Ready(st) && |st.out| <= size <= |err| && n >= 1 && q >= 1
    requires AllInRange(err, n) && AllInRange(st.out, n)
    ensures var r := Extend(err, size, n, q, st).out;
            AllInRange(r, n) && Predicted(r, n, q, st).0 == err[|st.out|..size]
    decreases size - |st.out|
  {
    hide Predict, Adapt, SignExtend, InRange, Predicted, Extend, Next;
    var i := |st.out|;
    if i == size {
      ExtendDone(err, size, n, q, st);
      NonePredicted(n, q, st);
    } else {
      var e, p := err[i], Predict(st, q);
      var value := SignExtend(p + e, n);
      InRangeOf(p + e, n);
      ResidualOf(e, p, n);
      ExtendStep(err, size, n, q, st, value);
      var next := Next(st, value, e, q);
      ExtendOnto(err, size, n, q, next);
      var r := Extend(err, size, n, q, next).out;
      assert r[i] == next.out[i] == value;
      PredictedStep(r, n, q, st);
      assert err[i..size] == [e] + err[i + 1..size];
    }
  }

  lemma NonePredicted(n: nat, q: nat, st: State)
    requires Ready(st) && n >= 1 && q >= 1
    ensures Predicted(st.out, n, q, st).0 == []
  {}

  lemma PredictedStep(samples: seq<int>, n: nat, q: nat, st: State)
    requires Ready(st) && st.out < samples && n >= 1 && q >= 1
    ensures var i := |st.out|;
            var e := SignExtend(samples[i] - Predict(st, q), n);
            Predicted(samples, n, q, st).0 == [e] + Predicted(samples, n, q, Next(st, samples[i], e, q)).0
  {}

  /** Decoding is onto: the rebuilt samples are in range and have the given residuals. */
  lemma RebuiltInverts(es: seq<int>, n: nat, coefs: seq<int>, q: nat)
    requires |es| >= 1 && n >= 1 && |coefs| <= COPY_PREVIOUS && AllInRange(es, n)
    requires 1 <= |coefs| < COPY_PREVIOUS ==> q >= 1
    ensures AllInRange(Rebuilt(es, n, coefs, q), n)
    ensures Residuals(Rebuilt(es, n, coefs, q), n, coefs, q).0 == es
  {
    hide InRange, Extend, Predicted, Differences, Accumulate;
    var k := |es|;
    if |coefs| == 0 {
    } else if |coefs| == COPY_PREVIOUS || k <= |coefs| {
      AccumulateOnto(es, k, n);
      assert es[..k] == es;
    } else {
      var w := |coefs| + 1;
      AccumulateOnto(es, w, n);
      var st := State(Accumulate(es, w, n), coefs);
      ExtendOnto(es, k, n, q, st);
      var samples := Extend(es, k, n, q, st).out;
      assert samples[..w] == st.out;
      DifferencesOfPrefix(samples, st.out, w, n);
      assert es[..w] + es[w..k] == es;
    }
  }

  /** Decoding is one to one: other residuals in range give other samples. */
  lemma DecodeDiffers(err: seq<int>, es: seq<int>, samples: seq<int>, n: nat, coefs: seq<int>, q: nat)
    requires n >= 1 && AllInRange(samples, n) && |coefs| <= COPY_PREVIOUS && 1 <= |samples| == |es| <= |err|
    requires 1 <= |coefs| < COPY_PREVIOUS ==> q >= 1 && |coefs| < |err|
    requires es == Residuals(samples, n, coefs, q).0 && err[..|es|] != es && AllInRange(err[..|es|], n)
    ensures Decode(err, |es|, n, coefs, q).out[..|es|] != samples
    ensures AllInRange(Decode(err, |es|, n, coefs, q).out[..|es|], n)
  {
    hide InRange, Residuals, Rebuilt, Decode;
    var other := err[..|es|];
    RebuiltInverts(other, n, coefs, q);
    RoundTrip(err, Rebuilt(other, n, coefs, q), n, coefs, q);
  }
}
