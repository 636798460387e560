/** The entropy decoder in the source's form, proved against the functions of module Rice. */
module RiceDecoder {
  import opened Arith
  import opened Bits
  import opened BitReader
  import opened Options
  import opened Rice

  /** The unary prefix read by `entropy_decode_value`. */
  method ReadOnes(r: Reader) returns (x: nat)
    requires r.Valid() && Ones(r.bits, r.Pos(), 0).Some?
    modifies r`ptr, r`acc
    ensures r.Valid()
    ensures old(Ones(r.bits, r.Pos(), 0)) == Some((x, r.Pos()))
  {
    ghost var target := Ones(r.bits, r.Pos(), 0);
    x := 0;
    while x <= THRESHOLD
      invariant r.Valid() && x <= THRESHOLD + 1
      invariant Ones(r.bits, r.Pos(), x) == target
      decreases THRESHOLD + 1 - x
    {
      var bit := r.ReadBit();
      if !bit {
        break;
      }
      x := x + 1;
    }
  }

  /** `entropy_decode_value` */
  method EntropyDecodeValue(r: Reader, sampleBits: nat, k: nat, maskBits: nat) returns (x: nat)
    requires r.Valid() && 1 <= sampleBits <= 32 && 1 <= k <= MAX_K && maskBits >= 1
    requires DecodeValue(r.bits, r.Pos(), sampleBits, k, maskBits).Some?
    modifies r`ptr, r`acc
    ensures r.Valid()
    ensures old(DecodeValue(r.bits, r.Pos(), sampleBits, k, maskBits)) == Some((x, r.Pos()))
  {
    hide Ones, Factor, Pow2, Val;
    x := ReadOnes(r);
    if x > THRESHOLD {
      x := r.ReadBits(sampleBits);
    } else if k != 1 {
      var extra := r.ReadBits(k);
      var factor := Factor(k, maskBits);
      MulBound(x, THRESHOLD, factor, Pow2(k));
      x := x * factor;
      if extra > 1 {
        x := x + (extra - 1);
      } else {
        r.UnreadBits(1);
      }
    }
  }

  /** `memset` of a run of samples to zero. */
  method ZeroFill(out: array<int>, from: nat, count: nat)
    requires from + count <= out.Length
    modifies out
    ensures out[..from + count] == old(out[..from]) + Zeros(count)
    ensures forall j :: from + count <= j < out.Length ==> out[j] == old(out[j])
  {
    for i := from to from + count
      invariant out[..i] == old(out[..from]) + Zeros(i - from)
      invariant forall j :: i <= j < out.Length ==> out[j] == old(out[j])
    {
      out[i] := 0;
    }
  }

  /** The first half of the loop body in `entropy_rice_decode`. */
  method DecodeSample(r: Reader, out: array<int>, ps: Params, count: nat, history: int, signModifier: int)
    returns (history': int)
    requires r.Valid() && ps.Valid() && count < out.Length
    requires Inv(State(r.Pos(), history, signModifier, out[..count])) && history >= 0
    requires SampleStep(ps, r.bits, State(r.Pos(), history, signModifier, out[..count])).Some?
    modifies r`ptr, r`acc, out
    ensures r.Valid()
    ensures old(SampleStep(ps, r.bits, State(r.Pos(), history, signModifier, out[..count])))
         == Some(State(r.Pos(), history', 0, out[..count + 1]))
    ensures forall j :: count < j < out.Length ==> out[j] == old(out[j])
  {
    hide DecodeValue, SampleK, NextHistory, Unzigzag;
    ghost var prefix := out[..count];
    var decoded := EntropyDecodeValue(r, ps.sampleBits, SampleK(history, ps.kModifier), 32);
    decoded := decoded + signModifier;
    out[count] := Unzigzag(decoded);
    assert out[..count + 1] == prefix + [Unzigzag(decoded)];
    history' := NextHistory(history, decoded, ps.historyMult);
  }

  /** The second half: the run of zeros that follows a low history. */
  method DecodeRun(r: Reader, out: array<int>, ps: Params, count: nat, history: int)
    returns (count': nat, signModifier': int)
    requires r.Valid() && ps.Valid() && 1 <= history < 128 && count <= out.Length
    requires RunStep(ps, r.bits, out.Length, State(r.Pos(), history, 0, out[..count])).Some?
    modifies r`ptr, r`acc, out
    ensures r.Valid() && count <= count' <= out.Length
    ensures old(RunStep(ps, r.bits, out.Length, State(r.Pos(), history, 0, out[..count])))
         == Some(State(r.Pos(), 0, signModifier', out[..count']))
    ensures forall j :: count' <= j < out.Length ==> out[j] == old(out[j])
  {
    hide DecodeValue, RunK;
    signModifier' := 1;
    var run := EntropyDecodeValue(r, 16, RunK(history), ps.kModifier);
    count' := count;
    if run > 0 {
      ZeroFill(out, count, run);
      count' := count + run;
    }
    if run > 0xFFFF {
      signModifier' := 0;
    }
    assert out[..count'] == old(out[..count]) + Zeros(run);
  }

  /** `entropy_rice_decode` */
  method EntropyRiceDecode(r: Reader, out: array<int>, size: nat, ps: Params)
    requires r.Valid() && ps.Valid() && size <= out.Length
    requires Decode(ps, r.bits, size, out.Length, Initial(ps, r.Pos())).Some?
    modifies r`ptr, r`acc, out
    ensures r.Valid()
    ensures var result := old(Decode(ps, r.bits, size, out.Length, Initial(ps, r.Pos()))).value;
            && r.Pos() == result.pos
            && out[..|result.out|] == result.out
            && out[|result.out|..] == old(out[|result.out|..])
  {
    hide SampleStep, RunStep, Decode;
    ghost var target := Decode(ps, r.bits, size, out.Length, Initial(ps, r.Pos()));
    var count := 0;
    var history := ps.initialHistory;
    var signModifier := 0;
    assert out[..count] == [];
    while count < size
      invariant r.Valid() && count <= out.Length
      invariant Ready(State(r.Pos(), history, signModifier, out[..count]), size)
      invariant Decode(ps, r.bits, size, out.Length, State(r.Pos(), history, signModifier, out[..count])) == target
      invariant forall j :: count <= j < out.Length ==> out[j] == old(out[j])
      decreases size - count
    {
      ghost var st := State(r.Pos(), history, signModifier, out[..count]);
      DecodeTurns(ps, r.bits, size, out.Length, st);
      history := DecodeSample(r, out, ps, count, history, signModifier);
      count := count + 1;
      signModifier := 0;
      ghost var st1 := State(r.Pos(), history, 0, out[..count]);
      if history < 128 && count < size {
        count, signModifier := DecodeRun(r, out, ps, count, history);
        history := 0;
      }
      DecodeByStep(ps, r.bits, size, out.Length, st, st1, State(r.Pos(), history, signModifier, out[..count]));
    }
    DecodeDone(ps, r.bits, size, out.Length, State(r.Pos(), history, signModifier, out[..count]));
  }
}
