/**
 build_adder_circuit and the construction half of quantum_adder: the full
 Draper adder over len_a + len_b + 1 qubits. Qubit 0 is the carry, qubits
 1..len_a hold A's string and the rest B's; len_a + 1 classical bits read
 back the carry and A.
 */
module Adder {
  import opened Results
  import opened Circuits
  import opened Encoding
  import Binary
  import Qft
  import Addition

  /**
   The two zero-controlled Toffolis on the carry: X on A's first qubit around
   CCX(1+len_a, 1 -> 0), then X on B's first qubit around CCX(1, 1+len_a -> 0).
   */
  function SignCorrection(la: nat): seq<Gate> {
    [X(1), CCX(1 + la, 1, 0), X(1), X(1 + la), CCX(1, 1 + la, 0), X(1 + la)]
  }

  /** circuit.measure(range(n), range(n)). */
  function Measures(n: nat): (r: seq<Gate>)
    ensures |r| == n
  {
    seq(n, i requires 0 <= i < n => Measure(i, i))
  }

  /** build_adder_circuit(bin_a, bin_b): the three sub-circuits, then their assembly. */
  function BuildAdder(binA: string, binB: string): Result<Circuit> {
    var la, lb := |binA|, |binB|;
    var n := la + lb + 1;
    EncodingCircuitSpec(n, binA, binB);
    var enc :- EncodingCircuit(n, binA, binB);
    var qft :- Qft.QftCircuit(la);
    Addition.AdditionCircuitSpec(la, lb);
    var add :- Addition.AdditionCircuit(la, lb);
    Assemble(n, la, enc, qft, add)
  }

  /**
   The composition in build_adder_circuit: the encoding on qubits 1..n-1, the
   sign correction, the QFT on 0..la, the network on all qubits, the inverse
   QFT on 0..la, then measures of qubits 0..la into bits 0..la.
   */
  function Assemble(n: nat, la: nat, enc: Circuit, qft: Circuit, add: Circuit): Result<Circuit>
    requires n >= 1 && WellFormed(enc) && WellFormed(qft) && WellFormed(add)
  {
    var c0 := Empty(n, la + 1);
    var c1 :- Append(c0, enc, Range(1, n));
    var c2 :- Emit(c1, SignCorrection(la));
    var c3 :- Append(c2, qft, Range(0, la + 1));
    var c4 :- Append(c3, add, Range(0, n));
    var inv :- Inverse(qft);
    var c5 :- Append(c4, inv, Range(0, la + 1));
    Emit(c5, Measures(la + 1))
  }

  /** The assembled gate list, block by block, with every sub-circuit embedded at its offset. */
  function AdderGates(binA: string, binB: string): seq<Gate> {
    Blocks(XGates(binA + binB, 1), |binA|, |binB|)
  }

  /** The blocks after the embedded encoding enc: encoding, sign correction, QFT, network, inverse QFT, measures. */
  function Blocks(enc: seq<Gate>, la: nat, lb: nat): seq<Gate> {
    enc
      + SignCorrection(la)
      + Qft.QftGates(la)
      + Addition.AddGates(la, lb)
      + InverseGates(Qft.QftGates(la))
      + Measures(la + 1)
  }

  lemma ShiftZero(gs: seq<Gate>)
    ensures ShiftAll(gs, 0) == gs
  {
    forall i | 0 <= i < |gs|
      ensures ShiftAll(gs, 0)[i] == gs[i]
    {
      match gs[i]
      case X(_) =>
      case H(_) =>
      case CP(_, _, _, _) =>
      case CCX(_, _, _) =>
      case Measure(_, _) =>
    }
  }

  lemma CcxValid(c1: nat, c2: nat, t: nat, nq: nat, nc: nat)
    ensures Valid(CCX(c1, c2, t), nq, nc) <==> c1 < nq && c2 < nq && t < nq && c1 != c2 && c1 != t && c2 != t
  {
    var qs := Qubits(CCX(c1, c2, t));
    assert qs == [c1, c2, t];
    assert Distinct(qs) <==> c1 != c2 && c1 != t && c2 != t by {
      assert qs[0] == c1 && qs[1] == c2 && qs[2] == t;
    }
  }

  /**
   In a circuit whose qubits reach past 1 + la (B non-empty), the sign
   correction is accepted iff A is non-empty: with la == 0 both Toffolis name
   qubit 1 twice.
   */
  lemma SignCorrectionValid(la: nat, nq: nat, nc: nat)
    requires 1 + la < nq
    ensures (forall i :: 0 <= i < 6 ==> Valid(SignCorrection(la)[i], nq, nc)) <==> la >= 1
  {
    if la >= 1 {
      SignCorrectionAccepted(la, nq, nc);
    } else {
      CcxValid(1, 1, 0, nq, nc);
      assert SignCorrection(la)[1] == CCX(1, 1, 0);
    }
  }

  lemma SignCorrectionAccepted(la: nat, nq: nat, nc: nat)
    requires 1 <= la && 1 + la < nq
    ensures forall i :: 0 <= i < 6 ==> Valid(SignCorrection(la)[i], nq, nc)
  {
    var sc := SignCorrection(la);
    forall i | 0 <= i < 6
      ensures Valid(sc[i], nq, nc)
    {
      if i == 1 {
        CcxValid(1 + la, 1, 0, nq, nc);
      } else if i == 4 {
        CcxValid(1, 1 + la, 0, nq, nc);
      } else if i == 0 || i == 2 {
        XValid(1, nq, nc);
      } else {
        XValid(1 + la, nq, nc);
      }
    }
  }

  lemma MeasuresValid(n: nat, nq: nat)
    requires n <= nq
    ensures forall i :: 0 <= i < n ==> Valid(Measures(n)[i], nq, n)
  {
    forall i | 0 <= i < n
      ensures Valid(Measures(n)[i], nq, n)
    {
      assert Qubits(Measure(i, i)) == [i];
      assert Clbits(Measure(i, i)) == [i];
    }
  }

  /** A sub-circuit embedded on qubits 1..n-1 of an empty n-qubit circuit: every index moves up by one. */
  lemma EncodingBlock(n: nat, nc: nat, enc: Circuit)
    requires enc.qubits + 1 == n && enc.clbits == 0 && WellFormed(enc)
    ensures Append(Empty(n, nc), enc, Range(1, n)) == Ok(Circuit(n, nc, ShiftAll(enc.gates, 1)))
  {
    var c0 := Empty(n, nc);
    AppendRange(c0, enc, 1);
    assert [] + ShiftAll(enc.gates, 1) == ShiftAll(enc.gates, 1);
  }

  /** The sign correction is accepted on a well-formed circuit of the adder's size when both registers are non-empty. */
  lemma SignBlock(c1: Circuit, la: nat, lb: nat)
    requires la >= 1 && lb >= 1 && c1.qubits == la + lb + 1 && WellFormed(c1)
    ensures Emit(c1, SignCorrection(la)) == Ok(Circuit(c1.qubits, c1.clbits, c1.gates + SignCorrection(la)))
    ensures WellFormed(Emit(c1, SignCorrection(la)).value)
  {
    SignCorrectionValid(la, c1.qubits, c1.clbits);
  }

  /** Appending the QFT, the network and the inverse QFT at their offsets adds their gates unchanged. */
  lemma MiddleBlocks(c2: Circuit, la: nat, lb: nat, add: Circuit)
    requires c2.qubits == la + lb + 1 && WellFormed(c2)
    requires add == Circuit(la + lb + 1, 0, Addition.AddGates(la, lb)) && WellFormed(add)
    ensures var qft := Qft.QftLayout(la);
      var c3 := Append(c2, qft, Range(0, la + 1));
      && c3.Ok?
      && var c4 := Append(c3.value, add, Range(0, la + lb + 1));
      && c4.Ok?
      && Inverse(qft).Ok?
      && var c5 := Append(c4.value, Inverse(qft).value, Range(0, la + 1));
      && c5 == Ok(Circuit(c2.qubits, c2.clbits, c2.gates + Qft.QftGates(la) + Addition.AddGates(la, lb) + InverseGates(Qft.QftGates(la))))
      && WellFormed(c5.value)
  {
    var qft := Qft.QftLayout(la);
    AppendRange(c2, qft, 0);
    ShiftZero(qft.gates);
    var c3 := Append(c2, qft, Range(0, la + 1)).value;
    AppendRange(c3, add, 0);
    ShiftZero(add.gates);
    var c4 := Append(c3, add, Range(0, la + lb + 1)).value;
    Qft.QftInverse(la);
    var inv := Inverse(qft).value;
    AppendRange(c4, inv, 0);
    ShiftZero(inv.gates);
  }

  /** The final measures are accepted on a well-formed circuit with m classical bits and at least m qubits. */
  lemma MeasureBlock(c: Circuit, m: nat)
    requires m <= c.qubits && c.clbits == m && WellFormed(c)
    ensures Emit(c, Measures(m)) == Ok(Circuit(c.qubits, c.clbits, c.gates + Measures(m)))
    ensures WellFormed(Emit(c, Measures(m)).value)
  {
    MeasuresValid(m, c.qubits);
  }

  /** After the sign correction: QFT, network, inverse QFT and measures, all accepted, in that order. */
  lemma BackBlocks(c2: Circuit, la: nat, lb: nat, add: Circuit)
    requires c2.qubits == la + lb + 1 && c2.clbits == la + 1 && WellFormed(c2)
    requires add == Circuit(la + lb + 1, 0, Addition.AddGates(la, lb)) && WellFormed(add)
    ensures var qft := Qft.QftLayout(la);
      var c3 := Append(c2, qft, Range(0, la + 1));
      && c3.Ok?
      && var c4 := Append(c3.value, add, Range(0, la + lb + 1));
      && c4.Ok?
      && Inverse(qft).Ok?
      && var c5 := Append(c4.value, Inverse(qft).value, Range(0, la + 1));
      && c5.Ok?
      && var r := Emit(c5.value, Measures(la + 1));
      && r == Ok(Circuit(c2.qubits, c2.clbits, c2.gates + Qft.QftGates(la) + Addition.AddGates(la, lb)
          + InverseGates(Qft.QftGates(la)) + Measures(la + 1)))
      && WellFormed(r.value)
  {
    MiddleBlocks(c2, la, lb, add);
    var qft := Qft.QftLayout(la);
    var c3 := Append(c2, qft, Range(0, la + 1)).value;
    var c4 := Append(c3, add, Range(0, la + lb + 1)).value;
    var c5 := Append(c4, Inverse(qft).value, Range(0, la + 1)).value;
    MeasureBlock(c5, la + 1);
  }

  /** The encoding on qubits 1..n-1 followed by the sign correction, both accepted. */
  lemma FrontBlocks(la: nat, lb: nat, enc: Circuit)
    requires la >= 1 && lb >= 1
    requires enc.qubits == la + lb && enc.clbits == 0 && WellFormed(enc)
    ensures var c1 := Append(Empty(la + lb + 1, la + 1), enc, Range(1, la + lb + 1));
      && c1.Ok?
      && var c2 := Emit(c1.value, SignCorrection(la));
      && c2 == Ok(Circuit(la + lb + 1, la + 1, ShiftAll(enc.gates, 1) + SignCorrection(la)))
      && WellFormed(c2.value)
  {
    var n := la + lb + 1;
    EncodingBlock(n, la + 1, enc);
    var c1 := Append(Empty(n, la + 1), enc, Range(1, n)).value;
    assert WellFormed(c1);
    SignBlock(c1, la, lb);
  }

  /** With both registers non-empty, every step of the assembly succeeds and the blocks follow one another. */
  lemma AssembleChain(la: nat, lb: nat, enc: Circuit, add: Circuit, gs: seq<Gate>)
    requires la >= 1 && lb >= 1
    requires enc.qubits == la + lb && enc.clbits == 0 && WellFormed(enc)
    requires add == Circuit(la + lb + 1, 0, Addition.AddGates(la, lb)) && WellFormed(add)
    requires gs == Blocks(ShiftAll(enc.gates, 1), la, lb)
    ensures var r := Assemble(la + lb + 1, la, enc, Qft.QftLayout(la), add);
      && r == Ok(Circuit(la + lb + 1, la + 1, gs))
      && WellFormed(r.value)
  {
    FrontBlocks(la, lb, enc);
    var c1 := Append(Empty(la + lb + 1, la + 1), enc, Range(1, la + lb + 1)).value;
    BackBlocks(Emit(c1, SignCorrection(la)).value, la, lb, add);
  }

  /** Once the three sub-builders succeed, build_adder_circuit is the assembly of their circuits. */
  lemma BuildAdderParts(binA: string, binB: string)
    requires EncodingCircuit(|binA| + |binB| + 1, binA, binB).Ok?
    requires Qft.QftCircuit(|binA|).Ok?
    requires Addition.AdditionCircuit(|binA|, |binB|).Ok?
    ensures var n := |binA| + |binB| + 1;
      var enc := EncodingCircuit(n, binA, binB).value;
      var add := Addition.AdditionCircuit(|binA|, |binB|).value;
      && WellFormed(enc) && WellFormed(add)
      && BuildAdder(binA, binB) == Assemble(n, |binA|, enc, Qft.QftLayout(|binA|), add)
  {
    EncodingCircuitWellFormed(|binA| + |binB| + 1, binA, binB);
    Addition.AdditionCircuitSpec(|binA|, |binB|);
  }

  /** For digit strings the encoding builder succeeds with a well-formed circuit on len_a + len_b qubits. */
  lemma EncodingBuilder(binA: string, binB: string)
    requires AllDigits(binA) && AllDigits(binB)
    ensures var enc := EncodingCircuit(|binA| + |binB| + 1, binA, binB);
      && enc.Ok?
      && enc.value.qubits == |binA| + |binB| && enc.value.clbits == 0
      && WellFormed(enc.value)
  {
    var n := |binA| + |binB| + 1;
    EncodingForAdderOk(binA, binB);
    EncodingCircuitShape(n, binA, binB);
    EncodingCircuitWellFormed(n, binA, binB);
  }

  /** The blocks built around the encoding circuit's gates are AdderGates. */
  lemma EncodingBlocks(binA: string, binB: string)
    requires EncodingCircuit(|binA| + |binB| + 1, binA, binB).Ok?
    ensures Blocks(ShiftAll(EncodingCircuit(|binA| + |binB| + 1, binA, binB).value.gates, 1), |binA|, |binB|) == AdderGates(binA, binB)
  {
    EncodingCircuitGates(|binA| + |binB| + 1, binA, binB);
    XGatesAppend(binA, binB, 0);
    XGatesShift(binA + binB, 0, 1);
  }

  /** For a non-empty B and angles that fit, the addition builder succeeds with the network's gates. */
  lemma AdditionBuilder(la: nat, lb: nat)
    requires lb >= 1 && la <= MaxExponent && lb < MaxExponent
    ensures var add := Addition.AdditionCircuit(la, lb);
      && add.Ok?
      && add.value == Circuit(la + lb + 1, 0, Addition.AddGates(la, lb))
      && WellFormed(add.value)
  {
    Addition.AdditionCircuitSpec(la, lb);
  }

  /** The assembly of the two sub-circuits is AdderGates, well-formed. */
  lemma AdderParts(binA: string, binB: string)
    requires AllDigits(binA) && AllDigits(binB) && 1 <= |binA| < MaxExponent && 1 <= |binB| < MaxExponent
    ensures EncodingCircuit(|binA| + |binB| + 1, binA, binB).Ok?
    ensures Addition.AdditionCircuit(|binA|, |binB|).Ok?
    ensures WellFormed(EncodingCircuit(|binA| + |binB| + 1, binA, binB).value)
    ensures WellFormed(Addition.AdditionCircuit(|binA|, |binB|).value)
    ensures var r := Assemble(|binA| + |binB| + 1, |binA|, EncodingCircuit(|binA| + |binB| + 1, binA, binB).value,
        Qft.QftLayout(|binA|), Addition.AdditionCircuit(|binA|, |binB|).value);
      r == Ok(Circuit(|binA| + |binB| + 1, |binA| + 1, AdderGates(binA, binB))) && WellFormed(r.value)
  {
    EncodingBuilder(binA, binB);
    AdditionBuilder(|binA|, |binB|);
    var enc := EncodingCircuit(|binA| + |binB| + 1, binA, binB).value;
    var add := Addition.AdditionCircuit(|binA|, |binB|).value;
    EncodingBlocks(binA, binB);
    AssembleChain(|binA|, |binB|, enc, add, AdderGates(binA, binB));
  }

  /**
   When both strings are non-empty digit strings shorter than 1023 characters,
   every append succeeds and the circuit is exactly the blocks of AdderGates
   on len_a + len_b + 1 qubits and len_a + 1 classical bits, every index in
   range.
   */
  lemma AdderChain(binA: string, binB: string)
    requires AllDigits(binA) && AllDigits(binB) && 1 <= |binA| < MaxExponent && 1 <= |binB| < MaxExponent
    ensures WellFormed(Circuit(|binA| + |binB| + 1, |binA| + 1, AdderGates(binA, binB)))
    ensures BuildAdder(binA, binB) == Ok(Circuit(|binA| + |binB| + 1, |binA| + 1, AdderGates(binA, binB)))
  {
    AdderParts(binA, binB);
    BuildAdderParts(binA, binB);
  }

  /**
   build_adder_circuit succeeds exactly when both strings are non-empty digit
   strings shorter than 1023 characters. The first failure, in source order:
   a non-digit raises ValueError (InvalidInput); len_a >= 1023 makes the QFT's
   exponent len_a + 1 overflow, len_b >= 1023 the network's carry exponent
   len_b + 1 (AngleOverflow); otherwise an empty B makes the network's half
   turn act on one qubit twice, and an empty A makes the first Toffoli
   CCX(1, 1 -> 0) (MalformedSequence).
   */
  lemma AdderOk(binA: string, binB: string)
    ensures BuildAdder(binA, binB).Ok? <==>
      AllDigits(binA) && AllDigits(binB) && 1 <= |binA| < MaxExponent && 1 <= |binB| < MaxExponent
    ensures !(AllDigits(binA) && AllDigits(binB)) ==> BuildAdder(binA, binB) == Err(InvalidInput)
    ensures AllDigits(binA) && AllDigits(binB) && (|binA| >= MaxExponent || |binB| >= MaxExponent) ==>
      BuildAdder(binA, binB) == Err(AngleOverflow)
    ensures AllDigits(binA) && AllDigits(binB) && |binA| < MaxExponent && |binB| < MaxExponent && (|binA| == 0 || |binB| == 0) ==>
      BuildAdder(binA, binB) == Err(MalformedSequence)
  {
    var la, lb := |binA|, |binB|;
    if !(AllDigits(binA) && AllDigits(binB)) {
      AdderNonDigit(binA, binB);
    } else if la >= MaxExponent || lb >= MaxExponent {
      AdderOverflow(binA, binB);
    } else if la == 0 || lb == 0 {
      AdderEmpty(binA, binB);
    } else {
      AdderChain(binA, binB);
    }
  }

  /** A non-digit raises ValueError in the encoding, before anything else is built. */
  lemma AdderNonDigit(binA: string, binB: string)
    requires !(AllDigits(binA) && AllDigits(binB))
    ensures BuildAdder(binA, binB) == Err(InvalidInput)
  {
    EncodingNonDigit(|binA| + |binB| + 1, binA, binB);
  }

  /** With digit strings, a string of 1023 or more characters overflows the QFT's or the network's largest angle. */
  lemma AdderOverflow(binA: string, binB: string)
    requires AllDigits(binA) && AllDigits(binB)
    requires |binA| >= MaxExponent || |binB| >= MaxExponent
    ensures BuildAdder(binA, binB) == Err(AngleOverflow)
  {
    EncodingForAdder(binA, binB);
    Addition.AdditionCircuitSpec(|binA|, |binB|);
  }

  /** With digit strings whose angles fit, an empty B or an empty A repeats a qubit in one gate. */
  lemma AdderEmpty(binA: string, binB: string)
    requires AllDigits(binA) && AllDigits(binB)
    requires |binA| < MaxExponent && |binB| < MaxExponent
    requires |binA| == 0 || |binB| == 0
    ensures BuildAdder(binA, binB) == Err(MalformedSequence)
  {
    var la, lb := |binA|, |binB|;
    var n := la + lb + 1;
    EncodingCircuitSpec(n, binA, binB);
    EncodingForAdder(binA, binB);
    Addition.AdditionCircuitSpec(la, lb);
    if lb >= 1 {
      var enc := EncodingCircuit(n, binA, binB).value;
      var c0 := Empty(n, la + 1);
      AppendRange(c0, enc, 1);
      var c1 := Append(c0, enc, Range(1, n)).value;
      SignCorrectionValid(la, n, la + 1);
      assert Emit(c1, SignCorrection(la)).Err?;
    }
  }

  /** A non-digit in either string makes the encoding raise InvalidInput when every '1' fits. */
  lemma EncodingNonDigit(n: nat, binA: string, binB: string)
    requires n == |binA| + |binB| + 1
    requires !(AllDigits(binA) && AllDigits(binB))
    ensures EncodingCircuit(n, binA, binB) == Err(InvalidInput)
  {
    var e := Empty(n - 1, 0);
    assert Fits(binA, 0, n - 1);
    EncodeIntoError(e, binA, 0);
    EncodeIntoSpec(e, binA, 0);
    if AllDigits(binA) {
      var c := EncodeInto(e, binA, 0).value;
      assert Fits(binB, |binA|, c.qubits);
      EncodeIntoError(c, binB, |binA|);
    }
  }

  /** Number of gates the encoding block contributes. */
  function EncodingLength(binA: string, binB: string): nat {
    |XGates(binA + binB, 1)|
  }

  lemma SignCorrectionMeasureFree(la: nat)
    ensures MeasureFree(SignCorrection(la))
  {
    var sc := SignCorrection(la);
    forall i | 0 <= i < 6
      ensures !sc[i].Measure?
    {
    }
  }

  lemma AddGatesMeasureFree(la: nat, lb: nat)
    ensures MeasureFree(Addition.AddGates(la, lb))
  {
    var add := Addition.AddGates(la, lb);
    Addition.AddGatesBounds(la, lb);
    forall p | 0 <= p < |add|
      ensures !add[p].Measure?
    {
      assert Addition.NetworkGate(add[p], la, lb);
    }
  }

  lemma EncodingMeasureFree(binA: string, binB: string)
    ensures MeasureFree(XGates(binA + binB, 1))
  {
    var enc := XGates(binA + binB, 1);
    XGatesMembers(binA + binB, 1);
    forall i | 0 <= i < |enc|
      ensures !enc[i].Measure?
    {
      assert enc[i] in enc;
    }
  }

  /** Everything before the measures: the five blocks hold no Measure. */
  lemma FrontMeasureFree(binA: string, binB: string)
    ensures var la := |binA|;
      MeasureFree(XGates(binA + binB, 1) + SignCorrection(la)
        + Qft.QftGates(la) + Addition.AddGates(la, |binB|) + InverseGates(Qft.QftGates(la)))
  {
    var la, lb := |binA|, |binB|;
    var enc := XGates(binA + binB, 1);
    var sc := SignCorrection(la);
    var qft := Qft.QftGates(la);
    var add := Addition.AddGates(la, lb);
    var inv := InverseGates(qft);
    EncodingMeasureFree(binA, binB);
    SignCorrectionMeasureFree(la);
    AddGatesMeasureFree(la, lb);
    Qft.QftLayoutValid(la);
    assert MeasureFree(inv) by {
      Qft.QftInverse(la);
    }
    MeasureFreeConcat(enc, sc);
    MeasureFreeConcat(enc + sc, qft);
    MeasureFreeConcat(enc + sc + qft, add);
    MeasureFreeConcat(enc + sc + qft + add, inv);
  }

  /**
   Measurements come only at the very end: gate p measures iff it is among
   the last len_a + 1, and those measure qubit t into classical bit t in order.
   */
  lemma MeasuresLast(binA: string, binB: string)
    ensures var gs := AdderGates(binA, binB);
      && |gs| >= |binA| + 1
      && (forall p :: 0 <= p < |gs| ==> (gs[p].Measure? <==> p >= |gs| - (|binA| + 1)))
      && gs[|gs| - (|binA| + 1)..] == Measures(|binA| + 1)
  {
    var la, lb := |binA|, |binB|;
    var front := XGates(binA + binB, 1) + SignCorrection(la)
      + Qft.QftGates(la) + Addition.AddGates(la, lb) + InverseGates(Qft.QftGates(la));
    var ms := Measures(la + 1);
    var gs := AdderGates(binA, binB);
    assert gs == front + ms;
    FrontMeasureFree(binA, binB);
    forall p | 0 <= p < |gs|
      ensures gs[p].Measure? <==> p >= |front|
    {
      if p < |front| {
        assert gs[p] == front[p];
      } else {
        assert gs[p] == ms[p - |front|];
      }
    }
    assert gs[|front|..] == ms;
  }

  /** The first EncodingLength gates are the encoding of bin_a + bin_b placed from qubit 1. */
  lemma EncodingPrefix(binA: string, binB: string)
    ensures EncodingLength(binA, binB) <= |AdderGates(binA, binB)|
    ensures AdderGates(binA, binB)[..EncodingLength(binA, binB)] == XGates(binA + binB, 1)
  {
    var la, lb := |binA|, |binB|;
    BlocksPrefix(XGates(binA + binB, 1), SignCorrection(la), Qft.QftGates(la), Addition.AddGates(la, lb),
      InverseGates(Qft.QftGates(la)), Measures(la + 1));
  }

  lemma BlocksPrefix(a: seq<Gate>, b: seq<Gate>, c: seq<Gate>, d: seq<Gate>, e: seq<Gate>, f: seq<Gate>)
    ensures |a| <= |a + b + c + d + e + f|
    ensures (a + b + c + d + e + f)[..|a|] == a
  {
    var gs := a + b + c + d + e + f;
    forall i | 0 <= i < |a|
      ensures gs[i] == a[i]
    {
    }
  }

  lemma PlacementA(binA: string, binB: string, i: nat)
    requires i < |binA|
    ensures X(1 + i) in XGates(binA + binB, 1) <==> binA[i] == '1'
  {
    XGatesAt(binA + binB, 1, i);
    assert (binA + binB)[i] == binA[i];
  }

  lemma PlacementB(binA: string, binB: string, i: nat)
    requires i < |binB|
    ensures X(1 + |binA| + i) in XGates(binA + binB, 1) <==> binB[i] == '1'
  {
    XGatesAt(binA + binB, 1, |binA| + i);
    assert (binA + binB)[|binA| + i] == binB[i];
  }

  /**
   The embedded encoding never touches the carry qubit 0: it is made of X
   gates on qubits >= 1, with X(1+i) present iff bin_a[i] == '1' and
   X(1+len_a+i) present iff bin_b[i] == '1'.
   */
  lemma EncodingPlacement(binA: string, binB: string)
    ensures var gs := AdderGates(binA, binB);
      var e := EncodingLength(binA, binB);
      && e <= |gs|
      && (forall p :: 0 <= p < e ==> gs[p].X? && gs[p].q >= 1)
      && (forall i :: 0 <= i < |binA| ==> (X(1 + i) in gs[..e] <==> binA[i] == '1'))
      && (forall i :: 0 <= i < |binB| ==> (X(1 + |binA| + i) in gs[..e] <==> binB[i] == '1'))
  {
    var gs := AdderGates(binA, binB);
    var e := EncodingLength(binA, binB);
    EncodingPrefix(binA, binB);
    XGatesMembers(binA + binB, 1);
    forall p | 0 <= p < e
      ensures gs[p].X? && gs[p].q >= 1
    {
      assert gs[p] == gs[..e][p];
      assert gs[..e][p] in gs[..e];
    }
    forall i | 0 <= i < |binA|
      ensures X(1 + i) in gs[..e] <==> binA[i] == '1'
    {
      PlacementA(binA, binB, i);
    }
    forall i | 0 <= i < |binB|
      ensures X(1 + |binA| + i) in gs[..e] <==> binB[i] == '1'
    {
      PlacementB(binA, binB, i);
    }
  }

  lemma BitsAreDigits(s: string)
    requires Binary.IsBits(s)
    ensures AllDigits(s)
  {
    assert forall i :: 0 <= i < |s| ==> Binary.IsBit(s[i]);
  }

  lemma GuardPrefix(s: string)
    requires |s| >= 2 && s[0] == '0' && s[1] == '0'
    ensures s[..2] == "00"
  {
    assert s[..2] == [s[0], s[1]];
  }

  /** One operand's string as quantum_adder builds it. */
  lemma OperandString(n: nat, width: nat)
    requires width >= 2 && n < Binary.Pow2(width - 1)
    ensures var s := Binary.Encode(n, width + 1);
      && |s| == width + 1 && s[..2] == "00"
      && AllDigits(s)
      && Binary.Decode(Binary.Reverse(s)) == Ok(n)
  {
    var s := Binary.Encode(n, width + 1);
    assert |s| == width + 1 && s[0] == '0' && s[1] == '0' && Binary.IsBits(s) by {
      Binary.EncodeShape(n, width);
    }
    GuardPrefix(s);
    Binary.DecodeEncode(n, width + 1);
    BitsAreDigits(s);
  }

  /** bin(n)[2:].zfill(width + 1) for an operand below 2^(width-1). */
  method Operand(n: nat, width: nat) returns (s: string)
    requires width >= 2 && n < Binary.Pow2(width - 1)
    ensures s == Binary.Encode(n, width + 1)
    ensures |s| == width + 1 && s[..2] == "00"
    ensures AllDigits(s)
    ensures Binary.Decode(Binary.Reverse(s)) == Ok(n)
  {
    s := Binary.Encode(n, width + 1);
    OperandString(n, width);
  }

  /**
   Lines 71-76 of quantum_adder: pick the width, then write both operands at
   width + 1 characters. Both strings have the same length L + 1 >= 3, start
   with two '0's, hold only digits and decode back to their operand, and
   L - 1 is the least m >= 1 with 2^m above both operands.
   */
  method OperandStrings(a: nat, b: nat) returns (binA: string, binB: string)
    ensures |binA| == |binB| >= 3 && binA[..2] == "00" && binB[..2] == "00"
    ensures Binary.Decode(Binary.Reverse(binA)) == Ok(a) && Binary.Decode(Binary.Reverse(binB)) == Ok(b)
    ensures |binA| >= 2 && a < Binary.Pow2(|binA| - 2) && b < Binary.Pow2(|binA| - 2)
    ensures forall m :: 1 <= m < |binA| - 2 ==> Binary.Pow2(m) <= a || Binary.Pow2(m) <= b
    ensures AllDigits(binA) && AllDigits(binB)
  {
    var width := Binary.Width(a, b);
    binA := Operand(a, width);
    binB := Operand(b, width);
    var top := |binA| - 2;
    assert top == width - 1 && |binB| == |binA|;
  }

  /** build_adder_circuit on two digit strings of one length L + 1 >= 3: it fails only on the QFT's angle overflow. */
  method BuildOperands(binA: string, binB: string) returns (r: Result<Circuit>)
    requires AllDigits(binA) && AllDigits(binB) && |binA| == |binB| >= 3
    ensures r == BuildAdder(binA, binB)
    ensures r.Ok? <==> |binA| < MaxExponent
    ensures r.Err? ==> r.error == AngleOverflow
    ensures r.Ok? ==> r.value == Circuit(2 * |binA| + 1, |binA| + 1, AdderGates(binA, binB)) && WellFormed(r.value)
  {
    AdderOk(binA, binB);
    if |binA| < MaxExponent {
      AdderChain(binA, binB);
    }
    r := BuildAdder(binA, binB);
  }

  /**
   The construction half of quantum_adder(a, b): the operand strings of lines
   71-76, then build_adder_circuit on them. The build succeeds exactly when
   the strings are shorter than 1023 characters (both operands below 2^1020,
   by OperandLimit), with the AdderGates layout on 2(L+1) + 1 qubits and
   L + 2 classical bits; past that, the QFT's largest angle exponent L + 2
   raises OverflowError.
   */
  method QuantumAdderCircuit(a: nat, b: nat) returns (binA: string, binB: string, r: Result<Circuit>)
    ensures |binA| == |binB| >= 3 && binA[..2] == "00" && binB[..2] == "00"
    ensures Binary.Decode(Binary.Reverse(binA)) == Ok(a) && Binary.Decode(Binary.Reverse(binB)) == Ok(b)
    ensures a < Binary.Pow2(|binA| - 2) && b < Binary.Pow2(|binA| - 2)
    ensures forall m :: 1 <= m < |binA| - 2 ==> Binary.Pow2(m) <= a || Binary.Pow2(m) <= b
    ensures r.Ok? <==> |binA| < MaxExponent
    ensures r.Err? ==> r.error == AngleOverflow
    ensures r.Ok? ==> r.value == Circuit(2 * |binA| + 1, |binA| + 1, AdderGates(binA, binB)) && WellFormed(r.value)
  {
    binA, binB := OperandStrings(a, b);
    r := BuildOperands(binA, binB);
  }

  /**
   For strings of quantum_adder's width (the least m >= 1 with 2^m above
   both operands is their length minus two), the length stays below 1023,
   and so the build succeeds, exactly when both operands are below 2^1020.
   */
  lemma OperandLimit(a: nat, b: nat, len: nat)
    requires len >= 3 && a < Binary.Pow2(len - 2) && b < Binary.Pow2(len - 2)
    requires forall m :: 1 <= m < len - 2 ==> Binary.Pow2(m) <= a || Binary.Pow2(m) <= b
    ensures len < MaxExponent <==> a < Binary.Pow2(MaxExponent - 3) && b < Binary.Pow2(MaxExponent - 3)
  {
    Binary.LeastWidth(a, b, len - 2, MaxExponent - 3);
  }
}
