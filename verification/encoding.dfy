/**
 build_encoding_circuit: one X gate per '1' character. Operand A's string
 occupies local qubits 0..|A|-1 and operand B's string the qubits after it.
 */
module Encoding {
  import opened Results
  import opened Circuits

  /** The characters Python's int() turns into a number on their own. */
  predicate IsDigit(c: char) {
    '0' <= c <= '9'
  }

  predicate AllDigits(s: string) {
    forall i :: 0 <= i < |s| ==> IsDigit(s[i])
  }

  /** Every '1' of s, read left to right, is an X on qubit base + its position. */
  function XGates(s: string, base: nat): seq<Gate>
    decreases |s|
  {
    if |s| == 0 then []
    else (if s[0] == '1' then [X(base)] else []) + XGates(s[1..], base + 1)
  }

  /** Orders X gates by their qubit. */
  function XKey(g: Gate): (int, int) {
    (if g.X? then g.q else -1, 0)
  }

  /**
   One loop of build_encoding_circuit: int(ch) raises on a non-digit, and
   qiskit raises on an X beyond the circuit's qubits; whichever comes first.
   */
  function EncodeInto(c: Circuit, s: string, base: nat): Result<Circuit>
    decreases |s|
  {
    if |s| == 0 then
      Ok(c)
    else if !IsDigit(s[0]) then
      Err(InvalidInput)
    else
      var c' :- (if s[0] == '1' then Emit(c, [X(base)]) else Ok(c));
      EncodeInto(c', s[1..], base + 1)
  }

  /** build_encoding_circuit(num_qubits, bin_a, bin_b): a circuit of num_qubits - 1 qubits. */
  function EncodingCircuit(numQubits: nat, binA: string, binB: string): Result<Circuit>
    requires numQubits >= 1
  {
    var c :- EncodeInto(Empty(numQubits - 1, 0), binA, 0);
    EncodeInto(c, binB, |binA|)
  }

  /** X(base+i) occurs iff s[i] == '1', and no other gate occurs. */
  lemma {:induction false} XGatesMembers(s: string, base: nat)
    ensures forall g :: g in XGates(s, base) <==> g.X? && base <= g.q < base + |s| && s[g.q - base] == '1'
    decreases |s|
  {
    if |s| > 0 {
      var head := if s[0] == '1' then [X(base)] else [];
      XGatesMembers(s[1..], base + 1);
      assert XGates(s, base) == head + XGates(s[1..], base + 1);
      forall g
        ensures g in XGates(s, base) <==> g.X? && base <= g.q < base + |s| && s[g.q - base] == '1'
      {
        if g.X? && base + 1 <= g.q < base + |s| {
          assert s[1..][g.q - base - 1] == s[g.q - base];
        }
      }
    }
  }

  lemma {:induction false} XGatesOrdered(s: string, base: nat)
    ensures Ascending(XGates(s, base), XKey)
    decreases |s|
  {
    if |s| > 0 {
      var head := if s[0] == '1' then [X(base)] else [];
      var tail := XGates(s[1..], base + 1);
      XGatesOrdered(s[1..], base + 1);
      XGatesMembers(s[1..], base + 1);
      forall p, q | 0 <= p < |head| && 0 <= q < |tail|
        ensures Before(XKey(head[p]), XKey(tail[q]))
      {
        assert tail[q] in tail;
      }
      AscendingAppend(head, tail, XKey);
    }
  }

  lemma {:induction false} XGatesCount(s: string, base: nat)
    ensures |XGates(s, base)| == multiset(s)['1']
    decreases |s|
  {
    if |s| > 0 {
      XGatesCount(s[1..], base + 1);
      assert s == [s[0]] + s[1..];
      assert multiset(s) == multiset([s[0]]) + multiset(s[1..]);
    }
  }

  /**
   The X gates are exactly one per '1' character, in string order: X(base+i)
   occurs iff s[i] == '1', the qubits strictly increase, and there are as many
   gates as '1's.
   */
  lemma XGatesSpec(s: string, base: nat)
    ensures forall g :: g in XGates(s, base) <==> g.X? && base <= g.q < base + |s| && s[g.q - base] == '1'
    ensures Ascending(XGates(s, base), XKey)
    ensures |XGates(s, base)| == multiset(s)['1']
  {
    XGatesMembers(s, base);
    XGatesOrdered(s, base);
    XGatesCount(s, base);
  }

  /** Encoding two strings one after the other is encoding their concatenation. */
  lemma {:induction false} XGatesAppend(s: string, t: string, base: nat)
    ensures XGates(s + t, base) == XGates(s, base) + XGates(t, base + |s|)
    decreases |s|
  {
    if |s| == 0 {
      assert s + t == t;
    } else {
      assert (s + t)[1..] == s[1..] + t;
      XGatesAppend(s[1..], t, base + 1);
    }
  }

  /** Embedding the encoding o qubits higher is encoding from base + o. */
  lemma {:induction false} XGatesShift(s: string, base: nat, o: nat)
    ensures ShiftAll(XGates(s, base), o) == XGates(s, base + o)
    decreases |s|
  {
    if |s| > 0 {
      var head: seq<Gate> := if s[0] == '1' then [X(base)] else [];
      XGatesShift(s[1..], base + 1, o);
      ShiftAllAppend(head, XGates(s[1..], base + 1), o);
      if s[0] == '1' {
        assert ShiftAll(head, o) == [X(base + o)];
      } else {
        assert ShiftAll(head, o) == [];
      }
    }
  }

  /** Position i of s holds '1' exactly when X(base + i) is among its gates. */
  lemma XGatesAt(s: string, base: nat, i: nat)
    requires i < |s|
    ensures X(base + i) in XGates(s, base) <==> s[i] == '1'
  {
    XGatesMembers(s, base);
    var g := X(base + i);
    assert g.q - base == i;
  }

  /** Adding X(q) is accepted exactly when q is one of the circuit's qubits. */
  lemma XValid(q: nat, nq: nat, nc: nat)
    ensures Valid(X(q), nq, nc) <==> q < nq
  {
    var qs := Qubits(X(q));
    assert qs == [q] && qs[0] == q;
    assert Below(qs, nq) <==> q < nq;
    assert Distinct(qs) && Below(Clbits(X(q)), nc);
  }

  /** Every '1' of s lands on a qubit below nq when its position is offset by base. */
  predicate Fits(s: string, base: nat, nq: nat) {
    forall i :: 0 <= i < |s| && s[i] == '1' ==> base + i < nq
  }

  lemma FitsTail(s: string, base: nat, nq: nat)
    requires |s| > 0
    ensures Fits(s, base, nq) <==> (s[0] == '1' ==> base < nq) && Fits(s[1..], base + 1, nq)
    ensures AllDigits(s) <==> IsDigit(s[0]) && AllDigits(s[1..])
  {
    assert forall i :: 1 <= i < |s| ==> s[1..][i - 1] == s[i];
    if (s[0] == '1' ==> base < nq) && Fits(s[1..], base + 1, nq) {
      forall i | 0 <= i < |s| && s[i] == '1'
        ensures base + i < nq
      {
        if i > 0 {
          assert s[1..][i - 1] == '1';
        }
      }
    }
    if AllDigits(s[1..]) && IsDigit(s[0]) {
      forall i | 0 <= i < |s|
        ensures IsDigit(s[i])
      {
        if i > 0 {
          assert IsDigit(s[1..][i - 1]);
        }
      }
    }
  }

  /** The first step of the loop: the circuit after s[0]. */
  lemma EncodeStep(c: Circuit, s: string, base: nat)
    requires |s| > 0 && IsDigit(s[0])
    ensures var step := if s[0] == '1' then Emit(c, [X(base)]) else Ok(c);
      && (step.Ok? <==> (s[0] == '1' ==> base < c.qubits))
      && (step.Ok? ==> step.value == c.(gates := c.gates + (if s[0] == '1' then [X(base)] else [])))
      && (step.Err? ==> step.error == MalformedSequence)
  {
    XValid(base, c.qubits, c.clbits);
    if s[0] == '1' {
      var gs := [X(base)];
      assert gs[0] == X(base);
      assert (forall i :: 0 <= i < |gs| ==> Valid(gs[i], c.qubits, c.clbits)) <==> Valid(X(base), c.qubits, c.clbits);
    } else {
      assert c.gates + [] == c.gates;
    }
  }

  /** The loop over one string succeeds iff every character is a digit and every '1' lands on an existing qubit. */
  lemma {:induction false} EncodeIntoOk(c: Circuit, s: string, base: nat)
    ensures EncodeInto(c, s, base).Ok? <==> AllDigits(s) && Fits(s, base, c.qubits)
    decreases |s|
  {
    if |s| > 0 {
      FitsTail(s, base, c.qubits);
      if IsDigit(s[0]) {
        EncodeStep(c, s, base);
        var step := if s[0] == '1' then Emit(c, [X(base)]) else Ok(c);
        if step.Ok? {
          assert EncodeInto(c, s, base) == EncodeInto(step.value, s[1..], base + 1);
          EncodeIntoOk(step.value, s[1..], base + 1);
        }
      }
    }
  }

  /** On success the loop appends XGates and keeps the circuit's qubit and bit counts. */
  lemma {:induction false} EncodeIntoGates(c: Circuit, s: string, base: nat)
    ensures var r := EncodeInto(c, s, base);
      r.Ok? ==> r.value == c.(gates := c.gates + XGates(s, base))
    decreases |s|
  {
    if |s| > 0 && IsDigit(s[0]) {
      EncodeStep(c, s, base);
      var step := if s[0] == '1' then Emit(c, [X(base)]) else Ok(c);
      if step.Ok? {
        var head := if s[0] == '1' then [X(base)] else [];
        assert EncodeInto(c, s, base) == EncodeInto(step.value, s[1..], base + 1);
        EncodeIntoGates(step.value, s[1..], base + 1);
        assert XGates(s, base) == head + XGates(s[1..], base + 1);
        assert c.gates + head + XGates(s[1..], base + 1) == c.gates + XGates(s, base);
      }
    }
  }

  /**
   The loop over one string succeeds iff every character is a digit and every
   '1' lands on an existing qubit; it then appends XGates and keeps the
   circuit's qubit and bit counts.
   */
  lemma EncodeIntoSpec(c: Circuit, s: string, base: nat)
    ensures var r := EncodeInto(c, s, base);
      && (r.Ok? <==> AllDigits(s) && Fits(s, base, c.qubits))
      && (r.Ok? ==> r.value == c.(gates := c.gates + XGates(s, base)))
  {
    EncodeIntoOk(c, s, base);
    EncodeIntoGates(c, s, base);
  }

  /** The loop keeps a well-formed circuit well-formed. */
  lemma {:induction false} EncodeIntoWellFormed(c: Circuit, s: string, base: nat)
    requires WellFormed(c)
    ensures EncodeInto(c, s, base).Ok? ==> WellFormed(EncodeInto(c, s, base).value)
    decreases |s|
  {
    if |s| > 0 && IsDigit(s[0]) {
      var step := if s[0] == '1' then Emit(c, [X(base)]) else Ok(c);
      if step.Ok? {
        assert EncodeInto(c, s, base) == EncodeInto(step.value, s[1..], base + 1);
        EncodeIntoWellFormed(step.value, s[1..], base + 1);
      }
    }
  }

  /**
   Which exception the loop raises: a non-digit alone gives InvalidInput
   (ValueError), a misplaced '1' alone gives MalformedSequence (CircuitError).
   */
  lemma {:induction false} EncodeIntoError(c: Circuit, s: string, base: nat)
    ensures AllDigits(s) && !Fits(s, base, c.qubits) ==> EncodeInto(c, s, base) == Err(MalformedSequence)
    ensures !AllDigits(s) && Fits(s, base, c.qubits) ==> EncodeInto(c, s, base) == Err(InvalidInput)
    decreases |s|
  {
    if |s| > 0 {
      FitsTail(s, base, c.qubits);
      if IsDigit(s[0]) {
        EncodeStep(c, s, base);
        var step := if s[0] == '1' then Emit(c, [X(base)]) else Ok(c);
        if step.Ok? {
          EncodeIntoError(step.value, s[1..], base + 1);
        }
      }
    }
  }

  lemma EncodingCircuitOk(numQubits: nat, binA: string, binB: string)
    requires numQubits >= 1
    ensures EncodingCircuit(numQubits, binA, binB).Ok? <==>
      AllDigits(binA) && AllDigits(binB) && Fits(binA, 0, numQubits - 1) && Fits(binB, |binA|, numQubits - 1)
  {
    var e := Empty(numQubits - 1, 0);
    var first := EncodeInto(e, binA, 0);
    EncodeIntoOk(e, binA, 0);
    if first.Ok? {
      var c := first.value;
      EncodeIntoGates(e, binA, 0);
      assert c.qubits == numQubits - 1;
      assert EncodingCircuit(numQubits, binA, binB) == EncodeInto(c, binB, |binA|);
      EncodeIntoOk(c, binB, |binA|);
    }
  }

  lemma EncodingCircuitGates(numQubits: nat, binA: string, binB: string)
    requires numQubits >= 1
    ensures var r := EncodingCircuit(numQubits, binA, binB);
      r.Ok? ==> r.value == Circuit(numQubits - 1, 0, XGates(binA, 0) + XGates(binB, |binA|))
  {
    var e := Empty(numQubits - 1, 0);
    var first := EncodeInto(e, binA, 0);
    EncodeIntoGates(e, binA, 0);
    if first.Ok? {
      var c := first.value;
      assert c.gates == XGates(binA, 0) by {
        assert [] + XGates(binA, 0) == XGates(binA, 0);
      }
      assert EncodingCircuit(numQubits, binA, binB) == EncodeInto(c, binB, |binA|);
      EncodeIntoGates(c, binB, |binA|);
    }
  }

  lemma EncodingCircuitShape(numQubits: nat, binA: string, binB: string)
    requires numQubits >= 1
    ensures var r := EncodingCircuit(numQubits, binA, binB);
      r.Ok? ==> r.value.qubits == numQubits - 1 && r.value.clbits == 0
  {
    EncodingCircuitGates(numQubits, binA, binB);
  }

  lemma EncodingCircuitWellFormed(numQubits: nat, binA: string, binB: string)
    requires numQubits >= 1
    ensures var r := EncodingCircuit(numQubits, binA, binB);
      r.Ok? ==> WellFormed(r.value)
  {
    var e := Empty(numQubits - 1, 0);
    var first := EncodeInto(e, binA, 0);
    EncodeIntoWellFormed(e, binA, 0);
    if first.Ok? {
      var c := first.value;
      assert EncodingCircuit(numQubits, binA, binB) == EncodeInto(c, binB, |binA|);
      EncodeIntoWellFormed(c, binB, |binA|);
    }
  }

  /**
   The encoding circuit has num_qubits - 1 qubits and no classical bits; it
   succeeds iff both strings are digit strings whose '1's all land on
   existing qubits, and then holds A's gates followed by B's, B's shifted by |A|.
   */
  lemma EncodingCircuitSpec(numQubits: nat, binA: string, binB: string)
    requires numQubits >= 1
    ensures var r := EncodingCircuit(numQubits, binA, binB);
      && (r.Ok? <==> AllDigits(binA) && AllDigits(binB) && Fits(binA, 0, numQubits - 1) && Fits(binB, |binA|, numQubits - 1))
      && (r.Ok? ==> r.value == Circuit(numQubits - 1, 0, XGates(binA, 0) + XGates(binB, |binA|)))
      && (r.Ok? ==> WellFormed(r.value))
  {
    EncodingCircuitOk(numQubits, binA, binB);
    EncodingCircuitGates(numQubits, binA, binB);
    EncodingCircuitWellFormed(numQubits, binA, binB);
  }

  /**
   With the circuit sized as build_adder_circuit sizes it, only the digit
   check can fail, and every gate is an X on a qubit below num_qubits - 1.
   */
  lemma EncodingForAdderOk(binA: string, binB: string)
    ensures EncodingCircuit(|binA| + |binB| + 1, binA, binB).Ok? <==> AllDigits(binA) && AllDigits(binB)
  {
    var nq := |binA| + |binB|;
    EncodingCircuitOk(nq + 1, binA, binB);
    assert Fits(binA, 0, nq) && Fits(binB, |binA|, nq);
  }

  lemma EncodingForAdder(binA: string, binB: string)
    ensures var r := EncodingCircuit(|binA| + |binB| + 1, binA, binB);
      && (r.Ok? <==> AllDigits(binA) && AllDigits(binB))
      && (r.Ok? ==> forall i :: 0 <= i < |r.value.gates| ==> r.value.gates[i].X? && r.value.gates[i].q < |binA| + |binB|)
  {
    EncodingForAdderOk(binA, binB);
    EncodingCircuitGates(|binA| + |binB| + 1, binA, binB);
    XGatesAppend(binA, binB, 0);
    XGatesMembers(binA + binB, 0);
    var r := EncodingCircuit(|binA| + |binB| + 1, binA, binB);
    if r.Ok? {
      var gs := XGates(binA + binB, 0);
      forall i | 0 <= i < |gs|
        ensures gs[i].X? && gs[i].q < |binA| + |binB|
      {
        assert gs[i] in gs;
      }
    }
  }
}
