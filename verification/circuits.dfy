/**
 Gate lists over integer qubit indices: the part of a qiskit QuantumCircuit
 that the adder relies on. A circuit is built once and never mutated; adding
 a gate or a sub-circuit either yields a new circuit or fails the way qiskit
 raises a CircuitError.
 */
module Circuits {
  import opened Results

  /** One gate. A controlled phase turns its target by 2π/2^k, by -2π/2^k when `inverted`. */
  datatype Gate =
    | X(q: nat)
    | H(q: nat)
    | CP(ctrl: nat, tgt: nat, k: nat, inverted: bool)
    | CCX(c1: nat, c2: nat, t: nat)
    | Measure(q: nat, bit: nat)

  /** The qubits a gate acts on, in argument order. */
  function Qubits(g: Gate): seq<nat> {
    match g
    case X(q) => [q]
    case H(q) => [q]
    case CP(c, t, _, _) => [c, t]
    case CCX(c1, c2, t) => [c1, c2, t]
    case Measure(q, _) => [q]
  }

  /** The classical bits a gate writes. */
  function Clbits(g: Gate): seq<nat> {
    if g.Measure? then [g.bit] else []
  }

  predicate Distinct(s: seq<nat>) {
    forall i, j :: 0 <= i < j < |s| ==> s[i] != s[j]
  }

  predicate Below(s: seq<nat>, n: nat) {
    forall i :: 0 <= i < |s| ==> s[i] < n
  }

  /** What qiskit accepts when `g` is added to a circuit of `nq` qubits and `nc` classical bits. */
  predicate Valid(g: Gate, nq: nat, nc: nat) {
    Below(Qubits(g), nq) && Distinct(Qubits(g)) && Below(Clbits(g), nc)
  }

  datatype Circuit = Circuit(qubits: nat, clbits: nat, gates: seq<Gate>)

  /** Every index a gate mentions is declared by the circuit. */
  predicate WellFormed(c: Circuit) {
    forall i :: 0 <= i < |c.gates| ==> Valid(c.gates[i], c.qubits, c.clbits)
  }

  predicate MeasureFree(gs: seq<Gate>) {
    forall i :: 0 <= i < |gs| ==> !gs[i].Measure?
  }

  lemma MeasureFreeConcat(a: seq<Gate>, b: seq<Gate>)
    requires MeasureFree(a) && MeasureFree(b)
    ensures MeasureFree(a + b)
  {
    forall i | 0 <= i < |a + b|
      ensures !(a + b)[i].Measure?
    {
      if i >= |a| {
        assert (a + b)[i] == b[i - |a|];
      }
    }
  }

  /** Moving every index of a concatenation moves each half. */
  lemma ShiftAllAppend(a: seq<Gate>, b: seq<Gate>, o: nat)
    ensures ShiftAll(a + b, o) == ShiftAll(a, o) + ShiftAll(b, o)
  {
    var l, r := ShiftAll(a + b, o), ShiftAll(a, o) + ShiftAll(b, o);
    forall i | 0 <= i < |l|
      ensures l[i] == r[i]
    {
      if i < |a| {
        assert (a + b)[i] == a[i];
      } else {
        assert (a + b)[i] == b[i - |a|];
      }
    }
  }

  function Empty(nq: nat, nc: nat): Circuit {
    Circuit(nq, nc, [])
  }

  /** Adds primitive gates in order, as the circuit's gate methods do; any invalid gate raises. */
  function Emit(c: Circuit, gs: seq<Gate>): (r: Result<Circuit>)
    ensures r.Ok? <==> forall i :: 0 <= i < |gs| ==> Valid(gs[i], c.qubits, c.clbits)
    ensures r.Ok? && WellFormed(c) ==> WellFormed(r.value)
    ensures r.Err? ==> r.error == MalformedSequence
  {
    if forall i :: 0 <= i < |gs| ==> Valid(gs[i], c.qubits, c.clbits) then
      Ok(Circuit(c.qubits, c.clbits, c.gates + gs))
    else
      Err(MalformedSequence)
  }

  /**
   The largest k for which the builders' angle 2π / 2**k can be computed:
   Python converts 2**k to a double for the division, and 2**1024 exceeds
   the largest double, so k >= 1024 raises OverflowError.
   */
  const MaxExponent: nat := 1023

  /** Every phase in gs has an angle Python can compute. */
  predicate AnglesFit(gs: seq<Gate>) {
    forall g | g in gs :: g.CP? ==> g.k <= MaxExponent
  }

  /** The list [lo, lo+1, ..., hi-1], Python's range(lo, hi). */
  function Range(lo: nat, hi: nat): (r: seq<nat>)
    requires lo <= hi
    ensures |r| == hi - lo && forall i :: 0 <= i < |r| ==> r[i] == lo + i
  {
    seq(hi - lo, i => lo + i)
  }

  /** Renames qubit `q` of a gate to `qargs[q]`. */
  function Remap(g: Gate, qargs: seq<nat>): (r: Gate)
    requires Below(Qubits(g), |qargs|)
    ensures |Qubits(r)| == |Qubits(g)|
    ensures forall i :: 0 <= i < |Qubits(g)| ==> Qubits(r)[i] == qargs[Qubits(g)[i]]
    ensures Clbits(r) == Clbits(g)
  {
    var qs := Qubits(g);
    assert forall i :: 0 <= i < |qs| ==> qs[i] < |qargs|;
    match g
    case X(q) => assert q == qs[0]; X(qargs[q])
    case H(q) => assert q == qs[0]; H(qargs[q])
    case CP(c, t, k, inv) => assert c == qs[0] && t == qs[1]; CP(qargs[c], qargs[t], k, inv)
    case CCX(c1, c2, t) => assert c1 == qs[0] && c2 == qs[1] && t == qs[2]; CCX(qargs[c1], qargs[c2], qargs[t])
    case Measure(q, b) => assert q == qs[0]; Measure(qargs[q], b)
  }

  function RemapAll(gs: seq<Gate>, qargs: seq<nat>): (r: seq<Gate>)
    requires forall i :: 0 <= i < |gs| ==> Below(Qubits(gs[i]), |qargs|)
    ensures |r| == |gs|
  {
    seq(|gs|, i requires 0 <= i < |gs| => Remap(gs[i], qargs))
  }

  /** A remapped gate is valid in the parent when the gate was valid in the sub-circuit and the map is injective into range. */
  lemma RemapValid(g: Gate, qargs: seq<nat>, nq: nat, nc: nat)
    requires Valid(g, |qargs|, 0)
    requires Distinct(qargs) && Below(qargs, nq)
    ensures Valid(Remap(g, qargs), nq, nc)
  {
    var r := Remap(g, qargs);
    forall i, j | 0 <= i < j < |Qubits(r)|
      ensures Qubits(r)[i] != Qubits(r)[j]
    {
      assert Qubits(g)[i] != Qubits(g)[j];
    }
  }

  /**
   circuit.append(sub, qargs): the sub-circuit's qubit i is wired to qargs[i]
   and its gates follow the parent's. qiskit refuses a wrong number of qubit
   arguments, a repeated or out-of-range argument, and (no classical
   arguments being passed) a sub-circuit with classical bits.
   */
  function Append(c: Circuit, sub: Circuit, qargs: seq<nat>): (r: Result<Circuit>)
    requires WellFormed(sub)
    ensures r.Ok? <==> |qargs| == sub.qubits && sub.clbits == 0 && Distinct(qargs) && Below(qargs, c.qubits)
    ensures r.Ok? ==> r.value.qubits == c.qubits && r.value.clbits == c.clbits
    ensures r.Ok? ==> |r.value.gates| == |c.gates| + |sub.gates| && r.value.gates[..|c.gates|] == c.gates
    ensures r.Ok? && WellFormed(c) ==> WellFormed(r.value)
  {
    if |qargs| != sub.qubits || sub.clbits != 0 || !Distinct(qargs) || !Below(qargs, c.qubits) then
      Err(MalformedSequence)
    else
      var added := RemapAll(sub.gates, qargs);
      var r := Circuit(c.qubits, c.clbits, c.gates + added);
      assert forall i :: 0 <= i < |added| ==> Valid(added[i], c.qubits, c.clbits) by {
        forall i | 0 <= i < |added|
          ensures Valid(added[i], c.qubits, c.clbits)
        {
          RemapValid(sub.gates[i], qargs, c.qubits, c.clbits);
        }
      }
      assert WellFormed(c) ==> WellFormed(r);
      Ok(r)
  }

  /** A gate with every qubit index moved up by `o`. */
  function Shift(g: Gate, o: nat): Gate {
    match g
    case X(q) => X(q + o)
    case H(q) => H(q + o)
    case CP(c, t, k, inv) => CP(c + o, t + o, k, inv)
    case CCX(c1, c2, t) => CCX(c1 + o, c2 + o, t + o)
    case Measure(q, b) => Measure(q + o, b)
  }

  function ShiftAll(gs: seq<Gate>, o: nat): (r: seq<Gate>)
    ensures |r| == |gs|
  {
    seq(|gs|, i requires 0 <= i < |gs| => Shift(gs[i], o))
  }

  lemma RemapRange(g: Gate, o: nat, n: nat)
    requires Below(Qubits(g), n)
    ensures Remap(g, Range(o, o + n)) == Shift(g, o)
  {
    var qs := Qubits(g);
    var r := Range(o, o + n);
    assert forall i :: 0 <= i < |qs| ==> qs[i] < n && r[qs[i]] == o + qs[i];
    match g
    case X(q) => assert q == qs[0];
    case H(q) => assert q == qs[0];
    case CP(c, t, _, _) => assert c == qs[0] && t == qs[1];
    case CCX(c1, c2, t) => assert c1 == qs[0] && c2 == qs[1] && t == qs[2];
    case Measure(q, _) => assert q == qs[0];
  }

  /**
   Embedding at an offset: appending a sub-circuit on the contiguous qubits
   o, o+1, ... succeeds exactly when they fit in the parent, and then adds
   the sub-circuit's gates with every qubit index shifted by o.
   */
  lemma AppendRange(c: Circuit, sub: Circuit, o: nat)
    requires WellFormed(sub) && sub.clbits == 0
    ensures var r := Append(c, sub, Range(o, o + sub.qubits));
      && (r.Ok? <==> sub.qubits == 0 || o + sub.qubits <= c.qubits)
      && (r.Ok? ==> r.value.gates == c.gates + ShiftAll(sub.gates, o))
  {
    var qargs := Range(o, o + sub.qubits);
    assert Distinct(qargs);
    if sub.qubits > 0 && !(o + sub.qubits <= c.qubits) {
      assert qargs[sub.qubits - 1] >= c.qubits;
    }
    var r := Append(c, sub, qargs);
    if r.Ok? {
      forall i | 0 <= i < |sub.gates|
        ensures RemapAll(sub.gates, qargs)[i] == ShiftAll(sub.gates, o)[i]
      {
        assert Valid(sub.gates[i], sub.qubits, sub.clbits);
        RemapRange(sub.gates[i], o, sub.qubits);
      }
      assert RemapAll(sub.gates, qargs) == ShiftAll(sub.gates, o);
    }
  }

  /** The inverse of a single gate: controlled phases turn the other way; X, H and CCX are their own inverses. */
  function Invert(g: Gate): Gate {
    if g.CP? then g.(inverted := !g.inverted) else g
  }

  /** The gates of an inverse circuit: reversed order, each gate inverted. */
  function InverseGates(gs: seq<Gate>): (r: seq<Gate>)
    ensures |r| == |gs|
  {
    seq(|gs|, i requires 0 <= i < |gs| => Invert(gs[|gs| - 1 - i]))
  }

  /** circuit.inverse(): fails on a measurement, which has no inverse. */
  function Inverse(c: Circuit): (r: Result<Circuit>)
    ensures r.Ok? <==> MeasureFree(c.gates)
    ensures r.Ok? ==> r.value.qubits == c.qubits && r.value.clbits == c.clbits
    ensures r.Ok? ==> |r.value.gates| == |c.gates| && MeasureFree(r.value.gates)
    ensures r.Ok? && WellFormed(c) ==> WellFormed(r.value)
  {
    if MeasureFree(c.gates) then
      var gs := InverseGates(c.gates);
      assert forall i :: 0 <= i < |gs| ==> gs[i] == Invert(c.gates[|gs| - 1 - i]);
      assert forall g :: Qubits(Invert(g)) == Qubits(g) && Clbits(Invert(g)) == Clbits(g);
      Ok(c.(gates := gs))
    else
      Err(MalformedSequence)
  }

  /** Inverting twice gives back the original circuit, gate for gate. */
  lemma InverseInvolution(c: Circuit)
    requires MeasureFree(c.gates)
    ensures Inverse(c).Ok? && Inverse(Inverse(c).value) == Ok(c)
  {
    var once := InverseGates(c.gates);
    var twice := InverseGates(once);
    forall i | 0 <= i < |c.gates|
      ensures twice[i] == c.gates[i]
    {
      assert twice[i] == Invert(once[|c.gates| - 1 - i]);
      assert once[|c.gates| - 1 - i] == Invert(c.gates[i]);
    }
    assert twice == c.gates;
  }

  /** Lexicographic order on pairs. */
  predicate Before(x: (int, int), y: (int, int)) {
    x.0 < y.0 || (x.0 == y.0 && x.1 < y.1)
  }

  /** The gates appear in strictly increasing order of `key`, hence without repetition. */
  predicate Ascending(gs: seq<Gate>, key: Gate -> (int, int)) {
    forall p, q :: 0 <= p < q < |gs| ==> Before(key(gs[p]), key(gs[q]))
  }

  lemma AscendingAppend(a: seq<Gate>, b: seq<Gate>, key: Gate -> (int, int))
    requires Ascending(a, key) && Ascending(b, key)
    requires forall p, q :: 0 <= p < |a| && 0 <= q < |b| ==> Before(key(a[p]), key(b[q]))
    ensures Ascending(a + b, key)
  {
    var s := a + b;
    forall p, q | 0 <= p < q < |s|
      ensures Before(key(s[p]), key(s[q]))
    {
      if q < |a| {
        assert s[p] == a[p] && s[q] == a[q];
      } else if p >= |a| {
        assert s[p] == b[p - |a|] && s[q] == b[q - |a|];
      } else {
        assert s[p] == a[p] && s[q] == b[q - |a|];
      }
    }
  }
}
