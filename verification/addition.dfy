/**
 build_non_modular_addition_circuit(len_a, len_b): the Fourier-domain adder
 over len_a + len_b + 1 qubits (0 is the carry, 1..len_a hold A, the rest B).
 Every gate is a controlled phase 2π/2^k.
 */
module Addition {
  import opened Results
  import opened Circuits

  /** Controls j..la+lb onto target i; the first control of a pass, i + lb, has exponent 1. */
  function Row(i: nat, j: nat, la: nat, lb: nat): seq<Gate>
    requires i + lb <= j
    decreases la + lb + 1 - j
  {
    if j > la + lb then [] else [CP(j, i, j - i - lb + 1, false)] + Row(i, j + 1, la, lb)
  }

  /** Passes for targets i, i-1, ..., 1. */
  function Middle(i: nat, la: nat, lb: nat): seq<Gate> {
    if i == 0 then [] else Row(i, i + lb, la, lb) + Middle(i - 1, la, lb)
  }

  /** Controls i..la+lb onto the carry qubit 0, exponent i - la + 1. */
  function Tail(i: nat, la: nat, lb: nat): seq<Gate>
    requires la < i
    decreases la + lb + 1 - i
  {
    if i > la + lb then [] else [CP(i, 0, i - la + 1, false)] + Tail(i + 1, la, lb)
  }

  /** The highest middle-block target: range(1, len_a) reversed starts at len_a - 1. */
  function MiddleTop(la: nat): nat {
    if la == 0 then 0 else la - 1
  }

  /** The middle block: targets len_a-1 down to 1 (none when len_a <= 1). */
  function MiddleGates(la: nat, lb: nat): seq<Gate> {
    Middle(MiddleTop(la), la, lb)
  }

  function TailGates(la: nat, lb: nat): seq<Gate> {
    Tail(la + 1, la, lb)
  }

  function AddGates(la: nat, lb: nat): seq<Gate> {
    [CP(la + lb, la, 1, false)] + MiddleGates(la, lb) + TailGates(la, lb)
  }

  /** The phases after the half turn: the middle block, then the carry phases. */
  function LaterGates(la: nat, lb: nat): seq<Gate> {
    MiddleGates(la, lb) + TailGates(la, lb)
  }

  /**
   The circuit as qiskit builds it. The half turn comes first, and cp raises
   when its control and target coincide. Every later phase computes its angle
   before cp is called, so an exponent past MaxExponent raises OverflowError;
   cp accepts every later phase once it has accepted the half turn.
   */
  function AdditionCircuit(la: nat, lb: nat): Result<Circuit> {
    var c :- Emit(Empty(la + lb + 1, 0), [CP(la + lb, la, 1, false)]);
    if AnglesFit(LaterGates(la, lb)) then Emit(c, LaterGates(la, lb)) else Err(AngleOverflow)
  }

  /** A middle-block gate for targets 1..i. */
  predicate InMiddle(g: Gate, i: nat, la: nat, lb: nat) {
    && g.CP? && !g.inverted
    && 1 <= g.tgt <= i
    && g.tgt + lb <= g.ctrl <= la + lb
    && g.k == g.ctrl - g.tgt - lb + 1
  }

  /** Middle-block order: targets descending, then controls ascending. */
  function MidKey(g: Gate): (int, int) {
    if g.CP? then (0 - g.tgt, g.ctrl as int) else (0, 0)
  }

  lemma {:induction false} RowSpec(i: nat, j: nat, la: nat, lb: nat)
    requires i + lb <= j
    ensures |Row(i, j, la, lb)| == if j > la + lb then 0 else la + lb + 1 - j
    ensures forall t :: 0 <= t < |Row(i, j, la, lb)| ==> Row(i, j, la, lb)[t] == CP(j + t, i, j + t - i - lb + 1, false)
    decreases la + lb + 1 - j
  {
    if j <= la + lb {
      RowSpec(i, j + 1, la, lb);
      var r := Row(i, j, la, lb);
      forall t | 1 <= t < |r|
        ensures r[t] == CP(j + t, i, j + t - i - lb + 1, false)
      {
        assert r[t] == Row(i, j + 1, la, lb)[t - 1];
      }
    }
  }

  lemma RowMembers(i: nat, la: nat, lb: nat)
    requires 1 <= i <= la
    ensures forall g :: g in Row(i, i + lb, la, lb) <==> InMiddle(g, i, la, lb) && g.tgt == i
    ensures Ascending(Row(i, i + lb, la, lb), MidKey)
    ensures |Row(i, i + lb, la, lb)| == la - i + 1
  {
    var r := Row(i, i + lb, la, lb);
    RowSpec(i, i + lb, la, lb);
    forall g | InMiddle(g, i, la, lb) && g.tgt == i
      ensures g in r
    {
      assert r[g.ctrl - i - lb] == g;
    }
  }

  lemma {:induction false} MiddleMembers(i: nat, la: nat, lb: nat)
    requires i <= la
    ensures forall g :: g in Middle(i, la, lb) <==> InMiddle(g, i, la, lb)
    decreases i
  {
    if i > 0 {
      RowMembers(i, la, lb);
      MiddleMembers(i - 1, la, lb);
    }
  }

  lemma {:induction false} MiddleOrdered(i: nat, la: nat, lb: nat)
    requires i <= la
    ensures Ascending(Middle(i, la, lb), MidKey)
    decreases i
  {
    if i > 0 {
      var row := Row(i, i + lb, la, lb);
      var rest := Middle(i - 1, la, lb);
      RowMembers(i, la, lb);
      MiddleMembers(i - 1, la, lb);
      MiddleOrdered(i - 1, la, lb);
      forall p, q | 0 <= p < |row| && 0 <= q < |rest|
        ensures Before(MidKey(row[p]), MidKey(rest[q]))
      {
        assert row[p] in row;
        assert rest[q] in rest;
      }
      AscendingAppend(row, rest, MidKey);
    }
  }

  lemma {:induction false} MiddleCount(i: nat, la: nat, lb: nat)
    requires i <= la
    ensures 2 * |Middle(i, la, lb)| == i * (2 * la + 1 - i)
    decreases i
  {
    if i > 0 {
      RowSpec(i, i + lb, la, lb);
      MiddleCount(i - 1, la, lb);
      assert |Middle(i, la, lb)| == (la - i + 1) + |Middle(i - 1, la, lb)|;
      CountStep(i, la);
    }
  }

  lemma CountStep(i: int, la: int)
    requires 1 <= i <= la
    ensures 2 * (la - i + 1) + (i - 1) * (2 * la + 2 - i) == i * (2 * la + 1 - i)
  {
    var w := 2 * la + 2 - i;
    assert (i - 1) * w == i * w - w;
    assert i * w == i * (w - 1) + i;
  }

  lemma {:induction false} TailSpec(i: nat, la: nat, lb: nat)
    requires la < i
    ensures |Tail(i, la, lb)| == if i > la + lb then 0 else la + lb + 1 - i
    ensures forall t :: 0 <= t < |Tail(i, la, lb)| ==> Tail(i, la, lb)[t] == CP(i + t, 0, i + t - la + 1, false)
    decreases la + lb + 1 - i
  {
    if i <= la + lb {
      TailSpec(i + 1, la, lb);
      var r := Tail(i, la, lb);
      forall t | 1 <= t < |r|
        ensures r[t] == CP(i + t, 0, i + t - la + 1, false)
      {
        assert r[t] == Tail(i + 1, la, lb)[t - 1];
      }
    }
  }

  /**
   The three parts of the network, in order: the half turn CP(la+lb -> la,
   k=1); the middle block, exactly the phases control j -> target i for
   1 <= i < la and i+lb <= j <= la+lb with k = j-i-lb+1, targets descending
   and controls ascending; and lb phases CP(la+1+t -> 0) with k = t+2.
   */
  lemma AddGatesLayout(la: nat, lb: nat)
    ensures var gs := AddGates(la, lb);
      && gs[0] == CP(la + lb, la, 1, false)
      && |gs| == 1 + |MiddleGates(la, lb)| + lb
      && gs[1..1 + |MiddleGates(la, lb)|] == MiddleGates(la, lb)
      && (forall g :: g in MiddleGates(la, lb) <==> InMiddle(g, MiddleTop(la), la, lb))
      && Ascending(MiddleGates(la, lb), MidKey)
      && gs[|gs| - lb..] == TailGates(la, lb)
      && |TailGates(la, lb)| == lb
      && (forall t :: 0 <= t < lb ==> TailGates(la, lb)[t] == CP(la + 1 + t, 0, t + 2, false))
  {
    var gs := AddGates(la, lb);
    var mid := MiddleGates(la, lb);
    var tail := TailGates(la, lb);
    MiddleMembers(MiddleTop(la), la, lb);
    MiddleOrdered(MiddleTop(la), la, lb);
    TailSpec(la + 1, la, lb);
    assert gs == [CP(la + lb, la, 1, false)] + mid + tail;
  }

  /** The network has la(la+1)/2 + lb gates when la >= 1, and lb + 1 when la == 0. */
  lemma AddGatesCount(la: nat, lb: nat)
    ensures |AddGates(la, lb)| == (if la == 0 then 1 else la * (la + 1) / 2) + lb
  {
    AddGatesLayout(la, lb);
    if la > 0 {
      MiddleCount(la - 1, la, lb);
      assert 2 * |MiddleGates(la, lb)| == (la - 1) * (la + 2);
      assert (la - 1) * (la + 2) + 2 == la * (la + 1);
    }
  }

  /** Every gate of the network is a forward controlled phase on existing qubits. */
  predicate NetworkGate(g: Gate, la: nat, lb: nat) {
    g.CP? && !g.inverted && g.k >= 1 && g.ctrl <= la + lb && g.tgt <= la
  }

  /**
   Bounds: every gate is a phase with k >= 1, control below la+lb+1 and target
   on the carry or A register; control and target differ iff lb >= 1; and
   when B is at least as wide as A (as quantum_adder makes it), every control
   lies in the B register.
   */
  lemma AddGatesBounds(la: nat, lb: nat)
    ensures forall p :: 0 <= p < |AddGates(la, lb)| ==> NetworkGate(AddGates(la, lb)[p], la, lb)
    ensures (forall p :: 0 <= p < |AddGates(la, lb)| ==> AddGates(la, lb)[p].CP? && AddGates(la, lb)[p].ctrl != AddGates(la, lb)[p].tgt) <==> lb >= 1
    ensures lb >= la && lb >= 1 ==> forall p :: 0 <= p < |AddGates(la, lb)| ==> AddGates(la, lb)[p].CP? && AddGates(la, lb)[p].ctrl >= la + 1
  {
    var gs := AddGates(la, lb);
    var mid := MiddleGates(la, lb);
    AddGatesLayout(la, lb);
    forall p | 0 <= p < |gs|
      ensures NetworkGate(gs[p], la, lb)
      ensures lb >= 1 ==> gs[p].CP? && gs[p].ctrl != gs[p].tgt
      ensures lb >= la && lb >= 1 ==> gs[p].CP? && gs[p].ctrl >= la + 1
    {
      if 1 <= p < 1 + |mid| {
        assert gs[p] == mid[p - 1];
        assert gs[p] in mid;
      } else if p >= 1 + |mid| {
        var t := p - 1 - |mid|;
        assert gs[p] == TailGates(la, lb)[t];
      }
    }
  }

  /**
   The exponents after the half turn: the middle block reaches len_a (control
   la+lb onto target 1, present when la >= 2) and the carry phases reach
   len_b + 1 (present when lb >= 1).
   */
  lemma AdditionAngles(la: nat, lb: nat)
    ensures AnglesFit(LaterGates(la, lb)) <==> la <= MaxExponent && lb < MaxExponent
  {
    var mid, tail := MiddleGates(la, lb), TailGates(la, lb);
    MiddleMembers(MiddleTop(la), la, lb);
    TailSpec(la + 1, la, lb);
    if la > MaxExponent {
      var g := CP(la + lb, 1, la, false);
      assert InMiddle(g, MiddleTop(la), la, lb);
      assert g in mid + tail;
    } else if lb >= MaxExponent {
      assert tail[lb - 1] in mid + tail;
    } else {
      forall g | g in mid + tail && g.CP?
        ensures g.k <= MaxExponent
      {
        if g !in mid {
          var t :| 0 <= t < |tail| && tail[t] == g;
        }
      }
    }
  }

  /**
   The builder raises CircuitError (a phase with control == target) exactly
   when B is empty, and otherwise OverflowError exactly when len_a > 1023 or
   len_b >= 1023; else it returns the network, every gate accepted.
   */
  lemma AdditionCircuitSpec(la: nat, lb: nat)
    ensures var r := AdditionCircuit(la, lb);
      && (r.Ok? <==> lb >= 1 && la <= MaxExponent && lb < MaxExponent)
      && (r.Err? ==> r.error == if lb == 0 then MalformedSequence else AngleOverflow)
      && (r.Ok? ==> r.value == Circuit(la + lb + 1, 0, AddGates(la, lb)) && WellFormed(r.value) && MeasureFree(r.value.gates))
  {
    AdditionAngles(la, lb);
    HalfTurn(la, lb);
    if lb >= 1 {
      LaterValid(la, lb);
    }
  }

  /** The half turn alone: accepted exactly when B is non-empty. */
  lemma HalfTurn(la: nat, lb: nat)
    ensures var c := Emit(Empty(la + lb + 1, 0), [CP(la + lb, la, 1, false)]);
      && (c.Ok? <==> lb >= 1)
      && (c.Err? ==> c.error == MalformedSequence)
      && (c.Ok? ==> c.value == Circuit(la + lb + 1, 0, [CP(la + lb, la, 1, false)]))
  {
    var first := CP(la + lb, la, 1, false);
    var qs := Qubits(first);
    assert qs == [la + lb, la] && qs[0] == la + lb && qs[1] == la;
    assert Distinct(qs) <==> lb >= 1;
    assert [first][0] == first;
  }

  /** With B non-empty, every later phase is accepted, and so is the whole network. */
  lemma LaterValid(la: nat, lb: nat)
    requires lb >= 1
    ensures forall p :: 0 <= p < |LaterGates(la, lb)| ==> Valid(LaterGates(la, lb)[p], la + lb + 1, 0)
    ensures [CP(la + lb, la, 1, false)] + LaterGates(la, lb) == AddGates(la, lb)
    ensures WellFormed(Circuit(la + lb + 1, 0, AddGates(la, lb))) && MeasureFree(AddGates(la, lb))
  {
    var gs := AddGates(la, lb);
    var later := LaterGates(la, lb);
    assert gs == [CP(la + lb, la, 1, false)] + later;
    AddGatesBounds(la, lb);
    forall p | 0 <= p < |gs|
      ensures Valid(gs[p], la + lb + 1, 0) && !gs[p].Measure?
    {
      var g := gs[p];
      assert NetworkGate(g, la, lb);
      var qs := Qubits(g);
      assert qs == [g.ctrl, g.tgt] && qs[0] == g.ctrl && qs[1] == g.tgt;
    }
    forall p | 0 <= p < |later|
      ensures Valid(later[p], la + lb + 1, 0)
    {
      assert later[p] == gs[p + 1];
    }
  }
}
