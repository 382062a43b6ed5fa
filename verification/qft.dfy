/**
 build_qft_circuit(len_a): a quantum Fourier transform over qubits 0..len_a.
 Qubit i gets H(i) and then a controlled phase onto each later qubit j with
 angle 2π/2^(j-i+1).
 */
module Qft {
  import opened Results
  import opened Circuits

  /** Controlled phases from control i onto targets j..n, exponent k = target - i + 1. */
  function Phases(i: nat, j: nat, n: nat): seq<Gate>
    requires i < j
    decreases n + 1 - j
  {
    if j > n then [] else [CP(i, j, j - i + 1, false)] + Phases(i, j + 1, n)
  }

  /** One pass of the outer loop. */
  function Row(i: nat, n: nat): seq<Gate> {
    [H(i)] + Phases(i, i + 1, n)
  }

  /** Outer-loop passes i..n. */
  function Rows(i: nat, n: nat): seq<Gate>
    decreases n + 1 - i
  {
    if i > n then [] else Row(i, n) + Rows(i + 1, n)
  }

  function QftGates(n: nat): seq<Gate> {
    Rows(0, n)
  }

  /** The gates the QFT on n+1 qubits is made of. */
  predicate InQft(g: Gate, n: nat) {
    || (g.H? && g.q <= n)
    || (g.CP? && g.ctrl < g.tgt <= n && g.k == g.tgt - g.ctrl + 1 && !g.inverted)
  }

  /** H(i) sorts as (i, i) and CP(i, j) as (i, j): rows by qubit, H first in its row. */
  function Key(g: Gate): (int, int) {
    match g
    case H(q) => (q as int, q as int)
    case CP(c, t, _, _) => (c as int, t as int)
    case _ => (-1, -1)
  }

  lemma {:induction false} PhasesSpec(i: nat, j: nat, n: nat)
    requires i < j
    ensures forall g :: g in Phases(i, j, n) <==> g.CP? && g.ctrl == i && j <= g.tgt <= n && g.k == g.tgt - i + 1 && !g.inverted
    ensures Ascending(Phases(i, j, n), Key)
    ensures |Phases(i, j, n)| == if j > n then 0 else n + 1 - j
    decreases n + 1 - j
  {
    if j <= n {
      var head := [CP(i, j, j - i + 1, false)];
      var tail := Phases(i, j + 1, n);
      PhasesSpec(i, j + 1, n);
      forall p, q | 0 <= p < |head| && 0 <= q < |tail|
        ensures Before(Key(head[p]), Key(tail[q]))
      {
        assert tail[q] in tail;
      }
      AscendingAppend(head, tail, Key);
    }
  }

  /** One pass: H(i) followed by the phases controlled by i, all QFT gates in row i, in order. */
  lemma RowSpec(i: nat, n: nat)
    requires i <= n
    ensures forall g :: g in Row(i, n) <==> InQft(g, n) && Key(g).0 == i
    ensures Ascending(Row(i, n), Key)
    ensures |Row(i, n)| == n + 1 - i
  {
    var phases := Phases(i, i + 1, n);
    PhasesSpec(i, i + 1, n);
    forall p, q | 0 <= p < 1 && 0 <= q < |phases|
      ensures Before(Key([H(i)][p]), Key(phases[q]))
    {
      assert phases[q] in phases;
    }
    AscendingAppend([H(i)], phases, Key);
    forall g | InQft(g, n) && Key(g).0 == i
      ensures g in Row(i, n)
    {
      if g.H? {
        assert g == Row(i, n)[0];
      } else {
        assert g in phases;
      }
    }
  }

  lemma {:induction false} RowsMembers(i: nat, n: nat)
    ensures forall g :: g in Rows(i, n) <==> InQft(g, n) && Key(g).0 >= i
    decreases n + 1 - i
  {
    if i <= n {
      RowSpec(i, n);
      RowsMembers(i + 1, n);
      var row, rest := Row(i, n), Rows(i + 1, n);
      forall g | InQft(g, n) && Key(g).0 >= i
        ensures g in Rows(i, n)
      {
        if Key(g).0 == i {
          assert g in row;
        } else {
          assert g in rest;
        }
      }
    } else {
      forall g | InQft(g, n)
        ensures Key(g).0 <= n
      {
      }
    }
  }

  lemma {:induction false} RowsOrdered(i: nat, n: nat)
    ensures Ascending(Rows(i, n), Key)
    decreases n + 1 - i
  {
    if i <= n {
      RowSpec(i, n);
      RowsOrdered(i + 1, n);
      RowsMembers(i + 1, n);
      var row, rest := Row(i, n), Rows(i + 1, n);
      forall p, q | 0 <= p < |row| && 0 <= q < |rest|
        ensures Before(Key(row[p]), Key(rest[q]))
      {
        assert row[p] in row;
        assert rest[q] in rest;
      }
      AscendingAppend(row, rest, Key);
    }
  }

  lemma TriangleStep(d: int)
    ensures 2 * d + (d - 1) * d == d * (d + 1)
  {
  }

  lemma {:induction false} RowsCount(i: nat, n: nat)
    requires i <= n + 1
    ensures 2 * |Rows(i, n)| == (n + 1 - i) * (n + 2 - i)
    decreases n + 1 - i
  {
    if i <= n {
      RowSpec(i, n);
      RowsCount(i + 1, n);
      var d := n + 1 - i;
      assert |Rows(i, n)| == d + |Rows(i + 1, n)|;
      TriangleStep(d);
    }
  }

  /**
   The QFT's gates are exactly H(i) for i <= n and CP(i, j) with exponent
   j-i+1 for i < j <= n, each once, in increasing (i, j) order with H(i)
   before the phases controlled by i, and (n+1)(n+2)/2 of them.
   */
  lemma QftSpec(n: nat)
    ensures forall g :: g in QftGates(n) <==> InQft(g, n)
    ensures Ascending(QftGates(n), Key)
    ensures |QftGates(n)| == (n + 1) * (n + 2) / 2
  {
    QftMembers(n);
    RowsOrdered(0, n);
    RowsCount(0, n);
  }

  lemma QftMembers(n: nat)
    ensures forall g :: g in QftGates(n) <==> InQft(g, n)
  {
    RowsMembers(0, n);
    forall g | InQft(g, n)
      ensures Key(g).0 >= 0
    {
    }
  }

  /**
   The QFT as build_qft_circuit returns it. Every angle is computed before its
   gate is added and every gate is accepted, so the only failure is the
   OverflowError of an exponent past MaxExponent. The largest exponent is
   n + 1 (control 0, target n), so the build fails exactly when n >= 1023.
   */
  function QftCircuit(n: nat): (r: Result<Circuit>)
    ensures r.Ok? <==> n < MaxExponent
    ensures r.Err? ==> r.error == AngleOverflow
    ensures r.Ok? ==> r.value == QftLayout(n)
  {
    QftAngles(n);
    if AnglesFit(QftGates(n)) then Ok(QftLayout(n)) else Err(AngleOverflow)
  }

  /** The QFT's gates on n+1 qubits and no classical bits: no measurement, every gate accepted, (n+1)(n+2)/2 of them. */
  function QftLayout(n: nat): (c: Circuit)
    ensures c.qubits == n + 1 && c.clbits == 0 && c.gates == QftGates(n)
    ensures WellFormed(c) && MeasureFree(c.gates)
    ensures |c.gates| == (n + 1) * (n + 2) / 2
  {
    QftLayoutValid(n);
    QftSpec(n);
    Circuit(n + 1, 0, QftGates(n))
  }

  /** The QFT's exponents are j - i + 1 <= n + 1, and CP(0, n) reaches n + 1 when n >= 1. */
  lemma QftAngles(n: nat)
    ensures AnglesFit(QftGates(n)) <==> n < MaxExponent
  {
    QftMembers(n);
    if n >= MaxExponent {
      assert InQft(CP(0, n, n + 1, false), n);
    }
  }

  /** The QFT's gates on n+1 qubits: every one accepted, none a measurement. */
  lemma QftLayoutValid(n: nat)
    ensures WellFormed(Circuit(n + 1, 0, QftGates(n))) && MeasureFree(QftGates(n))
  {
    var gs := QftGates(n);
    QftMembers(n);
    forall i | 0 <= i < |gs|
      ensures Valid(gs[i], n + 1, 0) && !gs[i].Measure?
    {
      assert gs[i] in gs;
      InQftValid(gs[i], n);
    }
  }

  lemma InQftValid(g: Gate, n: nat)
    requires InQft(g, n)
    ensures Valid(g, n + 1, 0) && !g.Measure?
  {
    var qs := Qubits(g);
    if g.H? {
      assert qs == [g.q];
    } else {
      assert qs == [g.ctrl, g.tgt];
    }
  }

  /**
   qft.inverse() succeeds on the QFT's circuit and gives its gates reversed
   with every phase negated; inverting that again restores the QFT exactly.
   */
  lemma QftInverse(n: nat)
    ensures var qft := QftLayout(n);
      var inv := Inverse(qft);
      && inv.Ok?
      && inv.value == Circuit(n + 1, 0, InverseGates(QftGates(n)))
      && Inverse(inv.value) == Ok(qft)
  {
    InverseInvolution(QftLayout(n));
  }

  /** The gates of the inverse QFT: each QFT gate with its phase, if any, negated. */
  predicate InInverseQft(g: Gate, n: nat) {
    || (g.H? && g.q <= n)
    || (g.CP? && g.inverted && InQft(g.(inverted := false), n))
  }

  lemma InverseQftSound(n: nat)
    ensures forall g :: g in InverseGates(QftGates(n)) ==> InInverseQft(g, n)
  {
    QftMembers(n);
    var gs := QftGates(n);
    var inv := InverseGates(gs);
    forall g | g in inv
      ensures InInverseQft(g, n)
    {
      var p :| 0 <= p < |inv| && inv[p] == g;
      var orig := gs[|gs| - 1 - p];
      assert orig in gs;
      assert g == Invert(orig);
    }
  }

  lemma InverseQftComplete(n: nat)
    ensures forall g :: InInverseQft(g, n) ==> g in InverseGates(QftGates(n))
  {
    QftMembers(n);
    var gs := QftGates(n);
    var inv := InverseGates(gs);
    forall g | InInverseQft(g, n)
      ensures g in inv
    {
      var orig := if g.H? then g else g.(inverted := false);
      assert InQft(orig, n);
      assert orig in gs;
      var p :| 0 <= p < |gs| && gs[p] == orig;
      assert inv[|gs| - 1 - p] == Invert(orig) == g;
    }
  }

  /** The inverse QFT holds H(i) for i <= n and each QFT phase with its sign flipped, and nothing else. */
  lemma QftInverseGates(n: nat)
    ensures forall g :: g in InverseGates(QftGates(n)) <==> InInverseQft(g, n)
  {
    InverseQftSound(n);
    InverseQftComplete(n);
  }
}
