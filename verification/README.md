# Draper QFT adder: the classical construction, in Dafny

This project models the deterministic half of the quantum Fourier transform adder in `src/adder.py`, and proves properties of that model. The adder adds two non-negative integers `a` and `b`. It has these parts:

- **Width loop** (`quantum_adder`): picks the bit width `L`.
- **Operand strings**: `bin(x)[2:].zfill(L + 1)` turns each operand into an MSB-first string of `'0'`/`'1'`.
- **Encoding circuit** (`build_encoding_circuit`): one X gate per `'1'`.
- **QFT circuit** (`build_qft_circuit`): the QFT over qubits `0..len_a`.
- **Addition network** (`build_non_modular_addition_circuit`): the Fourier-domain network of controlled phases.
- **Assembly** (`build_adder_circuit`):
  - embeds the encoding at qubit 1;
  - adds a six-gate sign correction on the carry qubit 0;
  - applies the QFT, the network and `qft.inverse()`;
  - measures qubits `0..len_a` into classical bits `0..len_a`.
- **Decode** (`main`): reverses each measured bit string and parses it as unsigned binary.

The quantum meaning of the gates is not modelled. A circuit is a list of gates over integer qubit indices:

- A controlled phase `2π/2^k` is the datatype value `CP(ctrl, tgt, k, inverted)`. The angle is kept as its integer exponent plus a sign flag, never as a real number.
- qiskit's acceptance checks on `QuantumCircuit` are modelled explicitly. An index out of range, or a gate naming one qubit twice, gives `Err(MalformedSequence)`. A character that `int()` rejects gives `Err(InvalidInput)`. An angle whose `2 ** k` is too large for a float gives `Err(AngleOverflow)`.
- `append(sub, qargs)` inlines `sub` with its qubits renamed through `qargs`.
- `inverse()` reverses the gates and flips every phase's sign. It fails on a measurement.

Files, one module each:

| file | module | models |
|---|---|---|
| `results.dfy` | `Results` | the `Result` type and its two error kinds |
| `circuits.dfy` | `Circuits` | gates, circuits, `Emit`, `Append`, `Inverse` |
| `binary.dfy` | `Binary` | width loop, `bin`/`zfill`, reverse-and-parse decode |
| `encoding.dfy` | `Encoding` | `build_encoding_circuit` |
| `qft.dfy` | `Qft` | `build_qft_circuit` and its inverse |
| `addition.dfy` | `Addition` | `build_non_modular_addition_circuit` |
| `adder.dfy` | `Adder` | `build_adder_circuit` and the construction half of `quantum_adder` |

Facts about the code:

- `zfill` pads and never truncates, and `quantum_adder` has no width check: the operand strings always hold the operands exactly.
- The sign correction is six gates: each Toffoli sits between two X gates on its zero-controlled qubit.
- The addition network has `len_a(len_a+1)/2 + len_b` gates when `len_a >= 1`, and `len_b + 1` when `len_a == 0`.
- `build_adder_circuit` fails when either string is empty:
  - an empty B makes the network's first phase name one qubit as both control and target;
  - an empty A makes the first Toffoli `CCX(1, 1 -> 0)`.
- Every angle `2 * np.pi / 2 ** k` converts `2 ** k` to a float, which raises `OverflowError` once `k >= 1024`. The largest exponents are `len_a + 1` in the QFT, `len_a` in the network's middle block and `len_b + 1` in its carry phases. So `build_adder_circuit` raises on a string of 1023 or more characters, and `quantum_adder` raises once an operand reaches `2^1020`. The model returns `Err(AngleOverflow)` there.
- No negative-input check exists. Negative operands are excluded by typing `a` and `b` as `nat`.

## Model

| member | source | states |
|---|---|---|
| Circuits.Emit | src/adder.py:51-56 | Adding gates to a circuit succeeds iff every gate names qubits and bits the circuit declares and no qubit twice. Success keeps well-formedness. A refusal is MalformedSequence. |
| Circuits.Append | src/adder.py:46 | `append(sub, qargs)` succeeds iff qargs has one distinct in-range qubit per sub-circuit qubit and sub has no classical bits. On success the parent's gates come first, unchanged, the sizes are kept and well-formedness is preserved. |
| Circuits.AppendRange | src/adder.py:59-62 | Appending onto the consecutive qubits o..o+m-1 succeeds iff they exist. It adds the sub-circuit's gates with every qubit index moved up by o. |
| Circuits.Inverse | src/adder.py:62 | `inverse()` succeeds iff the circuit has no measurement. The result has the same qubit and bit counts, the same number of gates, no measurement, and stays well-formed. |
| Circuits.InverseInvolution | src/adder.py:62 | Inverting a measurement-free circuit twice gives back the original circuit, gate for gate. |
| Binary.Width | src/adder.py:71-74 | The loop ends with L >= 2, both operands below 2^(L-1), and no smaller m >= 1 with 2^m above both. |
| Binary.ToBinary | src/adder.py:75 | `bin(n)[2:]` is a bit string whose value is n. It is "0" for zero. Otherwise it starts with '1' and has exactly as many digits as n needs. |
| Binary.ToBinaryValue | src/adder.py:75 | Every bit string that starts with '1' is `bin` of its own value. |
| Binary.ZFill | src/adder.py:75-76 | zfill pads on the left with '0' to the width and never truncates: the original string is the suffix. |
| Binary.EncodeValue | src/adder.py:75-76 | An operand string is a non-empty bit string whose value is the operand. |
| Binary.EncodeShape | src/adder.py:75-76 | At width L + 1 the string has length L + 1 and starts with two '0's. It is MSB-first: each prefix of length i encodes n / 2^(L+1-i). |
| Binary.ValuePrefix | src/adder.py:75 | In an MSB-first string, the prefix of length i holds the value divided by 2^(length - i). |
| Binary.ParseBinary | src/adder.py:92 | `int(s, 2)` on a measured string succeeds iff it is a non-empty 0/1 string. The value is below 2^length. Anything else is InvalidInput. |
| Binary.DecodeEncode | src/adder.py:75-76 | Reversing an operand string, then decoding it as `main` does, gives back the operand. |
| Binary.EncodeDecode | src/adder.py:91-92 | Every measured string that decodes is the reversal of the width-preserving encoding of its decoded value. |
| Binary.DecodeAll | src/adder.py:91-92 | Decoding all measured keys succeeds iff each key decodes. The results then line up key for key. |
| Encoding.XGatesSpec | src/adder.py:7-12 | The X gates for a string are exactly X(base + i) for each i with s[i] == '1'. They are ordered by qubit and number the '1's of the string. |
| Encoding.XGatesAppend | src/adder.py:7-12 | Encoding A at offset 0 then B at offset len(A) is encoding A + B. |
| Encoding.XGatesShift | src/adder.py:46 | Embedding the encoding o qubits higher is encoding from base + o. |
| Encoding.EncodeIntoSpec | src/adder.py:7-12 | One enumerate loop succeeds iff every character is a digit and every '1' lands on an existing qubit. It appends exactly the X gates of its string. |
| Encoding.EncodeIntoError | src/adder.py:8-9 | When every '1' fits, a non-digit raises InvalidInput. When every character is a digit, a '1' past the last qubit raises MalformedSequence. |
| Encoding.EncodingCircuitSpec | src/adder.py:5-13 | The encoding circuit on num_qubits - 1 qubits succeeds iff both strings are digit strings whose '1's fit. Its gates are A's X gates then B's X gates at offset len(A), all accepted. |
| Encoding.EncodingForAdder | src/adder.py:37-38 | With num_qubits = len_a + len_b + 1 every '1' fits, so the build succeeds iff both strings are digit strings. Every gate is then an X below num_qubits - 1. |
| Qft.PhasesSpec | src/adder.py:19-20 | The inner loop emits CP(i, j) for j = i+1..len_a ascending with exponent j - i + 1, and nothing else. |
| Qft.RowSpec | src/adder.py:17-20 | One outer pass i emits H(i) followed by its phases: n + 1 - i gates in (control, target) order. |
| Qft.QftSpec | src/adder.py:15-21 | The QFT's gates are exactly H(i) for i <= len_a and CP(i, j, j-i+1) for i < j <= len_a. They are ordered row by row and number (len_a+1)(len_a+2)/2. |
| Qft.QftCircuit | src/adder.py:15-21 | build_qft_circuit succeeds iff len_a < 1023, and otherwise fails with AngleOverflow (OverflowError). On success it is the QFT layout. |
| Qft.QftAngles | src/adder.py:19-20 | Every QFT exponent is at most 1023 iff len_a < 1023: the largest is len_a + 1, on CP(0, len_a). |
| Qft.QftLayout | src/adder.py:15-21 | The built QFT has len_a + 1 qubits, no classical bits and no measurement, is well-formed, and has (len_a+1)(len_a+2)/2 gates. |
| Qft.QftInverse | src/adder.py:62 | `qft.inverse()` on the built QFT succeeds, gives the reversed, sign-flipped gate list on the same qubits, and inverting again restores the QFT. |
| Qft.QftInverseGates | src/adder.py:62 | The inverse QFT holds exactly each H(i) and each QFT phase with its sign flipped. |
| Addition.RowSpec | src/adder.py:28-31 | One middle pass on target i emits CP(j, i) for j = i+len_b..num_qubits-1 ascending, with exponent j - i - len_b + 1. |
| Addition.TailSpec | src/adder.py:32-33 | The last loop emits CP(i, 0) for i = len_a+1..num_qubits-1 ascending, with exponent i - len_a + 1. |
| Addition.MiddleMembers | src/adder.py:27-31 | The middle block holds exactly the phases onto targets 1..len_a-1 from controls target+len_b..len_a+len_b. |
| Addition.AddGatesLayout | src/adder.py:26-33 | The network is CP(num_qubits-1, len_a, 1), then the middle block in (target descending, control ascending) order, then the len_b carry phases with exponents 2, 3, ... |
| Addition.AddGatesCount | src/adder.py:24-33 | The network has len_a(len_a+1)/2 + len_b gates when len_a >= 1, and len_b + 1 when len_a == 0. |
| Addition.AddGatesBounds | src/adder.py:24-33 | Every gate is a forward phase with k >= 1, control < num_qubits and target <= len_a. Control differs from target in every gate iff len_b >= 1. When len_b >= len_a and len_b >= 1, every control is in B's register. |
| Addition.HalfTurn | src/adder.py:26 | The first phase CP(num_qubits-1, len_a, 1) is accepted iff len_b >= 1, and is otherwise refused with MalformedSequence. |
| Addition.AdditionAngles | src/adder.py:27-33 | Every exponent after the first phase is at most 1023 iff len_a <= 1023 and len_b < 1023. The middle block reaches len_a and the carry phases reach len_b + 1. |
| Addition.AdditionCircuitSpec | src/adder.py:23-34 | The network circuit builds iff len_b >= 1, len_a <= 1023 and len_b < 1023. An empty B gives MalformedSequence; any other failure is AngleOverflow. On success the circuit is the network on len_a + len_b + 1 qubits, well-formed and measurement-free. |
| Adder.SignCorrectionValid | src/adder.py:51-56 | In a circuit whose qubits reach past 1 + len_a, the six sign-correction gates are accepted iff len_a >= 1. |
| Adder.AdderChain | src/adder.py:36-65 | For non-empty digit strings shorter than 1023 characters, build_adder_circuit gives the circuit on len_a+len_b+1 qubits and len_a+1 bits. Its gates are: the encoding from qubit 1, X(1), CCX(1+len_a, 1 -> 0), X(1), X(1+len_a), CCX(1, 1+len_a -> 0), X(1+len_a), the QFT, the network, the inverse QFT, then Measure(i, i). Every index is in range. |
| Adder.AdderOk | src/adder.py:36-65 | build_adder_circuit succeeds iff both strings are non-empty digit strings shorter than 1023 characters. A non-digit gives InvalidInput. Otherwise a string of 1023 or more characters gives AngleOverflow, and otherwise an empty string gives MalformedSequence. |
| Adder.AdderNonDigit | src/adder.py:38 | A non-digit in either string makes build_adder_circuit fail with InvalidInput, before any angle is computed. |
| Adder.AdderOverflow | src/adder.py:39-40 | For digit strings, a string of 1023 or more characters makes the QFT or the network fail with AngleOverflow. |
| Adder.AdderEmpty | src/adder.py:40-52 | For digit strings whose angles fit, an empty string makes build_adder_circuit fail with MalformedSequence. |
| Adder.EncodingNonDigit | src/adder.py:8-11 | A non-digit in either string makes the encoding fail with InvalidInput. |
| Adder.EncodingPlacement | src/adder.py:46 | The first gates of the adder are X gates on qubits >= 1 only. X(1+i) occurs iff bin_a[i] == '1', and X(1+len_a+i) occurs iff bin_b[i] == '1'. |
| Adder.MeasuresLast | src/adder.py:64 | A gate is a measurement iff it is among the last len_a + 1, and those measure qubit t into bit t in order. |
| Adder.Operand | src/adder.py:75-76 | One operand string has length L + 1, starts with "00", holds only digits, and decodes back to the operand. |
| Adder.OperandStrings | src/adder.py:71-76 | For any a, b >= 0 both strings have the same length L + 1 >= 3, start with two '0's, hold only digits, and decode back to a and b. Both operands are below 2^(L-1), and L - 1 is the least m >= 1 with 2^m above both. |
| Adder.BuildOperands | src/adder.py:77 | build_adder_circuit on two digit strings of one length L + 1 >= 3 succeeds iff L + 1 < 1023, giving the AdderGates layout, well-formed. Any failure is AngleOverflow. |
| Adder.QuantumAdderCircuit | src/adder.py:71-77 | The strings are those of lines 71-76: equal length L + 1 >= 3, two leading '0's, decoding back to a and b, both operands below 2^(L-1), and L - 1 the least m >= 1 with 2^m above both. The build succeeds iff L + 1 < 1023, giving the AdderGates layout of `Adder.AdderChain` on 2(L+1) + 1 qubits and L + 2 bits, well-formed. Any failure is AngleOverflow. |
| Adder.OperandLimit | src/adder.py:71-77 | For strings of the loop's width, the length is below 1023, so the build succeeds, iff both operands are below 2^1020. |

## Left out

- Circuit execution, `transpile` and the Aer backend (lines 78-84): they are foreign library calls with quantum semantics. `QuantumAdderCircuit` stops at the built circuit.
- That the decoded result equals `a + b`: this needs amplitudes and complex phases. Only the classical bookkeeping around it is modelled.
- Floating-point angles `2 * np.pi / 2 ** k`: each is kept as the exponent `k` and a sign. Only the conversion of `2 ** k` to a float is modelled, as the `OverflowError` for `k >= 1024`.
- qiskit's `append` and `inverse` internals beyond index renaming, gate reversal and sign flipping. Sub-circuits are inlined rather than kept as composite instructions.
- Circuit and register names and the `label=f"R{k+1}"` strings: they do not affect the gate list.
- Interactive input and printing in `main` (lines 86-94): only the reverse-and-parse expression of lines 91-92 is modelled.
- Negative operands: `a` and `b` are `nat`, because `bin` of a negative number yields a `-`-prefixed string the code does not expect.
- Encoding.IsDigit: only `'0'..'9'` count as digits; Python's `int()` also accepts other Unicode decimal digits.
- Binary.ParseBinary: only plain 0/1 strings are accepted; `int(s, 2)` would also take whitespace, a sign, underscores or a `0b` prefix. Measured keys never contain them.
- Encoding.EncodingCircuit: requires `numQubits >= 1`, where qiskit would reject a negative register size. `build_adder_circuit` always passes at least 1.
- Binary.ZFill: does not model `zfill`'s handling of a leading sign, which never arises for `bin(n)[2:]` of `n >= 0`.
- The test driver `test.py`: it only runs the simulator.
