# Mod-Three FSM in Dafny

A model of the mod-three finite state machine of `fsm.py`: a three-state
deterministic automaton that reads a binary string, most significant digit
first, and reports the string's value modulo three without ever converting
it to a number.

- `Fsm.State` is the closed set of states `S0 | S1 | S2`; `Sk` stands for
  "the digits read so far are k modulo 3".
- The transition table and the remainder table are built once by the FSM's
  constructor and never written again, so they are the pure functions
  `Fsm.Next` and `Fsm.Remainder`.
- `Fsm.FSM` is a class whose one mutable field is `state`. `Transition` takes a
  `string`, as the source does, so the empty string and multi-character
  strings are rejected along with every other non-digit. It returns an
  `Outcome` instead of raising `InvalidInputError`.
- `Fsm.ModThree` is the driver `mod_three`. It builds a fresh FSM, feeds it one
  character at a time in a loop, and returns `Ok(remainder)` or the
  `Err(InvalidInputError(c))` of the first bad character `c`.
- The reference the automaton is held to is `Fsm.BinVal`, the value of a
  binary string. `Fsm.Delta` is the state the tables reach after a whole string.
  `Fsm.FirstInvalid` is the position of the first character that is not a
  digit.

Every state has a transition on both digits, because `Next` is a total match
over `State`. So the state always stays in {S0, S1, S2}: the type admits no
other value.

## Model

| member | source | states |
|---|---|---|
| Fsm.Remainder | fsm.py:51-55 | every state maps to a remainder below 3, and the remainder is 0 exactly in S0 |
| Fsm.Next | fsm.py:45-49 | the table is total on both digits, and the remainder of the next state is (2 * current remainder + digit) mod 3 |
| Fsm.FSM.constructor | fsm.py:42-43 | a new FSM is in S0 and reports remainder 0 |
| Fsm.FSM.Transition | fsm.py:57-66 | it succeeds exactly on "0" and "1" and then moves `state` by the table, so the new remainder is (2 * old + digit) mod 3; any other input fails with InvalidInputError carrying that input, and `state` is left unchanged |
| Fsm.FSM.GetRemainder | fsm.py:68-74 | never fails; returns a value below 3, which is 0 exactly in S0 and 1 exactly in S1 |
| Fsm.ModThree | fsm.py:77-93 | on a string of only '0'/'1' it returns the string's binary value mod 3; otherwise it returns no remainder and fails with the error of the first non-digit character |
| Fsm.DeltaRemainder | fsm.py:87-89 | running the tables over s from any state with remainder r reaches the remainder of r * 2^len(s) + value(s) |
| Fsm.DeltaComputesMod3 | fsm.py:86-93 | from S0, the state after reading a binary string stands for that string's value mod 3 |
| Fsm.DeltaConcat | fsm.py:87-89 | stepping through a and then through b reaches the same state as stepping through a + b |
| Fsm.ZerosStayInS0 | fsm.py:46 | any run of '0' digits read in S0 stays in S0 |
| Fsm.LeadingZeros | fsm.py:46 | leading zeros change neither a binary string's value nor the state it leads to from S0, so mod_three gives the same remainder with or without them |
| Fsm.LeadingZerosInvalid | fsm.py:87-92 | leading zeros do not change which character a non-binary string is rejected on |
| Fsm.FirstInvalid | fsm.py:87-92 | for a string that is not binary, it gives a position holding a non-digit with only digits before it: the character mod_three aborts on |
| Fsm.FirstInvalidAt | fsm.py:87-92 | a non-digit preceded only by digits is the first invalid position, so the loop's error is raised at exactly that character |
| Fsm.KnownRemaindersShort | tests/test_mod_three.py:31-39 | the expected remainders of the base-case and empty-string tests: "" 0, "0" 0, "1" 1 |
| Fsm.KnownRemaindersValid | tests/test_mod_three.py:66-68 | the expected remainders of the valid-input tests: "1101" 1, "1110" 2, "1111" 0 |
| Fsm.KnownRemaindersAllPaths | tests/test_mod_three.py:75-79 | the expected remainders of the tests that walk every transition: "0101010" 0, "01" 1, "10" 2, "101" 2, "1010" 1 |

## Left out

- The `print` of the error message before it is re-raised (fsm.py:91) is console output. Only the re-raise is modelled.
- The text of `InvalidInputError`'s message is not modelled. The error carries the offending input instead.
- The `exceptions` module that defines `InvalidInputError` is not part of this model. The error is the `FsmError` datatype.
- Arguments that are not strings are not modelled. `Transition` and `ModThree` take `string`, so such a call cannot be written. In the source, a non-string passed to `transition` fails its membership test and raises `InvalidInputError`, or raises `TypeError` if it is unhashable. A non-string passed to `mod_three` raises `TypeError` only if it is not iterable; an iterable of characters, such as a list, is processed like a string.
- The source does not report the position of the rejected character, only the character, so neither does the model. `FirstInvalid` gives that position as a specification aid.
- The two tables are shared pure functions rather than per-instance dictionaries. Nothing writes them after construction, so no behaviour depends on the difference.
