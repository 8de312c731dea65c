/** A three-state deterministic finite automaton that computes the remainder
    of a binary string, read most significant digit first, divided by three.

    The transition and remainder tables are fixed when an FSM is built and are
    never written again, so they are pure functions over `State` here; the
    current state is the one thing an FSM changes, so `FSM` is a class with a
    mutable `state` field. */
module Fsm {

  /** The three states; Sk means "the digits read so far are k modulo 3". */
  datatype State = S0 | S1 | S2

  /** The error raised for any input other than the one-character strings
      "0" and "1"; it carries the offending input. */
  datatype FsmError = InvalidInputError(input: string)

  /** Outcome of a single transition. */
  datatype Outcome = Pass | Fail(error: FsmError)

  /** Outcome of the driver: a remainder, or the error that aborted it. */
  datatype Result<T> = Ok(value: T) | Err(error: FsmError)

  // ---------------------------------------------------------------------
  // Digits and their binary value (the reference the automaton is held to)
  // ---------------------------------------------------------------------

  /** A character the transition table has a column for. */
  predicate IsBit(c: char) {
    c == '0' || c == '1'
  }

  /** The transition guard: exactly the strings "0" and "1" are accepted. */
  predicate IsDigit(input: string) {
    input == "0" || input == "1"
  }

  /** A string made only of '0' and '1'. */
  predicate IsBinary(s: string) {
    forall i :: 0 <= i < |s| ==> IsBit(s[i])
  }

  function BitValue(c: char): (v: nat)
    requires IsBit(c)
    ensures v < 2 && (v == 1 <==> c == '1')
  {
    if c == '1' then 1 else 0
  }

  /** The number a binary string denotes, most significant digit first;
      the empty string denotes 0. */
  function BinVal(s: string): nat
    requires IsBinary(s)
  {
    if s == [] then 0 else 2 * BinVal(s[..|s| - 1]) + BitValue(s[|s| - 1])
  }

  function Pow2(n: nat): nat
  {
    if n == 0 then 1 else 2 * Pow2(n - 1)
  }

  // ---------------------------------------------------------------------
  // The two tables
  // ---------------------------------------------------------------------

  /** The remainder table: the remainder each state stands for. */
  function Remainder(st: State): (r: nat)
    ensures r < 3
    ensures r == 0 <==> st == S0
  {
    match st
    case S0 => 0
    case S1 => 1
    case S2 => 2
  }

  /** The transition table. Reading digit `d` doubles the number read so far
      and adds `d`, so the new remainder is (2 * old remainder + d) mod 3. */
  function Next(st: State, d: char): (nx: State)
    requires IsBit(d)
    ensures Remainder(nx) == (2 * Remainder(st) + BitValue(d)) % 3
  {
    match st
    case S0 => if d == '0' then S0 else S1
    case S1 => if d == '0' then S2 else S0
    case S2 => if d == '0' then S1 else S2
  }

  // ---------------------------------------------------------------------
  // Runs of the automaton over a whole string
  // ---------------------------------------------------------------------

  /** The state reached from `st` after reading every digit of `s` in order. */
  function Delta(st: State, s: string): State
    requires IsBinary(s)
  {
    if s == [] then st else Next(Delta(st, s[..|s| - 1]), s[|s| - 1])
  }

  /** Helper: doubling and adding a bit commutes with reduction mod 3. */
  lemma ModStep(x: int, b: nat)
    ensures (2 * (x % 3) + b) % 3 == (2 * x + b) % 3
  {
  }

  /** Running from any state `st` over `s` gives the remainder of
      Remainder(st) * 2^|s| + BinVal(s). */
  lemma {:induction false} DeltaRemainder(st: State, s: string)
    requires IsBinary(s)
    ensures Remainder(Delta(st, s)) == (Remainder(st) * Pow2(|s|) + BinVal(s)) % 3
  {
    if s != [] {
      var p, d := s[..|s| - 1], s[|s| - 1];
      var r, n := Remainder(st), |p|;
      DeltaRemainder(st, p);
      var x := r * Pow2(n) + BinVal(p);
      calc {
        Remainder(Delta(st, s));
        (2 * Remainder(Delta(st, p)) + BitValue(d)) % 3;
        (2 * (x % 3) + BitValue(d)) % 3;
        { ModStep(x, BitValue(d)); }
        (2 * x + BitValue(d)) % 3;
        { assert 2 * (r * Pow2(n)) == r * (2 * Pow2(n)); }
        (r * Pow2(|s|) + BinVal(s)) % 3;
      }
    }
  }

  /** The central property: starting from S0, the state after reading a
      binary string stands for that string's value mod 3. */
  lemma DeltaComputesMod3(s: string)
    requires IsBinary(s)
    ensures Remainder(Delta(S0, s)) == BinVal(s) % 3
  {
    DeltaRemainder(S0, s);
  }

  /** Stepping through `a` and then through `b` reaches the same state as
      stepping through `a + b` in one go. */
  lemma {:induction false} DeltaConcat(st: State, a: string, b: string)
    requires IsBinary(a) && IsBinary(b)
    ensures IsBinary(a + b)
    ensures Delta(st, a + b) == Delta(Delta(st, a), b)
  {
    var ab := a + b;
    assert forall i | 0 <= i < |ab| :: ab[i] == if i < |a| then a[i] else b[i - |a|];
    if b == [] {
      assert ab == a;
    } else {
      var b' := b[..|b| - 1];
      assert ab[..|ab| - 1] == a + b';
      DeltaConcat(st, a, b');
    }
  }

  /** A '0' read in S0 keeps the automaton in S0. */
  lemma {:induction false} ZerosStayInS0(n: nat)
    ensures IsBinary(Zeros(n)) && Delta(S0, Zeros(n)) == S0
  {
    if n > 0 {
      assert Zeros(n)[..n - 1] == Zeros(n - 1);
      ZerosStayInS0(n - 1);
    }
  }

  function Zeros(n: nat): (z: string)
    ensures |z| == n && forall i :: 0 <= i < n ==> z[i] == '0'
  {
    seq(n, _ => '0')
  }

  /** Leading zeros change neither the value nor the final state. */
  lemma LeadingZeros(n: nat, s: string)
    requires IsBinary(s)
    ensures IsBinary(Zeros(n) + s)
    ensures BinVal(Zeros(n) + s) == BinVal(s)
    ensures Delta(S0, Zeros(n) + s) == Delta(S0, s)
  {
    ZerosStayInS0(n);
    DeltaConcat(S0, Zeros(n), s);
    LeadingZerosValue(n, s);
  }

  lemma {:induction false} LeadingZerosValue(n: nat, s: string)
    requires IsBinary(s)
    ensures IsBinary(Zeros(n) + s) && BinVal(Zeros(n) + s) == BinVal(s)
  {
    var zs := Zeros(n) + s;
    assert forall i | 0 <= i < |zs| :: zs[i] == if i < n then '0' else s[i - n];
    if s == [] {
      assert zs == Zeros(n);
      ZerosValue(n);
    } else {
      assert zs[..|zs| - 1] == Zeros(n) + s[..|s| - 1];
      LeadingZerosValue(n, s[..|s| - 1]);
    }
  }

  lemma {:induction false} ZerosValue(n: nat)
    ensures IsBinary(Zeros(n)) && BinVal(Zeros(n)) == 0
  {
    if n > 0 {
      assert Zeros(n)[..n - 1] == Zeros(n - 1);
      ZerosValue(n - 1);
    }
  }

  /** The position of the first character that is not a binary digit. */
  function FirstInvalid(s: string): (i: nat)
    requires !IsBinary(s)
    ensures i < |s| && !IsBit(s[i]) && IsBinary(s[..i])
  {
    if !IsBit(s[0]) then 0 else 1 + FirstInvalid(s[1..])
  }

  /** A non-digit preceded only by digits is the first invalid position. */
  lemma {:induction false} FirstInvalidAt(s: string, i: nat)
    requires i < |s| && IsBinary(s[..i]) && !IsBit(s[i])
    ensures !IsBinary(s) && FirstInvalid(s) == i
  {
    if i > 0 {
      assert s[..i][0] == s[0];
      assert s[1..][..i - 1] == s[..i][1..];
      FirstInvalidAt(s[1..], i - 1);
    }
  }

  /** Leading zeros do not move the first invalid character either, so a
      string with them is rejected on the same character as one without. */
  lemma LeadingZerosInvalid(n: nat, s: string)
    requires !IsBinary(s)
    ensures !IsBinary(Zeros(n) + s)
    ensures FirstInvalid(Zeros(n) + s) == n + FirstInvalid(s)
    ensures (Zeros(n) + s)[FirstInvalid(Zeros(n) + s)] == s[FirstInvalid(s)]
  {
    var zs, i := Zeros(n) + s, FirstInvalid(s);
    assert zs[..n + i] == Zeros(n) + s[..i];
    LeadingZerosValue(n, s[..i]);
    FirstInvalidAt(zs, n + i);
  }

  // ---------------------------------------------------------------------
  // The machine
  // ---------------------------------------------------------------------

  class FSM {
    /** The current state; the only thing an FSM changes. */
    var state: State

    /** A fresh machine starts in S0, so it reports remainder 0. */
    constructor ()
      ensures state == S0
      ensures GetRemainder() == 0
    {
      state := S0;
    }

    /** Moves `state` by the transition table on "0" or "1"; any other input
        (another character, the empty string, several characters) fails
        before `state` is touched. */
    method Transition(input: string) returns (o: Outcome)
      modifies this
      ensures o.Pass? <==> IsDigit(input)
      ensures o.Pass? ==> state == Next(old(state), input[0])
      ensures o.Pass? ==> Remainder(state) == (2 * Remainder(old(state)) + BitValue(input[0])) % 3
      ensures o.Fail? ==> o.error == InvalidInputError(input) && state == old(state)
    {
      if !IsDigit(input) {
        return Fail(InvalidInputError(input));
      }
      state := Next(state, input[0]);
      o := Pass;
    }

    /** The remainder the current state stands for; never fails. */
    function GetRemainder(): (r: nat)
      reads this
      ensures r < 3 && (r == 0 <==> state == S0)
      ensures r == 1 <==> state == S1
    {
      Remainder(state)
    }
  }

  /** Feeds every character of `s` to a fresh FSM, in order, and returns the
      final remainder; the first character that is not '0' or '1' aborts the
      run with that character's error and no remainder. */
  method ModThree(s: string) returns (r: Result<nat>)
    ensures r.Ok? <==> IsBinary(s)
    ensures r.Ok? ==> r.value == BinVal(s) % 3
    ensures r.Err? ==> r.error == InvalidInputError([s[FirstInvalid(s)]])
  {
    var fsm := new FSM();
    for i := 0 to |s|
      invariant IsBinary(s[..i])
      invariant fsm.state == Delta(S0, s[..i])
    {
      var o := fsm.Transition([s[i]]);
      if o.Fail? {
        FirstInvalidAt(s, i);
        return Err(o.error);
      }
      assert s[..i + 1][..i] == s[..i];
    }
    assert s[..|s|] == s;
    DeltaComputesMod3(s);
    r := Ok(fsm.GetRemainder());
  }

  /** The expected remainders of the repository's base-case and empty-string
      tests, as statements about the reference definition that ModThree is
      proved against. */
  lemma KnownRemaindersShort()
    ensures BinVal("") % 3 == 0 && BinVal("0") % 3 == 0 && BinVal("1") % 3 == 1
  {
    assert BinVal("0") == 0 by { assert "0"[..0] == ""; }
    assert BinVal("1") == 1 by { assert "1"[..0] == ""; }
  }

  /** The expected remainders of the repository's valid-input tests. */
  lemma KnownRemaindersValid()
    ensures BinVal("1101") % 3 == 1 && BinVal("1110") % 3 == 2 && BinVal("1111") % 3 == 0
  {
    assert BinVal("1") == 1 by { assert "1"[..0] == ""; }
    assert BinVal("11") == 3 by { assert "11"[..1] == "1"; }
    assert BinVal("110") == 6 by { assert "110"[..2] == "11"; }
    assert BinVal("111") == 7 by { assert "111"[..2] == "11"; }
    assert BinVal("1101") == 13 by { assert "1101"[..3] == "110"; }
    assert BinVal("1110") == 14 by { assert "1110"[..3] == "111"; }
    assert BinVal("1111") == 15 by { assert "1111"[..3] == "111"; }
  }

  /** The expected remainders of the repository's tests that walk every
      transition of the table. */
  lemma KnownRemaindersAllPaths()
    ensures BinVal("0101010") % 3 == 0 && BinVal("01") % 3 == 1 && BinVal("10") % 3 == 2
    ensures BinVal("101") % 3 == 2 && BinVal("1010") % 3 == 1
  {
    assert BinVal("0") == 0 by { assert "0"[..0] == ""; }
    assert BinVal("1") == 1 by { assert "1"[..0] == ""; }
    assert BinVal("01") == 1 by { assert "01"[..1] == "0"; }
    assert BinVal("10") == 2 by { assert "10"[..1] == "1"; }
    assert BinVal("010") == 2 by { assert "010"[..2] == "01"; }
    assert BinVal("101") == 5 by { assert "101"[..2] == "10"; }
    assert BinVal("0101") == 5 by { assert "0101"[..3] == "010"; }
    assert BinVal("1010") == 10 by { assert "1010"[..3] == "101"; }
    assert BinVal("01010") == 10 by { assert "01010"[..4] == "0101"; }
    assert BinVal("010101") == 21 by { assert "010101"[..5] == "01010"; }
    assert BinVal("0101010") == 42 by { assert "0101010"[..6] == "010101"; }
  }

  /** A client of the class, following the repository's FSM tests: the
      specification alone determines every state along the way. */
  method TransitionWalk()
  {
    var m := new FSM();
    assert m.GetRemainder() == 0;
    var o := m.Transition("1");
    assert m.state == S1;
    o := m.Transition("0");
    assert m.state == S2 && m.GetRemainder() == 2;
    o := m.Transition("1");
    assert m.state == S2;
    o := m.Transition("0");
    assert m.state == S1 && m.GetRemainder() == 1;
    o := m.Transition("2");
    assert o == Fail(InvalidInputError("2")) && m.state == S1;
    o := m.Transition("");
    assert o.Fail? && m.state == S1;
    o := m.Transition("10");
    assert o.Fail? && m.state == S1;
  }
}
