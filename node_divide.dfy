/**
 * The `div` instruction of the register machine: the arithmetic-fault policy
 * of `perform_operation` and the two node kinds `NodeDivideRegister`
 * (`div $target,$source`) and `NodeDivideConstant` (`div $target,constant`).
 *
 * Register values are arbitrary-precision integers (BigInt), modelled as `int`.
 */
module NodeDivide {
  import opened Wrappers
  import opened Arithmetic

  type RegisterIndex = nat

  /** Operands whose BigInt bit length reaches this many bits are refused. */
  const BitLengthCeiling: nat := 32

  /** The same ceiling stated as a magnitude: 2^31. */
  const MagnitudeLimit: nat := 0x8000_0000

  /** The two faults `perform_operation` reports. */
  datatype DivideError = InputOutOfRange | DivisionByZero

  /** The variants of the interpreter's `EvalError` that the divide nodes produce. */
  datatype EvalError = DivideOutOfRange | DivisionByZero

  function Abs(v: int): nat
  {
    if v < 0 then -v else v
  }

  /** Number of significant bits of a magnitude; 0 has none. */
  function BitLength(n: nat): (b: nat)
    ensures n < Pow2(b)
    ensures n > 0 ==> b >= 1 && Pow2(b - 1) <= n
  {
    if n == 0 then 0 else 1 + BitLength(n / 2)
  }

  /** BigInt's `bits()`: the bit length of the magnitude, the sign not counted. */
  function Bits(v: int): (b: nat)
    ensures Abs(v) < Pow2(b)
    ensures v != 0 ==> b >= 1 && Pow2(b - 1) <= Abs(v)
  {
    BitLength(Abs(v))
  }

  /** A bit length above k means a magnitude of at least 2^k, and conversely. */
  lemma {:induction false} BitLengthExceeds(n: nat, k: nat)
    ensures BitLength(n) > k <==> n >= Pow2(k)
  {
    if k > 0 && n > 0 {
      BitLengthExceeds(n / 2, k - 1);
    }
  }

  /** `bits() >= 32` is exactly `|v| >= 2^31`. */
  lemma BitsReachCeiling(v: int)
    ensures Bits(v) >= BitLengthCeiling <==> Abs(v) >= MagnitudeLimit
  {
    BitLengthExceeds(Abs(v), 31);
    assert Pow2(8) == 0x100;
    assert Pow2(16) == 0x1_0000;
    assert Pow2(24) == 0x100_0000;
    assert Pow2(31) == MagnitudeLimit;
  }

  /**
   * q is the quotient of x by y rounded toward zero: the remainder x - q*y is
   * smaller than y in magnitude and never has the opposite sign of x.
   */
  predicate IsTruncatedQuotient(x: int, y: int, q: int)
  {
    var rem := x - q * y;
    Abs(rem) < Abs(y) && (x >= 0 ==> rem >= 0) && (x <= 0 ==> rem <= 0)
  }

  lemma MulNeg(m: int, b: int)
    ensures (-m) * b == -(m * b) && m * (-b) == -(m * b)
  {
  }

  lemma MulMagnitude(d: int, y: int)
    ensures Abs(d * y) == Abs(d) * Abs(y)
  {
    MulNeg(d, y);
    MulNeg(-d, y);
    if d >= 0 && y < 0 {
      assert d * y == -(d * (-y));
    } else if d < 0 && y < 0 {
      assert d * y == (-d) * (-y);
    }
  }

  lemma MagnitudeDividesDown(a: nat, b: nat)
    requires b > 0
    ensures a / b <= a
    ensures a == b * (a / b) + a % b && 0 <= a % b < b
  {
    var m := a / b;
    MulAtLeast(m, b);
    assert m * b == b * m;
  }

  /** The sign-adjusted quotient of magnitudes times y is m*|y| with the sign of x. */
  lemma SignedProduct(x: int, y: int, m: int)
    requires y != 0
    ensures var q := if (x < 0) == (y < 0) then m else -m;
            q * y == (if x < 0 then -(m * Abs(y)) else m * Abs(y))
  {
    MulNeg(m, y);
    MulNeg(-m, y);
    MulNeg(m, -y);
  }

  /** The magnitude m carrying the sign of x / y: negative exactly when x and y differ in sign. */
  function WithQuotientSign(x: int, y: int, m: nat): (q: int)
    ensures Abs(q) == m
    ensures q == (if (x < 0) == (y < 0) then m as int else -(m as int))
  {
    if (x < 0) == (y < 0) then m as int else -(m as int)
  }

  /** Rounding the quotient of magnitudes toward zero and restoring the sign gives the truncated quotient. */
  lemma SignedQuotientIsTruncated(x: int, y: int, m: nat)
    requires y != 0 && m == Abs(x) / Abs(y)
    ensures IsTruncatedQuotient(x, y, WithQuotientSign(x, y, m))
    ensures m <= Abs(x)
  {
    var q := WithQuotientSign(x, y, m);
    var a, b := Abs(x), Abs(y);
    var r := a % b;
    var mb := m * b;
    assert a == mb + r && 0 <= r < b && m <= a by {
      MagnitudeDividesDown(a, b);
      assert b * m == m * b;
    }
    assert q * y == (if x < 0 then -mb else mb) by {
      SignedProduct(x, y, m);
    }
    if x < 0 {
      assert x - q * y == -r;
    } else {
      assert x - q * y == r;
    }
  }

  /** Division rounding toward zero, as BigInt's `/` (and C, Java, Rust) do. */
  function TruncDiv(x: int, y: int): (q: int)
    requires y != 0
    ensures IsTruncatedQuotient(x, y, q)
    ensures Abs(q) <= Abs(x)
  {
    SignedQuotientIsTruncated(x, y, Abs(x) / Abs(y));
    WithQuotientSign(x, y, Abs(x) / Abs(y))
  }

  /** At most one integer is the truncated quotient of x by y. */
  lemma TruncatedQuotientUnique(x: int, y: int, q1: int, q2: int)
    requires y != 0
    requires IsTruncatedQuotient(x, y, q1) && IsTruncatedQuotient(x, y, q2)
    ensures q1 == q2
  {
    var d := q2 - q1;
    assert (x - q1 * y) - (x - q2 * y) == d * y by {
      assert q2 * y - q1 * y == (q2 - q1) * y;
    }
    MulMagnitude(d, y);
    if d != 0 {
      MulAtLeast(Abs(y), Abs(d));
    }
  }

  /** TruncDiv is the one and only truncated quotient. */
  lemma TruncDivCharacterized(x: int, y: int, q: int)
    requires y != 0
    ensures IsTruncatedQuotient(x, y, q) <==> q == TruncDiv(x, y)
  {
    if IsTruncatedQuotient(x, y, q) {
      TruncatedQuotientUnique(x, y, q, TruncDiv(x, y));
    }
  }

  /**
   * `perform_operation`: divisor range check, then zero check, then dividend
   * range check, then the quotient rounded toward zero.
   */
  function PerformOperation(x: int, y: int): (r: Result<int, DivideError>)
    ensures Abs(y) >= MagnitudeLimit ==> r == Failure(InputOutOfRange)
    ensures y == 0 ==> r == Failure(DivideError.DivisionByZero)
    ensures 0 < Abs(y) < MagnitudeLimit && Abs(x) >= MagnitudeLimit ==> r == Failure(InputOutOfRange)
    ensures r.Success? <==> y != 0 && Abs(y) < MagnitudeLimit && Abs(x) < MagnitudeLimit
    ensures r.Success? ==> IsTruncatedQuotient(x, y, r.value)
    ensures r.Success? ==> Abs(r.value) <= Abs(x) < MagnitudeLimit
  {
    BitsReachCeiling(y);
    BitsReachCeiling(x);
    if Bits(y) >= BitLengthCeiling then Failure(InputOutOfRange)
    else if y == 0 then Failure(DivideError.DivisionByZero)
    else if Bits(x) >= BitLengthCeiling then Failure(InputOutOfRange)
    else Success(TruncDiv(x, y))
  }

  /** The `From<DivideError> for EvalError` conversion. */
  function ToEvalError(e: DivideError): (r: EvalError)
    ensures r == DivideOutOfRange <==> e == InputOutOfRange
    ensures r == EvalError.DivisionByZero <==> e == DivideError.DivisionByZero
  {
    match e
    case InputOutOfRange => DivideOutOfRange
    case DivisionByZero => EvalError.DivisionByZero
  }

  /** The test table of `perform_operation`. */
  lemma PerformOperationExamples()
    ensures PerformOperation(50, 10) == Success(5)
    ensures PerformOperation(100, 1) == Success(100)
    ensures PerformOperation(10, 2) == Success(5)
    ensures PerformOperation(9, 2) == Success(4)
    ensures PerformOperation(-1, -1) == Success(1)
    ensures PerformOperation(3, -3) == Success(-1)
    ensures PerformOperation(-3, 3) == Success(-1)
    ensures PerformOperation(-9, 2) == Success(-4)
    ensures PerformOperation(-10, 2) == Success(-5)
    ensures PerformOperation(100, 0) == Failure(DivideError.DivisionByZero)
    ensures PerformOperation(-100, 0) == Failure(DivideError.DivisionByZero)
    ensures PerformOperation(0x7fff_ffff, 0x7fff_ffff) == Success(1)
    ensures PerformOperation(-0x7fff_ffff, -0x7fff_ffff) == Success(1)
    ensures PerformOperation(0x8000_0000, 1) == Failure(InputOutOfRange)
    ensures PerformOperation(-0x8000_0000, 1) == Failure(InputOutOfRange)
    ensures PerformOperation(0x8000_0001, 2) == Failure(InputOutOfRange)
    ensures PerformOperation(-0x8000_0001, 2) == Failure(InputOutOfRange)
    ensures PerformOperation(1, 0x7fff_ffff) == Success(0)
    ensures PerformOperation(1, -0x7fff_ffff) == Success(0)
    ensures PerformOperation(1, 0x8000_0000) == Failure(InputOutOfRange)
    ensures PerformOperation(1, -0x8000_0000) == Failure(InputOutOfRange)
    ensures PerformOperation(1, 0x8000_0001) == Failure(InputOutOfRange)
    ensures PerformOperation(1, -0x8000_0001) == Failure(InputOutOfRange)
  {
    TruncDivCharacterized(9, 2, 4);
    TruncDivCharacterized(-9, 2, -4);
    TruncDivCharacterized(-10, 2, -5);
    TruncDivCharacterized(50, 10, 5);
    TruncDivCharacterized(100, 1, 100);
    TruncDivCharacterized(10, 2, 5);
    TruncDivCharacterized(-1, -1, 1);
    TruncDivCharacterized(3, -3, -1);
    TruncDivCharacterized(-3, 3, -1);
    TruncDivCharacterized(0x7fff_ffff, 0x7fff_ffff, 1);
    TruncDivCharacterized(-0x7fff_ffff, -0x7fff_ffff, 1);
    TruncDivCharacterized(1, 0x7fff_ffff, 0);
    TruncDivCharacterized(1, -0x7fff_ffff, 0);
  }

  /** The register file of one program evaluation (`ProgramState`). */
  class ProgramState {
    var registers: seq<int>

    constructor (registerCount: nat)
      ensures registers == seq(registerCount, _ => 0)
    {
      registers := seq(registerCount, _ => 0);
    }

    /** The value held by register index. */
    function GetRegisterValue(index: RegisterIndex): (v: int)
      reads this
      requires index < |registers|
      ensures v == registers[index]
    {
      registers[index]
    }

    method SetRegisterValue(index: RegisterIndex, value: int)
      requires index < |registers|
      modifies this
      ensures registers == old(registers)[index := value]
      ensures GetRegisterValue(index) == value
    {
      registers := registers[index := value];
    }
  }

  /** A caller's `Vec<RegisterIndex>`, appended to in place. */
  class RegisterIndexVec {
    var elements: seq<RegisterIndex>

    constructor ()
      ensures elements == []
    {
      elements := [];
    }

    method Push(index: RegisterIndex)
      modifies this
      ensures elements == old(elements) + [index]
    {
      elements := elements + [index];
    }
  }

  /** A caller's `HashSet<RegisterIndex>`, grown in place. */
  class RegisterIndexSet {
    var elements: set<RegisterIndex>

    constructor (initial: set<RegisterIndex>)
      ensures elements == initial
    {
      elements := initial;
    }

    /** `HashSet::contains`: whether the index is in the set. */
    predicate Contains(index: RegisterIndex): (present: bool)
      reads this
      ensures present <==> index in elements
    {
      index in elements
    }

    method Insert(index: RegisterIndex)
      modifies this
      ensures elements == old(elements) + {index}
    {
      elements := elements + {index};
    }
  }

  /** `div $target,$source`. */
  datatype NodeDivideRegister = NodeDivideRegister(target: RegisterIndex, source: RegisterIndex)
  {
    /**
     * On success only the target register changes, to target / source rounded
     * toward zero; on a fault the register file is left as it was.
     */
    method Eval(state: ProgramState) returns (r: Outcome<EvalError>)
      requires target < |state.registers| && source < |state.registers|
      modifies state
      ensures |state.registers| == |old(state.registers)|
      ensures match PerformOperation(old(state.registers[target]), old(state.registers[source]))
        case Success(v) => r == Pass && state.registers == old(state.registers)[target := v]
        case Failure(e) => r == Fail(ToEvalError(e)) && state.registers == old(state.registers)
    {
      var lhs := state.GetRegisterValue(target);
      var rhs := state.GetRegisterValue(source);
      var value := PerformOperation(lhs, rhs);
      if value.Failure? {
        return Fail(ToEvalError(value.error));
      }
      state.SetRegisterValue(target, value.value);
      r := Pass;
    }

    /** Appends the target and then the source; earlier elements stay as they were. */
    method AccumulateRegisterIndexes(registerVec: RegisterIndexVec)
      modifies registerVec
      ensures registerVec.elements == old(registerVec.elements) + [target, source]
    {
      registerVec.Push(target);
      registerVec.Push(source);
    }

    /**
     * Liveness flows from the source into the target: the target is live
     * afterwards iff it was live or the source was; nothing else is added
     * and nothing is removed.
     */
    method LiveRegisterIndexes(registerSet: RegisterIndexSet)
      modifies registerSet
      ensures old(registerSet.elements) <= registerSet.elements
      ensures registerSet.elements - old(registerSet.elements) <= {target}
      ensures target in registerSet.elements <==>
                target in old(registerSet.elements) || source in old(registerSet.elements)
    {
      if registerSet.Contains(source) {
        registerSet.Insert(target);
      }
    }
  }

  /** `div $target,constant`. */
  datatype NodeDivideConstant = NodeDivideConstant(target: RegisterIndex, source: int)
  {
    /**
     * On success only the target register changes, to target / constant
     * rounded toward zero; on a fault the register file is left as it was.
     */
    method Eval(state: ProgramState) returns (r: Outcome<EvalError>)
      requires target < |state.registers|
      modifies state
      ensures |state.registers| == |old(state.registers)|
      ensures match PerformOperation(old(state.registers[target]), source)
        case Success(v) => r == Pass && state.registers == old(state.registers)[target := v]
        case Failure(e) => r == Fail(ToEvalError(e)) && state.registers == old(state.registers)
    {
      var lhs := state.GetRegisterValue(target);
      var value := PerformOperation(lhs, source);
      if value.Failure? {
        return Fail(ToEvalError(value.error));
      }
      state.SetRegisterValue(target, value.value);
      r := Pass;
    }

    /** Appends only the target; earlier elements stay as they were. */
    method AccumulateRegisterIndexes(registerVec: RegisterIndexVec)
      modifies registerVec
      ensures registerVec.elements == old(registerVec.elements) + [target]
    {
      registerVec.Push(target);
    }
  }
}
