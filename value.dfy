/** Tagged values and their arithmetic (`Value::add`, `sub`, `mul`, `div`). */
module Values {
  import opened Errors

  const I32_MIN: int := -0x8000_0000
  const I32_MAX: int := 0x7fff_ffff

  predicate InI32(x: int) { I32_MIN <= x <= I32_MAX }

  /** Rust's `i32`. */
  type I32 = x: int | I32_MIN <= x <= I32_MAX

  /** A machine value. `Float` is a tag only: the model does not track the bits
      of an `f64`, so it can tell a Float from other values and nothing more. */
  datatype Value =
    | Integer(i: I32)
    | Float
    | Boolean(b: bool)
    | Reference(addr: nat)
    | Null

  predicate BothInteger(a: Value, b: Value) { a.Integer? && b.Integer? }

  predicate BothFloat(a: Value, b: Value) { a.Float? && b.Float? }

  function Abs(x: int): nat { if x < 0 then -x else x }

  /** The overflow-checked result of an i32 operation whose exact value is `x`. */
  function Checked(x: int, overflow: string): (r: Result<Value>)
    ensures r.Ok? <==> InI32(x)
    ensures r.Ok? ==> r.value == Integer(x)
    ensures r.Err? ==> r.error == Panic(overflow)
  {
    if InI32(x) then Ok(Integer(x)) else Err(Panic(overflow))
  }

  /** `q` is the quotient of `a` by `b` truncated toward zero: the remainder
      `a - b * q` is smaller than `b` in magnitude and is zero or has the sign of `a`. */
  predicate IsTruncQuotient(a: int, b: int, q: int) {
    var r := a - b * q;
    b != 0 && Abs(r) < Abs(b) && (r == 0 || (r < 0 <==> a < 0))
  }

  /** Integer `/` in Rust: division rounding toward zero. */
  function TruncDiv(a: int, b: int): int
    requires b != 0
  {
    if a >= 0 && b > 0 then a / b
    else if a >= 0 then -(a / -b)
    else if b > 0 then -(-a / b)
    else -a / -b
  }

  /** Integer `%` in Rust: the remainder of `TruncDiv`, with the dividend's sign. */
  function TruncRem(a: int, b: int): int
    requires b != 0
  {
    a - b * TruncDiv(a, b)
  }

  lemma TruncDivCorrect(a: int, b: int)
    requires b != 0
    ensures IsTruncQuotient(a, b, TruncDiv(a, b))
  {
    var q := TruncDiv(a, b);
    if a >= 0 && b > 0 {
      assert a == b * (a / b) + a % b;
    } else if a >= 0 {
      assert a == (-b) * (a / -b) + a % -b;
      assert a - b * q == a % -b;
    } else if b > 0 {
      assert -a == b * (-a / b) + (-a) % b;
      assert a - b * q == -((-a) % b);
    } else {
      assert -a == (-b) * (-a / -b) + (-a) % -b;
      assert a - b * q == -((-a) % -b);
    }
  }

  /** There is only one truncated quotient, so `IsTruncQuotient` pins the result down. */
  lemma TruncQuotientUnique(a: int, b: int, q1: int, q2: int)
    requires IsTruncQuotient(a, b, q1) && IsTruncQuotient(a, b, q2)
    ensures q1 == q2
  {
    var r1, r2 := a - b * q1, a - b * q2;
    assert r1 - r2 == b * (q2 - q1);
    assert Abs(r1 - r2) < Abs(b);
    if q1 != q2 {
      MulAtLeast(b, q2 - q1);
    }
  }

  lemma MulAtLeast(b: int, d: int)
    requires d != 0
    ensures Abs(b * d) >= Abs(b)
  {
    MulMonotone(Abs(b), 1, Abs(d));
    AbsMul(b, d);
  }

  lemma AbsMul(b: int, d: int)
    ensures Abs(b * d) == Abs(b) * Abs(d)
  {
    if b < 0 && d < 0 {
      assert b * d == (-b) * (-d);
    } else if b < 0 {
      assert b * d == -((-b) * d);
    } else if d < 0 {
      assert b * d == -(b * (-d));
    }
  }

  /** Multiplication by a natural number is monotone. */
  lemma {:induction false} MulMonotone(x: nat, y: nat, z: nat)
    requires y <= z
    ensures x * y <= x * z
  {
    if x > 0 {
      MulMonotone(x - 1, y, z);
      assert x * y == (x - 1) * y + y;
      assert x * z == (x - 1) * z + z;
    }
  }

  /** The truncated quotient of two i32 values fits i32, except `I32_MIN / -1`. */
  lemma TruncDivInRange(a: int, b: int)
    requires InI32(a) && InI32(b) && b != 0 && !(a == I32_MIN && b == -1)
    ensures InI32(TruncDiv(a, b))
  {
    var q := TruncDiv(a, b);
    if a >= 0 && b > 0 {
      assert a / b <= a by { DivAtMost(a, b); }
    } else if a >= 0 {
      assert a / -b <= a by { DivAtMost(a, -b); }
    } else if b > 0 {
      assert -a / b <= -a by { DivAtMost(-a, b); }
    } else {
      assert -a / -b <= -a by { DivAtMost(-a, -b); }
      if b == -1 {
        assert q == -a;
      } else {
        assert -a / -b <= -a / 2 by { DivAntitone(-a, 2, -b); }
      }
    }
  }

  lemma DivAtMost(n: nat, d: int)
    requires d > 0
    ensures n / d <= n
  {
    var q := n / d;
    assert n == d * q + n % d;
    MulMonotone(q, 1, d);
  }

  lemma DivAntitone(n: nat, d1: int, d2: int)
    requires 0 < d1 <= d2
    ensures n / d2 <= n / d1
  {
    var q1: nat, q2: nat := n / d1, n / d2;
    assert n == d1 * q1 + n % d1 && n % d1 < d1;
    assert d1 * (q1 + 1) == d1 * q1 + d1;
    assert d2 * q2 <= n;
    MulMonotone(q2, d1, d2);
    assert d1 * q2 < d1 * (q1 + 1);
    MulCancel(d1, q2, q1 + 1);
  }

  /** A positive factor can be cancelled from a strict inequality. */
  lemma MulCancel(x: nat, y: nat, z: nat)
    requires x * y < x * z
    ensures y < z
  {
    if z <= y {
      MulMonotone(x, z, y);
    }
  }

  /** `Value::add`: Integer + Integer (overflow-checked) or Float + Float; nothing else. */
  function Add(a: Value, b: Value): (r: Result<Value>)
    ensures BothInteger(a, b) && InI32(a.i + b.i) ==> r == Ok(Integer(a.i + b.i))
    ensures BothInteger(a, b) && !InI32(a.i + b.i) ==> r == Err(Panic("attempt to add with overflow"))
    ensures BothFloat(a, b) ==> r == Ok(Float)
    ensures !BothInteger(a, b) && !BothFloat(a, b) ==> r == Err(Message("Type mismatch for Add"))
  {
    match (a, b)
    case (Integer(x), Integer(y)) => Checked(x + y, "attempt to add with overflow")
    case (Float, Float) => Ok(Float)
    case _ => Err(Message("Type mismatch for Add"))
  }

  /** `Value::sub`. */
  function Sub(a: Value, b: Value): (r: Result<Value>)
    ensures BothInteger(a, b) && InI32(a.i - b.i) ==> r == Ok(Integer(a.i - b.i))
    ensures BothInteger(a, b) && !InI32(a.i - b.i) ==> r == Err(Panic("attempt to subtract with overflow"))
    ensures BothFloat(a, b) ==> r == Ok(Float)
    ensures !BothInteger(a, b) && !BothFloat(a, b) ==> r == Err(Message("Type mismatch for Sub"))
  {
    match (a, b)
    case (Integer(x), Integer(y)) => Checked(x - y, "attempt to subtract with overflow")
    case (Float, Float) => Ok(Float)
    case _ => Err(Message("Type mismatch for Sub"))
  }

  /** `Value::mul`. */
  function Mul(a: Value, b: Value): (r: Result<Value>)
    ensures BothInteger(a, b) && InI32(a.i * b.i) ==> r == Ok(Integer(a.i * b.i))
    ensures BothInteger(a, b) && !InI32(a.i * b.i) ==> r == Err(Panic("attempt to multiply with overflow"))
    ensures BothFloat(a, b) ==> r == Ok(Float)
    ensures !BothInteger(a, b) && !BothFloat(a, b) ==> r == Err(Message("Type mismatch for Mul"))
  {
    match (a, b)
    case (Integer(x), Integer(y)) => Checked(x * y, "attempt to multiply with overflow")
    case (Float, Float) => Ok(Float)
    case _ => Err(Message("Type mismatch for Mul"))
  }

  /** `Value::div`: a zero Integer divisor is an error value; otherwise the quotient
      rounds toward zero, and `I32_MIN / -1` overflows. */
  function Div(a: Value, b: Value): (r: Result<Value>)
    ensures BothInteger(a, b) && b.i == 0 ==> r == Err(Message("Division by zero"))
    ensures BothInteger(a, b) && b.i != 0 && !(a.i == I32_MIN && b.i == -1) ==>
              r.Ok? && r.value.Integer? && IsTruncQuotient(a.i, b.i, r.value.i)
    ensures BothInteger(a, b) && a.i == I32_MIN && b.i == -1 ==> r == Err(Panic("attempt to divide with overflow"))
    ensures BothFloat(a, b) ==> r == Ok(Float)
    ensures !BothInteger(a, b) && !BothFloat(a, b) ==> r == Err(Message("Type mismatch for Div"))
  {
    match (a, b)
    case (Integer(x), Integer(y)) =>
      if y == 0 then Err(Message("Division by zero"))
      else if x == I32_MIN && y == -1 then Err(Panic("attempt to divide with overflow"))
      else
        TruncDivCorrect(x, y);
        TruncDivInRange(x, y);
        Ok(Integer(TruncDiv(x, y)))
    case (Float, Float) => Ok(Float)
    case _ => Err(Message("Type mismatch for Div"))
  }

  /** Integer addition and multiplication do not depend on operand order. */
  lemma AddMulCommutative(a: Value, b: Value)
    ensures Add(a, b) == Add(b, a)
    ensures Mul(a, b) == Mul(b, a)
  {
  }

  /** The four operations succeed or overflow only on two Integers or two Floats:
      there is no Integer-to-Float promotion, and Boolean, Reference and Null
      operands are always a type mismatch. */
  lemma ArithmeticNeedsMatchingNumbers(a: Value, b: Value)
    ensures Add(a, b) == Err(Message("Type mismatch for Add")) <==> !BothInteger(a, b) && !BothFloat(a, b)
    ensures Sub(a, b) == Err(Message("Type mismatch for Sub")) <==> !BothInteger(a, b) && !BothFloat(a, b)
    ensures Mul(a, b) == Err(Message("Type mismatch for Mul")) <==> !BothInteger(a, b) && !BothFloat(a, b)
    ensures Div(a, b) == Err(Message("Type mismatch for Div")) <==> !BothInteger(a, b) && !BothFloat(a, b)
  {
  }
}
