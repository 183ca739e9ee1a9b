/**
 * Request bodies. A body field holds whatever JSON value the client sent,
 * or nothing at all; the validators and the service look at it through
 * JavaScript truthiness and through express-validator's conversion to text.
 */
module Requests {

  /** A JSON value in a body field; `Absent` is JavaScript's `undefined`. */
  datatype Field = Absent | Null | Str(s: string) | Num(n: int) | Bool(b: bool)

  /** The fields of a request body that the core reads. */
  datatype Body = Body(
    email: Field,
    password: Field,
    firstName: Field,
    lastName: Field,
    deviceId: Field,
    refreshToken: Field)

  /** JavaScript truthiness: `undefined`, `null`, `""`, `0` and `false` are falsy. */
  predicate Truthy(f: Field) {
    match f
    case Absent => false
    case Null => false
    case Str(s) => s != ""
    case Num(n) => n != 0
    case Bool(b) => b
  }

  /** express-validator's `exists()`: the field is not `undefined`. */
  predicate Exists(f: Field) {
    !f.Absent?
  }

  function Digit(d: nat): (c: char)
    requires d < 10
    ensures '0' <= c <= '9'
  {
    "0123456789"[d]
  }

  /** The decimal numeral of `n`. */
  function Decimal(n: nat): (s: string)
    ensures s != []
    ensures forall i :: 0 <= i < |s| ==> '0' <= s[i] <= '9'
  {
    if n < 10 then [Digit(n)] else Decimal(n / 10) + [Digit(n % 10)]
  }

  /**
   * The text express-validator's standard validators and sanitizers see:
   * `undefined` and `null` become the empty string, booleans and strings
   * their JavaScript `String(...)` form, and a number its exact decimal
   * digits. That is `String(n)` only for integers below 2^53 in magnitude.
   */
  function Render(f: Field): (t: string)
    ensures f.Str? ==> t == f.s
    ensures !f.Str? ==> forall i :: 0 <= i < |t| ==> !('A' <= t[i] <= 'Z')
  {
    match f
    case Absent => ""
    case Null => ""
    case Str(s) => s
    case Num(n) => if n < 0 then "-" + Decimal(-n) else Decimal(n)
    case Bool(b) => if b then "true" else "false"
  }
}
