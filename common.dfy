/** Values shared by every service: optional values, the exceptions a service
    call can end in, JavaScript truthiness of optional inputs, and the decimal
    rendering of a number inside a template string. */
module Common {

  datatype Option<+T> = None | Some(value: T)

  /** The kind of NestJS HttpException a service throws itself. */
  datatype HttpKind = BadRequest | Unauthorized | Forbidden | NotFound

  /** How a service call can fail: an exception the service throws, a known
      request error raised by the database client (identified by its code,
      e.g. "P2002"), or any other error, which nobody classifies. */
  datatype Failure = Http(kind: HttpKind) | PrismaKnown(code: string) | Unexpected

  datatype Result<+T> = Ok(value: T) | Err(failure: Failure)

  /** Prisma error codes the model raises from the store. */
  const UNIQUE_VIOLATION: string := "P2002"
  const FOREIGN_KEY_VIOLATION: string := "P2003"
  const RECORD_NOT_FOUND: string := "P2025"

  /** `if (s)` on an optional string: undefined and "" are falsy. */
  predicate Supplied(s: Option<string>) {
    s.Some? && s.value != ""
  }

  /** `if (id)` on an optional number: undefined and 0 are falsy. */
  predicate PresentId(id: Option<int>) {
    id.Some? && id.value != 0
  }

  function DigitChar(d: nat): (c: char)
    requires d < 10
    ensures '0' <= c <= '9' && DigitValue(c) == d
  {
    ('0' as int + d) as char
  }

  function DigitValue(c: char): nat
    requires '0' <= c <= '9'
  {
    c as int - '0' as int
  }

  /** The number a string of decimal digits denotes, most significant digit first. */
  function DigitsValue(s: string): nat
    requires forall i :: 0 <= i < |s| ==> '0' <= s[i] <= '9'
  {
    if s == [] then 0 else DigitsValue(s[..|s| - 1]) * 10 + DigitValue(s[|s| - 1])
  }

  /** `${n}` for a non-negative integer: its decimal digits, most significant
      first, which denote `n` itself. */
  function Decimal(n: nat): (s: string)
    ensures 1 <= |s|
    ensures forall i :: 0 <= i < |s| ==> '0' <= s[i] <= '9'
    ensures DigitsValue(s) == n
    ensures n < 10 <==> |s| == 1
  {
    if n < 10 then [DigitChar(n)]
    else
      var s := Decimal(n / 10) + [DigitChar(n % 10)];
      assert s[..|s| - 1] == Decimal(n / 10);
      s
  }

  /** Different numbers are rendered differently. */
  lemma DecimalInjective(a: nat, b: nat)
    requires a != b
    ensures Decimal(a) != Decimal(b)
  {
    assert DigitsValue(Decimal(a)) != DigitsValue(Decimal(b));
  }
}
