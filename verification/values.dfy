/** JavaScript values as they reach the rule predicates: event attributes,
    scope bindings and stored variables. Only the primitive values are
    modelled; objects, arrays, fractional numbers and integers beyond the
    safe-integer range are not. */
module Values {

  datatype Option<T> = None | Some(value: T)

  /** `Number.MAX_SAFE_INTEGER`, 2^53 - 1. */
  const MaxSafeInteger: int := 0x1F_FFFF_FFFF_FFFF

  /** The integers a JavaScript number holds exactly. Each is below 1e21, so
      `String` writes it as plain decimal digits, with no exponent. */
  type SafeInt = n: int | -MaxSafeInteger <= n <= MaxSafeInteger

  datatype Value = Undefined | Null | Bool(b: bool) | Num(n: SafeInt) | Str(s: string)

  /** A per-rule binding environment (`ctx.vars` / `ctx.scope`). */
  type Scope = map<string, Value>

  /** One inbound event; its channel and event ids are not read by the rules. */
  datatype Event = Event(domain: string, etype: string, attrs: map<string, Value>)

  /** `obj[k]` on a plain object: a missing key reads as `undefined`. */
  function Get(m: map<string, Value>, k: string): Value
  {
    if k in m then m[k] else Undefined
  }

  /** JavaScript truthiness. */
  predicate Truthy(v: Value)
  {
    match v
    case Undefined => false
    case Null => false
    case Bool(b) => b
    case Num(n) => n != 0
    case Str(s) => s != ""
  }

  /** `v || ''`: a falsy value is replaced by the empty string. */
  function OrEmpty(v: Value): Value
  {
    if Truthy(v) then v else Str("")
  }

  predicate IsDigit(c: char)
  {
    '0' <= c <= '9'
  }

  function DigitChar(d: nat): (c: char)
    requires d < 10
    ensures IsDigit(c)
  {
    "0123456789"[d]
  }

  /** The decimal numeral of a natural number, most significant digit first. */
  function NatDigits(n: nat): (r: string)
    ensures |r| > 0
    ensures forall i :: 0 <= i < |r| ==> IsDigit(r[i])
    ensures (n < 10) == (|r| == 1)
    decreases n
  {
    if n < 10 then [DigitChar(n)] else NatDigits(n / 10) + [DigitChar(n % 10)]
  }

  /** `String(v)`, the conversion `RegExp.prototype.exec` applies to its
      argument; a safe integer is written as its decimal numeral. */
  function ToJSString(v: Value): string
  {
    match v
    case Undefined => "undefined"
    case Null => "null"
    case Bool(b) => if b then "true" else "false"
    case Num(n) => if n < 0 then "-" + NatDigits(-n) else NatDigits(n)
    case Str(s) => s
  }

  function Pow10(k: nat): (r: nat)
    ensures r >= 1
  {
    if k == 0 then 1 else 10 * Pow10(k - 1)
  }

  /** A number below 10^k, k >= 1, has at most k digits. */
  lemma {:induction false} NatDigitsLength(n: nat, k: nat)
    requires 1 <= k && n < Pow10(k)
    ensures |NatDigits(n)| <= k
    decreases n
  {
    if n >= 10 {
      assert Pow10(k) == 10 * Pow10(k - 1);
      if k == 1 {
        assert false;
      }
      NatDigitsLength(n / 10, k - 1);
    }
  }

  /** A safe integer's numeral has at most 16 digits, well under the 21 at
      which `Number.prototype.toString` switches to exponent form; so the
      plain numeral `ToJSString` writes is the one JavaScript writes. */
  lemma SafeNumeralIsShort(n: SafeInt)
    ensures |NatDigits(if n < 0 then -n else n)| <= 16
  {
    assert Pow10(8) == 100_000_000;
    assert Pow10(16) == 10_000_000_000_000_000;
    NatDigitsLength(if n < 0 then -n else n, 16);
  }
}
