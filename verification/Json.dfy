/** JSON values as Python reads them back, and the conversions that the verifiers apply to them. */
module Json {
  import opened Wrappers

  /** Python's reader also takes Infinity and NaN. Nothing here looks inside an array or an object. */
  datatype Json =
    | Null | Bool(b: bool) | Int(n: int) | Real(r: real) | Infinite | NotANumber | Text(text: string) | Compound

  // ----- int()

  /** What int() makes of a value: a number, an exception that the verifiers catch, or one that they do not. */
  datatype Conversion = Number(n: int) | Caught | Uncaught

  /** int() of a finite float cuts off what follows the point. */
  function Truncated(r: real): int {
    if r >= 0.0 then r.Floor else -(-r).Floor
  }

  /** Towards zero, by less than one, and a whole number is kept. */
  lemma {:induction false} TruncatedIs(r: real)
    ensures if r >= 0.0 then 0 <= Truncated(r) && r - 1.0 < Truncated(r) as real <= r
      else Truncated(r) <= 0 && r <= Truncated(r) as real < r + 1.0
    ensures Truncated(r) as real == r <==> r == r.Floor as real
  {
    if r < 0.0 && r == r.Floor as real {
      assert -r == (-r.Floor) as real;
    }
  }

  /** int(receipt[key]): `numeral` is what int() reads from a text, if anything. Infinity alone overflows. */
  function IntOf(value: Option<Json>, numeral: string -> Option<int>): Conversion {
    match value
    case Some(Int(n)) => Number(n)
    case Some(Bool(b)) => Number(if b then 1 else 0)
    case Some(Real(r)) => Number(Truncated(r))
    case Some(Text(text)) => if numeral(text).Some? then Number(numeral(text).value) else Caught
    case Some(Infinite) => Uncaught
    case _ => Caught
  }

  /** receipt.get(key) == n: a float or a boolean of that value is equal to the integer, a text is not. */
  predicate EqualsInt(value: Option<Json>, n: int) {
    match value
    case Some(Int(m)) => m == n
    case Some(Bool(b)) => n == if b then 1 else 0
    case Some(Real(r)) => r == n as real
    case _ => false
  }

  lemma {:induction false} EqualConverts(value: Option<Json>, n: int, numeral: string -> Option<int>)
    requires EqualsInt(value, n)
    ensures IntOf(value, numeral) == Number(n)
  {
    if n < 0 {
      assert -(n as real) == (-n) as real;
    }
  }

  // ----- str()

  function Digits(n: nat): (text: string)
    ensures text != ""
  {
    var last := ['0' + (n % 10) as char];
    if n < 10 then last else Digits(n / 10) + last
  }

  /** str() of an integer */
  function Decimal(n: int): string {
    if n >= 0 then Digits(n) else "-" + Digits(-n)
  }

  predicate IsDigit(c: char) {
    '0' <= c <= '9'
  }

  /** The number that decimal digits stand for. */
  function ValueOf(text: string): int {
    if text == "" then 0 else 10 * ValueOf(text[..|text| - 1]) + (text[|text| - 1] as int - '0' as int)
  }

  /** Decimal digits alone, without a leading zero, that stand for the number. */
  lemma {:induction false} DigitsSpell(n: nat)
    ensures ValueOf(Digits(n)) == n
    ensures forall i | 0 <= i < |Digits(n)| :: IsDigit(Digits(n)[i])
    ensures Digits(n)[0] == '0' ==> n == 0 && |Digits(n)| == 1
  {
    LastDigit(n % 10);
    if n >= 10 {
      DigitsSpell(n / 10);
      var text := Digits(n);
      assert text[..|text| - 1] == Digits(n / 10);
    }
  }

  lemma {:induction false} LastDigit(d: nat)
    requires d < 10
    ensures ValueOf(['0' + d as char]) == d && IsDigit('0' + d as char) && ('0' + d as char == '0' ==> d == 0)
  {
    assert ['0' + d as char][..0] == "";
  }

  /** str() of an integer is its digits, after a minus sign when it is negative. */
  lemma {:induction false} DecimalSpells(n: int)
    ensures if n >= 0 then ValueOf(Decimal(n)) == n
      else Decimal(n)[0] == '-' && ValueOf(Decimal(n)[1..]) == -n
    ensures forall i | (if n < 0 then 1 else 0) <= i < |Decimal(n)| :: IsDigit(Decimal(n)[i])
  {
    hide ValueOf, IsDigit, Digits;
    DigitsSpell(if n >= 0 then n else -n);
  }

  /** str(receipt[key]) where it may be hexadecimal. The text of any other value has a character that is neither a
      hexadecimal digit nor white space: a letter of None, True, inf or nan, a point or a plus sign, a bracket. */
  function TextOf(value: Option<Json>): Option<string> {
    match value
    case Some(Text(text)) => Some(text)
    case Some(Int(n)) => Some(Decimal(n))
    case _ => None
  }
}
