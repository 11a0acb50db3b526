/** Decimal numerals. */
module Numerals {
  import opened Options

  function Digit(d: nat): char
    requires d < 10
  {
    "0123456789"[d]
  }

  function Decimal(n: nat): (s: string)
    ensures |s| > 0
  {
    if n < 10 then [Digit(n)] else Decimal(n / 10) + [Digit(n % 10)]
  }

  lemma {:induction false} DecimalIsInjective(m: nat, n: nat)
    ensures Decimal(m) == Decimal(n) ==> m == n
  {
    if Decimal(m) == Decimal(n) {
      var a, b := Decimal(m), Decimal(n);
      assert a[|a| - 1] == Digit(m % 10) && b[|b| - 1] == Digit(n % 10);
      if m >= 10 && n >= 10 {
        assert a[..|a| - 1] == Decimal(m / 10) && b[..|b| - 1] == Decimal(n / 10);
        DecimalIsInjective(m / 10, n / 10);
      }
    }
  }

  function Value(c: char): Option<nat> {
    if '0' <= c <= '9' then Some(c as int - '0' as int) else None
  }

  /** The number a non-empty string of digits denotes. */
  function Parse(s: string): Option<nat> {
    if s == "" then None
    else
      var last := Value(s[|s| - 1]);
      if last.None? then None
      else if |s| == 1 then last
      else
        var front := Parse(s[..|s| - 1]);
        if front.None? then None else Some(10 * front.value + last.value)
  }

  /** strconv.Atoi below the range of int64. */
  function Atoi(s: string): Option<int> {
    if s != "" && (s[0] == '-' || s[0] == '+') then Signed(Parse(s[1..]), s[0] == '-') else Signed(Parse(s), false)
  }

  function Signed(n: Option<nat>, negative: bool): Option<int> {
    match n
    case None => None
    case Some(v) => if negative then Some(0 - v as int) else Some(v as int)
  }

  lemma DigitReads(d: nat)
    requires d < 10
    ensures '0' <= Digit(d) <= '9' && Value(Digit(d)) == Some(d)
  {
  }

  lemma {:induction false} ParseUndoesDecimal(n: nat)
    ensures Parse(Decimal(n)) == Some(n)
    ensures forall i :: 0 <= i < |Decimal(n)| ==> '0' <= Decimal(n)[i] <= '9'
  {
    hide Digit, Value;
    DigitReads(n % 10);
    if n < 10 {
      assert Decimal(n) == [Digit(n)];
    } else {
      ParseUndoesDecimal(n / 10);
      var s, front := Decimal(n), Decimal(n / 10);
      assert s == front + [Digit(n % 10)];
      assert s[..|s| - 1] == front;
    }
  }
}
