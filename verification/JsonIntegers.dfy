/** Integers as the numbers of a value: printed in decimals, as `%.f` prints a whole number, and read back. */
module JsonIntegers {
  import opened Options
  import opened Json
  import opened JsonRoundTrip

  function Digit(d: nat): char
    requires d < 10
  {
    (d + '0' as int) as char
  }

  function Decimals(n: nat): string {
    if n < 10 then [Digit(n)] else Decimals(n / 10) + [Digit(n % 10)]
  }

  function Show(n: int): string {
    if n < 0 then "-" + Decimals(-n) else Decimals(n)
  }

  predicate AllDigits(s: string) {
    |s| > 0 && forall i :: 0 <= i < |s| ==> '0' <= s[i] <= '9'
  }

  /** The number that the decimals denote: ten times that of all but the last, plus the last. */
  function NumberOf(s: string): nat
    requires AllDigits(s)
  {
    var last := s[|s| - 1] as int - '0' as int;
    if |s| == 1 then last else 10 * NumberOf(s[..|s| - 1]) + last
  }

  function Read(s: string): Option<int> {
    if AllDigits(s) then Some(NumberOf(s))
    else if |s| > 0 && s[0] == '-' && AllDigits(s[1..]) then Some(0 - NumberOf(s[1..]))
    else None
  }

  function Integers(): Numbers<int> {
    Numbers(Show, Read)
  }

  lemma {:induction false} DecimalsDenote(n: nat)
    ensures AllDigits(Decimals(n)) && NumberOf(Decimals(n)) == n
  {
    if n >= 10 {
      DecimalsDenote(n / 10);
      var s := Decimals(n);
      assert s[..|s| - 1] == Decimals(n / 10);
    }
  }

  lemma {:induction false} DigitsAreNumeric(s: string)
    requires forall i :: 0 <= i < |s| ==> IsNumeric(s[i])
    ensures NumericLength(s) == |s|
  {
    if |s| > 0 {
      DigitsAreNumeric(s[1..]);
    }
  }

  lemma IntegerPrintsBack(n: int)
    ensures PrintsBack(Integers(), n)
  {
    hide NumericLength, Decimals;
    var m := if n < 0 then -n else n;
    DecimalsDenote(m);
    var t := Show(n);
    if n < 0 {
      assert t[1..] == Decimals(m);
    }
    DigitsAreNumeric(t);
    assert SkipSpace(t) == t;
  }

  lemma {:induction false} IntegersArePrintable(v: Value<int>)
    ensures Printable(Integers(), v)
  {
    hide PrintsBack;
    match v
    case Num(n) => IntegerPrintsBack(n);
    case Arr(items) =>
      forall i | 0 <= i < |items|
        ensures Printable(Integers(), items[i])
      {
        IntegersArePrintable(items[i]);
      }
    case Obj(members) =>
      forall i | 0 <= i < |members|
        ensures Printable(Integers(), members[i].value)
      {
        IntegersArePrintable(members[i].value);
      }
    case _ =>
  }

  /** Every tree whose numbers are integers comes back from its text. */
  lemma IntegerTreesComeBack(v: Value<int>)
    requires WellFormed(v)
    ensures Parse(Integers(), Serialize(Integers(), v)) == Parsed(v, "")
  {
    hide Parse, Serialize, Printable, WellFormed;
    IntegersArePrintable(v);
    RoundTrip(Integers(), v);
  }
}
