/** Hexadecimal text and the integers it stands for, as big.Int reads and prints it. */
module Hex {
  import opened Types

  const DIGITS := "0123456789abcdef"

  function DigitValue(ch: char): (r: Option<nat>)
    ensures r.Some? ==> r.value < 16
  {
    if '0' <= ch <= '9' then Some(ch as int - '0' as int)
    else if 'a' <= ch <= 'f' then Some(ch as int - 'a' as int + 10)
    else if 'A' <= ch <= 'F' then Some(ch as int - 'A' as int + 10)
    else None
  }

  /** The value of a run of digits, and no value for anything else. */
  function ParseDigits(s: string): Option<nat> {
    if s == "" then Some(0) else
    match (ParseDigits(s[..|s| - 1]), DigitValue(s[|s| - 1]))
    case (Some(high), Some(low)) => Some(16 * high + low)
    case _ => None
  }

  /** An optional sign and at least one digit. */
  function Parse(s: string): Option<int> {
    if s == "" then None
    else if s[0] == '-' || s[0] == '+' then
      if |s| == 1 then None else
      match ParseDigits(s[1..])
      case Some(n) =>
        var magnitude: int := n;
        Some(if s[0] == '-' then -magnitude else magnitude)
      case None => None
    else
      match ParseDigits(s)
      case Some(n) => Some(n)
      case None => None
  }

  function FormatNat(n: nat): (s: string)
    ensures s != ""
  {
    if n < 16 then [DIGITS[n]] else FormatNat(n / 16) + [DIGITS[n % 16]]
  }

  function Format(n: int): string {
    if n < 0 then "-" + FormatNat(-n) else FormatNat(n)
  }

  lemma DigitRoundTrip(d: nat)
    requires d < 16
    ensures DigitValue(DIGITS[d]) == Some(d)
  {
  }

  lemma {:induction false} NatRoundTrip(n: nat)
    ensures ParseDigits(FormatNat(n)) == Some(n)
    ensures FormatNat(n)[0] != '-' && FormatNat(n)[0] != '+'
  {
    var s := FormatNat(n);
    DigitRoundTrip(n % 16);
    if n < 16 {
      assert s[..|s| - 1] == "";
    } else {
      NatRoundTrip(n / 16);
      assert s[..|s| - 1] == FormatNat(n / 16);
    }
  }

  /** A difficulty that is printed into a header is read back as the same number. */
  lemma RoundTrip(n: int)
    ensures Parse(Format(n)) == Some(n)
  {
    hide ParseDigits, FormatNat;
    if n < 0 {
      var digits := FormatNat(-n);
      NatRoundTrip(-n);
      assert Format(n) == "-" + digits;
      assert Format(n)[0] == '-' && Format(n)[1..] == digits;
    } else {
      NatRoundTrip(n);
    }
  }

  /** A digit in front counts for sixteen to the number of digits behind it. */
  lemma {:induction false} Positional(n: nat)
    ensures n < 16 ==> FormatNat(n) == [DIGITS[n]]
    ensures n >= 16 ==> FormatNat(n) == FormatNat(n / 16) + [DIGITS[n % 16]]
  {
  }

  /** The notation, by examples: base sixteen, lower case, a sign in front, either case read. */
  lemma Notation()
    ensures Format(0) == "0" && Format(255) == "ff" && Format(4096) == "1000" && Format(-26) == "-1a"
    ensures Parse("FF") == Some(255) && Parse("-1a") == Some(-26) && Parse("+a") == Some(10)
    ensures Parse("") == None && Parse("-") == None && Parse("1g") == None
  {
    hide FormatNat, ParseDigits;
    Positional(0);
    Positional(255);
    Positional(15);
    Positional(4096);
    Positional(256);
    Positional(16);
    Positional(1);
    Positional(26);
    ReadTwo("FF");
    ReadTwo("1a");
    ReadTwo("a");
    ReadTwo("1g");
    assert "-1a"[1..] == "1a" && "+a"[1..] == "a";
  }

  lemma {:induction false} ReadTwo(s: string)
    requires 1 <= |s| <= 2
    ensures |s| == 1 && DigitValue(s[0]).Some? ==> ParseDigits(s) == Some(DigitValue(s[0]).value)
    ensures |s| == 2 && DigitValue(s[0]).Some? && DigitValue(s[1]).Some? ==>
      ParseDigits(s) == Some(16 * DigitValue(s[0]).value + DigitValue(s[1]).value)
    ensures DigitValue(s[|s| - 1]).None? ==> ParseDigits(s) == None
  {
    if |s| == 1 {
      assert s[..0] == "";
    } else {
      ReadTwo(s[..1]);
    }
  }

  /** What big.Int holds after reading `s`. */
  function BigOf(c: Crypto, s: string): int {
    match Parse(s)
    case Some(n) => n
    case None => c.undefinedBig(s)
  }
}
