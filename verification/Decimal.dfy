/** Canonical decimal printing of natural numbers, and reading it back. A string is a sequence of bytes. */
module Decimal {
  import opened Wrappers

  const MAX_INT64: nat := 0x7FFF_FFFF_FFFF_FFFF

  predicate IsDigit(c: char) {
    '0' <= c <= '9'
  }

  predicate AllDigits(s: string) {
    forall i | 0 <= i < |s| :: IsDigit(s[i])
  }

  function DigitOf(d: nat): (c: char)
    requires d < 10
    ensures IsDigit(c) && ValueOfDigit(c) == d
  {
    (('0' as int) + d) as char
  }

  function ValueOfDigit(c: char): nat
    requires IsDigit(c)
  {
    (c as int) - ('0' as int)
  }

  function Print(n: nat): string {
    if n < 10 then [DigitOf(n)] else Print(n / 10) + [DigitOf(n % 10)]
  }

  function Read(s: string): nat
    requires AllDigits(s)
  {
    if s == "" then 0 else 10 * Read(s[..|s| - 1]) + ValueOfDigit(s[|s| - 1])
  }

  /** The digits of a number, last one first. */
  lemma PrintedDigits(n: nat)
    ensures var s := Print(n);
      && |s| >= 1 && '0' <= s[|s| - 1] <= '9' && s[|s| - 1] as int == '0' as int + n % 10
      && s[..|s| - 1] == if n < 10 then "" else Print(n / 10)
  {
  }

  /** Reading undoes printing, and a printed positive number has no leading zero. */
  lemma {:induction false} ReadPrint(n: nat)
    ensures |Print(n)| >= 1 && AllDigits(Print(n)) && Read(Print(n)) == n
    ensures n > 0 ==> Print(n)[0] != '0'
  {
    if n >= 10 {
      ReadPrint(n / 10);
      assert Print(n)[..|Print(n)| - 1] == Print(n / 10);
    } else {
      assert Print(n)[..0] == "";
    }
  }

  /** Printing undoes reading on digits without a leading zero. */
  lemma {:induction false} PrintRead(s: string)
    requires s != "" && AllDigits(s) && s[0] != '0'
    ensures Read(s) > 0 && Print(Read(s)) == s
  {
    var front := s[..|s| - 1];
    if front == "" {
      assert s == [s[0]];
    } else {
      PrintRead(front);
      assert s == front + [s[|s| - 1]];
    }
  }

  /** `strconv.ParseInt` on a nonempty string of digits: the value, unless it overflows 64 bits. */
  function ParseDigits(s: string): Option<nat>
    requires AllDigits(s)
  {
    if Read(s) <= MAX_INT64 then Some(Read(s)) else None
  }

  /** The identifier that a raw string denotes, by the scan and the checks of ParsePositiveID. */
  function PositiveId(raw: string): Option<nat> {
    if raw == "" || !('1' <= raw[0] <= '9') || !AllDigits(raw) then None
    else
      match ParseDigits(raw)
      case None => None
      case Some(value) => if value == 0 || Print(value) != raw then None else Some(value)
  }

  /** Exactly the canonical printings of 1 .. 2^63 - 1 are accepted, and each denotes its number. */
  lemma PositiveIdIsCanonical(raw: string, n: nat)
    ensures PositiveId(raw) == Some(n) <==> 1 <= n <= MAX_INT64 && raw == Print(n)
  {
    ReadPrint(n);
    if raw != "" && '1' <= raw[0] <= '9' && AllDigits(raw) {
      PrintRead(raw);
    }
  }

  /** The scan over the raw bytes, followed by the conversion and the comparison with its reprint. */
  method ParsePositiveId(raw: string) returns (r: Option<nat>)
    ensures r == PositiveId(raw)
    ensures forall n: nat :: r == Some(n) <==> 1 <= n <= MAX_INT64 && raw == Print(n)
  {
    forall n: nat
      ensures PositiveId(raw) == Some(n) <==> 1 <= n <= MAX_INT64 && raw == Print(n)
    {
      PositiveIdIsCanonical(raw, n);
    }
    if raw == "" || raw[0] < '1' || raw[0] > '9' {
      return None;
    }
    var i := 1;
    while i < |raw|
      invariant 1 <= i <= |raw|
      invariant forall k | 0 <= k < i :: IsDigit(raw[k])
    {
      if raw[i] < '0' || raw[i] > '9' {
        return None;
      }
      i := i + 1;
    }
    var value := ParseDigits(raw);
    if value.None? || value.value == 0 || Print(value.value) != raw {
      return None;
    }
    return value;
  }

  /** Appends the decimal digits of `value`. */
  method AppendInt(destination: string, value: nat) returns (r: string)
    ensures r == destination + Print(value)
    decreases value
  {
    r := destination;
    if value >= 10 {
      r := AppendInt(r, value / 10);
    }
    r := r + [DigitOf(value % 10)];
  }
}
