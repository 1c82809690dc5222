/** The syntax check on timestamps before they are handed to the time library. */
module Rfc3339 {
  import opened Decimal

  /** `pattern` spells the shape of a text: 'd' stands for a digit, any other character for itself. */
  predicate HasShape(s: string, pattern: string) {
    && |s| == |pattern|
    && forall i | 0 <= i < |s| :: if pattern[i] == 'd' then IsDigit(s[i]) else s[i] == pattern[i]
  }

  function TwoDigitValue(a: char, b: char): nat
    requires IsDigit(a) && IsDigit(b)
  {
    10 * ValueOfDigit(a) + ValueOfDigit(b)
  }

  /** A time-offset of RFC 3339, section 5.6: "Z", or a sign with hours up to 23 and minutes up to 59. */
  predicate IsOffset(zone: string) {
    || zone == "Z"
    || ((HasShape(zone, "+dd:dd") || HasShape(zone, "-dd:dd"))
        && TwoDigitValue(zone[1], zone[2]) <= 23 && TwoDigitValue(zone[4], zone[5]) <= 59)
  }

  /** An optional time-secfrac: nothing, or a dot and at least one digit. */
  predicate IsFraction(s: string) {
    s == "" || (|s| >= 2 && s[0] == '.' && AllDigits(s[1..]))
  }

  const DATE_TIME: string := "dddd-dd-ddTdd:dd:dd"

  /** The date-time of RFC 3339, section 5.6, with upper-case T and Z and without calendar ranges, cut
      after `cut` characters into fraction and offset. */
  predicate IsDateTimeCutAt(raw: string, cut: nat) {
    && 19 <= cut <= |raw|
    && HasShape(raw[..19], DATE_TIME) && IsFraction(raw[19..cut]) && IsOffset(raw[cut..])
  }

  ghost predicate IsDateTime(raw: string) {
    exists cut: nat :: IsDateTimeCutAt(raw, cut)
  }

  /** Subtraction and the like on bytes wrap around. */
  function ByteOf(x: int): int {
    x % 256
  }

  predicate TwoDigits(left: char, right: char) {
    IsDigit(left) && IsDigit(right)
  }

  /** The two-digit number as the byte arithmetic of the program computes it. */
  function ByteNumber(a: char, b: char): int {
    ByteOf(ByteOf(ByteOf(10 * ByteOf((a as int) - ('0' as int))) + (b as int)) - ('0' as int))
  }

  lemma ByteArithmeticDoesNotWrap(a: char, b: char)
    requires TwoDigits(a, b)
    ensures ByteNumber(a, b) == TwoDigitValue(a, b)
  {
    var x := ValueOfDigit(a);
    assert ByteOf((a as int) - ('0' as int)) == x;
    assert ByteOf(10 * x) == 10 * x;
    assert ByteOf(10 * x + (b as int)) == 10 * x + (b as int);
  }

  /** What a fraction that ends at `z` says about single characters. */
  lemma FractionCharacters(raw: string, z: nat)
    requires 19 <= z <= |raw| && IsFraction(raw[19..z])
    ensures z > 19 ==> z > 20 && raw[19] == '.' && forall i | 20 <= i < z :: IsDigit(raw[i])
  {
  }

  /** What a date-time says about single characters; its offset begins with neither a digit nor a dot. */
  lemma CutCharacters(raw: string, cut: nat)
    requires IsDateTimeCutAt(raw, cut)
    ensures cut < |raw| && !IsDigit(raw[cut]) && raw[cut] != '.'
    ensures forall i | 0 <= i < 19 :: if DATE_TIME[i] == 'd' then IsDigit(raw[i]) else raw[i] == DATE_TIME[i]
    ensures cut > 19 ==> cut > 20 && raw[19] == '.' && forall i | 20 <= i < cut :: IsDigit(raw[i])
  {
  }

  /** The offset begins where the fraction ends, so there is at most one way to cut. */
  lemma CutIsUnique(raw: string, a: nat, b: nat)
    requires IsDateTimeCutAt(raw, a) && IsDateTimeCutAt(raw, b)
    ensures a == b
  {
  }

  const DIGIT_POSITIONS := [0, 1, 2, 3, 5, 6, 8, 9, 11, 12, 14, 15, 17, 18]

  /** Checks the digits of the fixed positions. */
  method DigitsInPlace(raw: string) returns (ok: bool)
    requires |raw| >= 20
    ensures ok ==> forall j | 0 <= j < |DIGIT_POSITIONS| :: IsDigit(raw[DIGIT_POSITIONS[j]])
    ensures !ok ==> !IsDateTime(raw)
  {
    var k := 0;
    while k < |DIGIT_POSITIONS|
      invariant 0 <= k <= |DIGIT_POSITIONS|
      invariant forall j | 0 <= j < k :: IsDigit(raw[DIGIT_POSITIONS[j]])
    {
      if raw[DIGIT_POSITIONS[k]] < '0' || raw[DIGIT_POSITIONS[k]] > '9' {
        NotDigit(raw, k);
        return false;
      }
      k := k + 1;
    }
    return true;
  }

  /** Accepts exactly the date-times; every index that it uses is in range. */
  method ValidRfc3339Syntax(raw: string) returns (ok: bool)
    ensures ok <==> IsDateTime(raw)
  {
    if |raw| < 20 || raw[4] != '-' || raw[7] != '-' || raw[10] != 'T' || raw[13] != ':' || raw[16] != ':' {
      NotShaped(raw);
      return false;
    }
    var digits := DigitsInPlace(raw);
    if !digits {
      return false;
    }
    Shaped(raw);

    var zoneStart := 19;
    if raw[zoneStart] == '.' {
      zoneStart := zoneStart + 1;
      var fractionStart := zoneStart;
      while zoneStart < |raw| && '0' <= raw[zoneStart] <= '9'
        invariant fractionStart <= zoneStart <= |raw|
        invariant AllDigits(raw[fractionStart..zoneStart])
      {
        assert raw[fractionStart..zoneStart + 1] == raw[fractionStart..zoneStart] + [raw[zoneStart]];
        zoneStart := zoneStart + 1;
      }
      assert raw[19..zoneStart] == ['.'] + raw[fractionStart..zoneStart];
      if zoneStart == fractionStart {
        EmptyFraction(raw);
        return false;
      }
    }
    CutIsForced(raw, zoneStart);
    var zone := raw[zoneStart..];
    if zone == "Z" {
      return true;
    }
    if |zone| != 6 || (zone[0] != '+' && zone[0] != '-') || zone[3] != ':'
       || !TwoDigits(zone[1], zone[2]) || !TwoDigits(zone[4], zone[5]) {
      return false;
    }
    ByteArithmeticDoesNotWrap(zone[1], zone[2]);
    ByteArithmeticDoesNotWrap(zone[4], zone[5]);
    var hour := ByteNumber(zone[1], zone[2]);
    var minute := ByteNumber(zone[4], zone[5]);
    return hour <= 23 && minute <= 59;
  }

  lemma NotShaped(raw: string)
    requires |raw| < 20 || raw[4] != '-' || raw[7] != '-' || raw[10] != 'T' || raw[13] != ':' || raw[16] != ':'
    ensures !IsDateTime(raw)
  {
  }

  lemma NotDigit(raw: string, k: nat)
    requires |raw| >= 20 && k < |DIGIT_POSITIONS| && !IsDigit(raw[DIGIT_POSITIONS[k]])
    ensures !IsDateTime(raw)
  {
    assert DATE_TIME[DIGIT_POSITIONS[k]] == 'd';
    if cut: nat :| IsDateTimeCutAt(raw, cut) {
      CutCharacters(raw, cut);
    }
  }

  lemma Shaped(raw: string)
    requires |raw| >= 20 && raw[4] == '-' && raw[7] == '-' && raw[10] == 'T' && raw[13] == ':' && raw[16] == ':'
    requires forall j | 0 <= j < |DIGIT_POSITIONS| :: IsDigit(raw[DIGIT_POSITIONS[j]])
    ensures HasShape(raw[..19], DATE_TIME)
  {
    forall i | 0 <= i < 19
      ensures if DATE_TIME[i] == 'd' then IsDigit(raw[..19][i]) else raw[..19][i] == DATE_TIME[i]
    {
      assert raw[..19][i] == raw[i];
      if DATE_TIME[i] == 'd' {
        assert i in DIGIT_POSITIONS;
      }
    }
  }

  lemma EmptyFraction(raw: string)
    requires |raw| >= 20 && raw[19] == '.' && (|raw| == 20 || !IsDigit(raw[20]))
    ensures !IsDateTime(raw)
  {
  }

  /** Once the scan has passed the fraction, only the rest can make the text a date-time. */
  lemma CutIsForced(raw: string, zoneStart: nat)
    requires 19 <= zoneStart <= |raw| && |raw| >= 20 && HasShape(raw[..19], DATE_TIME)
    requires IsFraction(raw[19..zoneStart])
    requires zoneStart == 19 ==> raw[19] != '.'
    requires zoneStart > 19 && zoneStart < |raw| ==> !IsDigit(raw[zoneStart])
    ensures IsDateTime(raw) <==> IsOffset(raw[zoneStart..])
  {
    FractionCharacters(raw, zoneStart);
    if IsOffset(raw[zoneStart..]) {
      assert IsDateTimeCutAt(raw, zoneStart);
    }
    if cut: nat :| IsDateTimeCutAt(raw, cut) {
      CutCharacters(raw, cut);
      assert cut == zoneStart;
    }
  }

  /** The shape in single characters: the digits and separators of date and time, an optional fraction, and an
      offset of Z or up to 23:59 in either direction. */
  lemma DateTimeCharacters(raw: string, cut: nat)
    ensures IsDateTimeCutAt(raw, cut) <==>
      && 19 <= cut < |raw|
      && (forall i | 0 <= i < 19 ::
            match i
            case 4 | 7 => raw[i] == '-'
            case 10 => raw[i] == 'T'
            case 13 | 16 => raw[i] == ':'
            case _ => '0' <= raw[i] <= '9')
      && (cut > 19 ==> cut >= 21 && raw[19] == '.' && forall i | 20 <= i < cut :: '0' <= raw[i] <= '9')
      && (if raw[cut] == 'Z' then |raw| == cut + 1
          else
            && |raw| == cut + 6 && raw[cut] in "+-" && raw[cut + 3] == ':'
            && '0' <= raw[cut + 1] <= '2' && '0' <= raw[cut + 2] <= (if raw[cut + 1] == '2' then '3' else '9')
            && '0' <= raw[cut + 4] <= '5' && '0' <= raw[cut + 5] <= '9')
  {
  }
}
