/** Generation of numbered SQL placeholders, and the numbers that a reader of the text finds. */
module Placeholders {
  import opened Decimal

  const SEPARATOR: string := ", "

  function Placeholder(n: nat): string {
    ['$'] + Print(n)
  }

  /** The text "$start, $(start+1), ..." with `count` placeholders. */
  function PlaceholderText(start: nat, count: nat): string {
    if count == 0 then ""
    else if count == 1 then Placeholder(start)
    else PlaceholderText(start, count - 1) + SEPARATOR + Placeholder(start + count - 1)
  }

  /** Appends one placeholder after another to the text. */
  method GeneratePlaceholders(start: nat, count: nat) returns (text: string)
    ensures text == PlaceholderText(start, count)
  {
    text := "";
    var index := 0;
    while index < count
      invariant 0 <= index <= count
      invariant text == PlaceholderText(start, index)
    {
      if index > 0 {
        text := text + SEPARATOR;
      }
      ghost var before := text;
      text := text + ['$'];
      text := AppendInt(text, start + index);
      assert text == before + Placeholder(start + index);
      index := index + 1;
    }
  }

  /** The text letter by letter: "$5, $6, $7" for three from five on. */
  lemma PlaceholdersSpelled(start: nat, count: nat)
    ensures PlaceholderText(start, 0) == "" && PlaceholderText(start, 1) == "$" + Print(start)
    ensures count > 0 ==>
      PlaceholderText(start, count + 1) == PlaceholderText(start, count) + ", $" + Print(start + count)
  {
    assert ", " + (['$'] + Print(start + count)) == ", $" + Print(start + count);
  }

  /** The length of the run of digits that a text begins with. */
  function DigitRun(s: string): (n: nat)
    ensures n <= |s| && AllDigits(s[..n]) && (n < |s| ==> !IsDigit(s[n]))
  {
    if s == "" || !IsDigit(s[0]) then 0
    else
      var n := 1 + DigitRun(s[1..]);
      assert s[..n] == [s[0]] + s[1..][..n - 1];
      n
  }

  /** The placeholder numbers of a text, in order: what a database reads after each dollar sign. */
  function References(s: string): seq<nat>
    decreases |s|
  {
    if s == "" then []
    else if s[0] == '$' then
      var n := DigitRun(s[1..]);
      [Read(s[1..][..n])] + References(s[1 + n..])
    else References(s[1..])
  }

  function Range(start: nat, count: nat): seq<nat> {
    seq(count, i requires 0 <= i < count => start + i)
  }

  predicate StartsNonDigit(s: string) {
    s == "" || !IsDigit(s[0])
  }

  lemma {:induction false} DigitRunOf(digits: string, tail: string)
    requires AllDigits(digits) && StartsNonDigit(tail)
    ensures DigitRun(digits + tail) == |digits|
  {
    if digits != "" {
      assert (digits + tail)[1..] == digits[1..] + tail;
      DigitRunOf(digits[1..], tail);
    } else {
      assert digits + tail == tail;
    }
  }

  lemma ReferencesOfOne(n: nat, tail: string)
    requires StartsNonDigit(tail)
    ensures References(Placeholder(n) + tail) == [n] + References(tail)
  {
    var s := Placeholder(n) + tail;
    ReadPrint(n);
    assert s[1..] == Print(n) + tail;
    DigitRunOf(Print(n), tail);
    assert s[1..][..|Print(n)|] == Print(n);
    assert s[1 + |Print(n)|..] == tail;
  }

  /** Text without a dollar sign in front does not change what is read. */
  lemma {:induction false} ReferencesSkip(plain: string, tail: string)
    requires '$' !in plain
    ensures References(plain + tail) == References(tail)
  {
    if plain == "" {
      assert plain + tail == tail;
    } else {
      assert (plain + tail)[1..] == plain[1..] + tail;
      assert plain[0] in plain && forall c <- plain[1..] :: c in plain;
      ReferencesSkip(plain[1..], tail);
    }
  }

  lemma Regroup(a: string, b: string, c: string, d: string)
    ensures a + b + c + d == a + (b + (c + d))
  {
  }

  lemma RangeSplit(start: nat, n: nat, m: nat)
    ensures Range(start, n + m) == Range(start, n) + Range(start + n, m)
  {
  }

  /** Reading a generated list, with any text after it, yields consecutive numbers. */
  lemma {:induction false} ReferencesOfList(start: nat, count: nat, tail: string)
    requires StartsNonDigit(tail)
    ensures References(PlaceholderText(start, count) + tail) == Range(start, count) + References(tail)
    decreases count
  {
    if count == 0 {
      assert PlaceholderText(start, count) + tail == tail;
    } else if count == 1 {
      ReferencesOfOne(start, tail);
      assert Range(start, 1) == [start];
    } else {
      var front, last := PlaceholderText(start, count - 1), Placeholder(start + count - 1);
      Regroup(front, SEPARATOR, last, tail);
      ReferencesOfList(start, count - 1, SEPARATOR + (last + tail));
      ReferencesOfSeparated(start + count - 1, tail);
      RangeSplit(start, count - 1, 1);
      ReferencesAssociate(Range(start, count - 1), start + count - 1, References(tail));
    }
  }

  lemma ReferencesOfSeparated(n: nat, tail: string)
    requires StartsNonDigit(tail)
    ensures References(SEPARATOR + (Placeholder(n) + tail)) == [n] + References(tail)
  {
    ReferencesSkip(SEPARATOR, Placeholder(n) + tail);
    ReferencesOfOne(n, tail);
  }

  lemma ReferencesAssociate(front: seq<nat>, n: nat, rest: seq<nat>)
    ensures front + ([n] + rest) == front + Range(n, 1) + rest
  {
  }

  lemma ListInText(prefix: string, start: nat, count: nat, suffix: string)
    requires '$' !in prefix && StartsNonDigit(suffix)
    ensures References(prefix + PlaceholderText(start, count) + suffix) == Range(start, count) + References(suffix)
  {
    assert prefix + PlaceholderText(start, count) + suffix == prefix + (PlaceholderText(start, count) + suffix);
    ReferencesSkip(prefix, PlaceholderText(start, count) + suffix);
    ReferencesOfList(start, count, suffix);
  }

  const BY_ID: string := "id IN ("
  const BY_ID_END: string := ")"
  const BY_USER: string := "(user_id IN ("
  const BY_USER_END: string := ") AND revoked_at IS NULL)"
  const OR: string := " OR "

  /** The conditions on session ids and on active users, joined, over `n` and `m` arguments. */
  function SessionConditionText(n: nat, m: nat): string {
    var byId := BY_ID + PlaceholderText(1, n) + BY_ID_END;
    var byUser := BY_USER + PlaceholderText(n + 1, m) + BY_USER_END;
    if n > 0 && m > 0 then byId + OR + byUser
    else if n > 0 then byId
    else if m > 0 then byUser
    else ""
  }

  /** The condition letter by letter. */
  lemma ConditionSpelled(n: nat, m: nat)
    ensures n > 0 && m > 0 ==>
      SessionConditionText(n, m) == "id IN (" + PlaceholderText(1, n) + ") OR (user_id IN ("
                                    + PlaceholderText(n + 1, m) + ") AND revoked_at IS NULL)"
    ensures n > 0 && m == 0 ==> SessionConditionText(n, m) == "id IN (" + PlaceholderText(1, n) + ")"
    ensures n == 0 && m > 0 ==>
      SessionConditionText(n, m) == "(user_id IN (" + PlaceholderText(1, m) + ") AND revoked_at IS NULL)"
  {
    if n > 0 && m > 0 {
      var byId, byUser := PlaceholderText(1, n), PlaceholderText(n + 1, m);
      assert BY_ID_END + OR + BY_USER == ") OR (user_id IN (";
      assert ((BY_ID + byId) + BY_ID_END) + OR + ((BY_USER + byUser) + BY_USER_END)
          == (BY_ID + byId) + (BY_ID_END + OR + BY_USER) + byUser + BY_USER_END;
    }
  }

  lemma LiteralsAreHarmless()
    ensures '$' !in BY_ID && '$' !in BY_ID_END && '$' !in BY_USER && '$' !in BY_USER_END && '$' !in OR
    ensures StartsNonDigit(BY_ID_END) && StartsNonDigit(BY_USER_END)
  {
  }

  lemma NoReferences(plain: string)
    requires '$' !in plain
    ensures References(plain) == []
  {
  }

  lemma UserReferences(n: nat, m: nat)
    ensures References(BY_USER + PlaceholderText(n + 1, m) + BY_USER_END) == Range(n + 1, m)
  {
    LiteralsAreHarmless();
    ListInText(BY_USER, n + 1, m, BY_USER_END);
    NoReferences(BY_USER_END);
  }

  lemma IdReferences(n: nat)
    ensures References(BY_ID + PlaceholderText(1, n) + BY_ID_END) == Range(1, n)
  {
    LiteralsAreHarmless();
    ListInText(BY_ID, 1, n, BY_ID_END);
    NoReferences(BY_ID_END);
  }

  lemma BothReferences(n: nat, byUser: string)
    ensures References(BY_ID + PlaceholderText(1, n) + BY_ID_END + OR + byUser) == Range(1, n) + References(byUser)
  {
    var middle := BY_ID_END + OR;
    LiteralsAreHarmless();
    Regroup(BY_ID + PlaceholderText(1, n), BY_ID_END, OR, byUser);
    assert middle + byUser == BY_ID_END + (OR + byUser);
    ListInText(BY_ID, 1, n, middle + byUser);
    ReferencesSkip(middle, byUser);
  }

  /** Across both lists the k-th placeholder names the k-th argument, and each argument is used once. */
  lemma EveryArgumentIsUsedOnce(n: nat, m: nat)
    ensures References(SessionConditionText(n, m)) == Range(1, n + m)
  {
    UserReferences(n, m);
    IdReferences(n);
    BothReferences(n, BY_USER + PlaceholderText(n + 1, m) + BY_USER_END);
    RangeSplit(1, n, m);
  }
}
