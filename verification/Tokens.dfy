/** The identifier and timestamp passes of the normalizer of `baseline/determinism.py`, over
    characters, and the canonical form they compute. */
module Tokens {
  import opened Redaction

  // ----- the two patterns -----

  predicate IsDigit(c: char) { '0' <= c <= '9' }
  predicate IsHex(c: char) { IsDigit(c) || 'a' <= c <= 'f' || 'A' <= c <= 'F' }

  const UUID_LENGTH := 36

  /** `s` starts with an RFC 4122 style identifier. */
  predicate UuidAt(s: string) {
    && |s| >= UUID_LENGTH
    && forall k :: 0 <= k < UUID_LENGTH ==> if k == 8 || k == 13 || k == 18 || k == 23 then s[k] == '-' else IsHex(s[k])
  }

  /** How many characters at the start of `s` are digits. */
  function DigitRun(s: string): nat {
    if s == [] || !IsDigit(s[0]) then 0 else 1 + DigitRun(s[1..])
  }

  predicate DateTimeAt(s: string) {
    && |s| >= 19
    && forall k :: 0 <= k < 19 ==>
         if k == 4 || k == 7 then s[k] == '-'
         else if k == 10 then s[k] == 'T'
         else if k == 13 || k == 16 then s[k] == ':'
         else IsDigit(s[k])
  }

  /** The optional fraction: a dot and at least one digit. */
  function FractionLength(s: string): nat {
    if |s| >= 2 && s[0] == '.' && IsDigit(s[1]) then 1 + DigitRun(s[1..]) else 0
  }

  /** The optional zone: `Z`, or a signed `hh:mm`. */
  function ZoneLength(s: string): nat {
    if s != [] && s[0] == 'Z' then 1
    else if |s| >= 6 && (s[0] == '+' || s[0] == '-') && IsDigit(s[1]) && IsDigit(s[2]) && s[3] == ':'
            && IsDigit(s[4]) && IsDigit(s[5]) then 6
    else 0
  }

  lemma {:induction false} DigitRunBound(s: string)
    ensures DigitRun(s) <= |s|
  {
    if s != [] && IsDigit(s[0]) { DigitRunBound(s[1..]); }
  }

  lemma FractionBound(s: string)
    ensures FractionLength(s) <= |s|
  {
    if s != [] { DigitRunBound(s[1..]); }
  }

  /** The length of the timestamp `s` starts with, or 0. */
  function StampLength(s: string): (n: nat)
    ensures n <= |s|
  {
    if !DateTimeAt(s) then 0
    else
      FractionBound(s[19..]);
      var f := FractionLength(s[19..]);
      19 + f + ZoneLength(s[19 + f..])
  }

  const STAMP := "<timestamp>"

  /** `TIMESTAMP_PATTERN.sub` */
  function Stamped(s: string): string
    decreases |s|
  {
    if s == [] then []
    else if StampLength(s) > 0 then STAMP + Stamped(s[StampLength(s)..])
    else [s[0]] + Stamped(s[1..])
  }

  // ----- token text -----

  function Digits(n: nat): string {
    var d := ['0' + (n % 10) as char];
    if n < 10 then d else Digits(n / 10) + d
  }

  function Pad(s: string, width: nat): string
    decreases width - |s|
  {
    if |s| >= width then s else Pad("0" + s, width)
  }

  function DigitValue(c: char): int { c as int - '0' as int }

  function NumberOf(s: string): int {
    if s == [] then 0 else 10 * NumberOf(s[..|s| - 1]) + DigitValue(s[|s| - 1])
  }

  ghost predicate AllDigits(s: string) { forall i :: 0 <= i < |s| ==> IsDigit(s[i]) }

  lemma {:induction false} DigitsRead(n: nat)
    ensures NumberOf(Digits(n)) == n && AllDigits(Digits(n)) && Digits(n) != []
  {
    var d := ['0' + (n % 10) as char];
    if n < 10 {
      assert Digits(n)[..0] == [];
    } else {
      DigitsRead(n / 10);
      assert Digits(n)[..|Digits(n)| - 1] == Digits(n / 10);
    }
  }

  lemma {:induction false} LeadingZero(s: string)
    ensures NumberOf("0" + s) == NumberOf(s)
  {
    if s == [] {
      assert ("0" + s)[..0] == [];
    } else {
      LeadingZero(s[..|s| - 1]);
      assert ("0" + s)[..|s|] == "0" + s[..|s| - 1];
    }
  }

  lemma {:induction false} PadRead(s: string, width: nat)
    requires AllDigits(s)
    ensures NumberOf(Pad(s, width)) == NumberOf(s) && AllDigits(Pad(s, width)) && |Pad(s, width)| >= |s|
    decreases width - |s|
  {
    if |s| < width {
      LeadingZero(s);
      PadRead("0" + s, width);
    }
  }

  /** `f"{n:04d}"` */
  function Padded(n: nat): string { Pad(Digits(n), 4) }

  /** `f"<uuid-{n:04d}>"` */
  function UuidToken(n: nat): string { "<uuid-" + Padded(n) + ">" }

  lemma PaddedDigits(n: nat)
    ensures AllDigits(Padded(n)) && Padded(n) != [] && NumberOf(Padded(n)) == n
  {
    DigitsRead(n);
    PadRead(Digits(n), 4);
  }

  lemma UuidTokenOk(n: nat)
    ensures TokenOk(UuidToken(n))
  {
    PaddedDigits(n);
  }

  /** A token followed by anything determines its number. */
  lemma UuidTokenRead(n: nat, m: nat, rest: string, rest': string)
    requires UuidToken(n) + rest == UuidToken(m) + rest'
    ensures n == m && rest == rest'
  {
    PaddedDigits(n);
    PaddedDigits(m);
    SameDigits("<uuid-", Padded(n), Padded(m), rest, rest');
  }

  lemma SameDigits(head: string, a: string, b: string, rest: string, rest': string)
    requires AllDigits(a) && AllDigits(b) && head + a + ">" + rest == head + b + ">" + rest'
    ensures a == b && rest == rest'
  {
    var s := head + a + ">" + rest;
    var t := s[|head|..];
    assert t == a + ">" + rest && t == b + ">" + rest';
    DigitsEnd(t, a, rest);
    DigitsEnd(t, b, rest');
    assert rest == t[|a| + 1..] && rest' == t[|b| + 1..];
  }

  /** The digits before a `>` are the leading digits of the text. */
  lemma DigitsEnd(t: string, a: string, rest: string)
    requires AllDigits(a) && t == a + ">" + rest
    ensures DigitRun(t) == |a| && a == t[..|a|]
  {
    RunOfDigits(a, ">" + rest);
    assert t == a + (">" + rest);
  }

  lemma {:induction false} RunOfDigits(a: string, rest: string)
    requires AllDigits(a) && (rest == [] || !IsDigit(rest[0]))
    ensures DigitRun(a + rest) == |a|
  {
    if a == [] {
      assert a + rest == rest;
    } else {
      RunOfDigits(a[1..], rest);
      assert (a + rest)[1..] == a[1..] + rest;
    }
  }

  // ----- timestamps next to tokens -----

  /** A match never reaches past a `<`. */
  lemma {:induction false} DigitRunStops(a: string, rest: string)
    requires rest == [] || rest[0] == '<'
    ensures DigitRun(a + rest) == DigitRun(a)
  {
    if a == [] {
      assert a + rest == rest;
    } else {
      assert (a + rest)[1..] == a[1..] + rest;
      DigitRunStops(a[1..], rest);
    }
  }

  lemma FractionStops(a: string, rest: string)
    requires rest == [] || rest[0] == '<'
    ensures FractionLength(a + rest) == FractionLength(a)
  {
    if |a| >= 2 {
      assert (a + rest)[1..] == a[1..] + rest;
      DigitRunStops(a[1..], rest);
    } else if a == [] {
      assert a + rest == rest;
    } else if rest != [] {
      assert (a + rest)[1] == '<';
    }
  }

  lemma ZoneStops(a: string, rest: string)
    requires rest == [] || rest[0] == '<'
    ensures ZoneLength(a + rest) == ZoneLength(a)
  {
    if a == [] {
      assert a + rest == rest;
    } else if |a| < 6 && rest != [] {
      assert (a + rest)[|a|] == '<';
    }
  }

  lemma DateTimeStops(a: string, rest: string)
    requires rest == [] || rest[0] == '<'
    ensures DateTimeAt(a + rest) == DateTimeAt(a)
  {
    assert forall k :: 0 <= k < |a| ==> (a + rest)[k] == a[k];
    if |a| < 19 && rest != [] { assert (a + rest)[|a|] == '<'; }
  }

  lemma StampStops(a: string, rest: string)
    requires rest == [] || rest[0] == '<'
    ensures StampLength(a + rest) == StampLength(a)
  {
    DateTimeStops(a, rest);
    if DateTimeAt(a) {
      assert (a + rest)[19..] == a[19..] + rest;
      FractionStops(a[19..], rest);
      FractionBound(a[19..]);
      var f := FractionLength(a[19..]);
      assert (a + rest)[19 + f..] == a[19 + f..] + rest;
      ZoneStops(a[19 + f..], rest);
    }
  }

  /** No timestamp starts inside the digits of a token. */
  lemma {:induction false} StampedDigits(ds: string, rest: string)
    requires AllDigits(ds)
    ensures Stamped(ds + ">" + rest) == ds + ">" + Stamped(rest)
  {
    var s := ds + ">" + rest;
    assert !DateTimeAt(s) by { assert s[|ds|] == '>'; assert |ds| > 4 ==> s[4] == ds[4]; }
    if ds == [] {
      assert s[1..] == rest;
    } else {
      StampedDigits(ds[1..], rest);
      assert s[1..] == ds[1..] + ">" + rest;
    }
  }

  lemma StampedParts(head: string, ds: string, rest: string)
    requires AllDigits(ds) && forall i :: 0 <= i < |head| ==> !IsDigit(head[i])
    ensures Stamped(head + ds + ">" + rest) == head + ds + ">" + Stamped(rest)
  {
    StampedDigits(ds, rest);
    StampedLetters(head, ds + ">" + rest);
    Regroup(head, ds, rest);
    Regroup(head, ds, Stamped(rest));
  }

  lemma Regroup(a: string, b: string, c: string)
    ensures a + b + ">" + c == a + (b + ">" + c)
  {
  }

  /** The timestamp pass copies a token and goes on behind it. */
  lemma StampedToken(n: nat, rest: string)
    ensures Stamped(UuidToken(n) + rest) == UuidToken(n) + Stamped(rest)
  {
    PaddedDigits(n);
    StampedParts("<uuid-", Padded(n), rest);
  }

  lemma {:induction false} StampedLetters(a: string, rest: string)
    requires forall i :: 0 <= i < |a| ==> !IsDigit(a[i])
    ensures Stamped(a + rest) == a + Stamped(rest)
  {
    if a == [] {
      assert a + rest == rest;
    } else {
      assert (a + rest)[0] == a[0] && !DateTimeAt(a + rest);
      assert (a + rest)[1..] == a[1..] + rest;
      StampedLetters(a[1..], rest);
    }
  }
}
