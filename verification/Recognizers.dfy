/** What the two patterns of `baseline/determinism.py` match, group by group, and what the passes
    make of any text around a match. */
module Recognizers {
  import opened Names
  import opened Redaction
  import opened Tokens
  import opened CanonicalForm
  import opened Normalization

  // ----- identifiers -----

  const HEX := "0123456789abcdefABCDEF"

  /** `n` characters of `alphabet`. */
  ghost predicate Group(s: string, alphabet: string, n: nat) { |s| == n && forall k :: 0 <= k < n ==> s[k] in alphabet }

  /** Groups of 8, 4, 4, 4 and 12 hexadecimal characters, joined by dashes. */
  ghost predicate UuidText(u: string) {
    exists a, b, c, d, e ::
      && Group(a, HEX, 8) && Group(b, HEX, 4) && Group(c, HEX, 4) && Group(d, HEX, 4) && Group(e, HEX, 12)
      && u == a + "-" + b + "-" + c + "-" + d + "-" + e
  }

  /** An identifier starts at `k`. */
  ghost predicate UuidStarts(s: string, k: nat) { k <= |s| && exists u :: UuidText(u) && u <= s[k..] }

  ghost predicate HasUuid(s: string) { exists k :: UuidStarts(s, k) }

  lemma DigitIff(c: char)
    ensures IsDigit(c) <==> c in DECIMAL
  {
    DecimalIff(c);
  }

  lemma HexIff(c: char)
    ensures IsHex(c) <==> c in HEX
  {
    if IsDigit(c) {
      assert HEX[c as int - '0' as int] == c;
    } else if 'a' <= c <= 'f' {
      assert HEX[10 + c as int - 'a' as int] == c;
    } else if 'A' <= c <= 'F' {
      assert HEX[16 + c as int - 'A' as int] == c;
    }
  }

  lemma UuidSplits(u: string)
    requires |u| == 36 && UuidAt(u)
    ensures UuidText(u)
  {
    var a, b, c, d, e := u[..8], u[9..13], u[14..18], u[19..23], u[24..];
    forall k | 0 <= k < 36 && k != 8 && k != 13 && k != 18 && k != 23 ensures u[k] in HEX { HexIff(u[k]); }
    assert Group(a, HEX, 8) && Group(b, HEX, 4) && Group(c, HEX, 4) && Group(d, HEX, 4) && Group(e, HEX, 12);
    assert u == a + "-" + b + "-" + c + "-" + d + "-" + e;
  }

  lemma UuidJoins(u: string, rest: string)
    requires UuidText(u)
    ensures |u| == 36 && UuidAt(u + rest)
  {
    var a, b, c, d, e :|
      && Group(a, HEX, 8) && Group(b, HEX, 4) && Group(c, HEX, 4) && Group(d, HEX, 4) && Group(e, HEX, 12)
      && u == a + "-" + b + "-" + c + "-" + d + "-" + e;
    forall k | 0 <= k < 36
      ensures (u + rest)[k] == (if k < 8 then a[k] else if k == 8 || k == 13 || k == 18 || k == 23 then '-'
                                else if k < 13 then b[k - 9] else if k < 18 then c[k - 14]
                                else if k < 23 then d[k - 19] else e[k - 24])
    {
    }
    forall k | 0 <= k < 36 && k != 8 && k != 13 && k != 18 && k != 23 ensures IsHex((u + rest)[k]) {
      HexIff((u + rest)[k]);
    }
  }

  /** The recognizer finds exactly the identifiers. */
  lemma UuidAtIff(s: string, k: nat)
    requires k <= |s|
    ensures UuidAt(s[k..]) <==> UuidStarts(s, k)
    ensures UuidStarts(s, k) ==> UuidText(s[k..][..36])
  {
    var t := s[k..];
    if UuidAt(t) {
      UuidSplits(t[..36]);
      assert t[..36] <= t;
    }
    if u :| UuidText(u) && u <= t {
      UuidJoins(u, t[|u|..]);
      assert u + t[|u|..] == t && t[..36] == u;
    }
  }

  /** The recognizer finds nothing before `n`. */
  predicate QuietBefore(s: string, n: nat)
    requires n <= |s|
  {
    forall k :: 0 <= k < n ==> !UuidAt(s[k..])
  }

  /** Characters at which no identifier starts are copied. */
  lemma {:induction false} CopiedUpTo(order: seq<string>, s: string, n: nat)
    requires n <= |s| && QuietBefore(s, n)
    ensures TokenizedText(order, s) == s[..n] + TokenizedText(order, s[n..])
    ensures TokenizedOrder(order, s) == TokenizedOrder(order, s[n..]) && UuidCount(s) == UuidCount(s[n..])
  {
    if n == 0 {
      assert s[0..] == s && s[..0] == [];
    } else {
      CopiedUpTo(order, s, n - 1);
      var rest := s[n - 1..];
      TokenizeStep(order, rest);
      assert rest[1..] == s[n..] && rest[0] == s[n - 1];
      Longer(s, n, TokenizedText(order, s[n..]));
    }
  }

  lemma Longer(s: string, n: nat, rest: string)
    requires 0 < n <= |s|
    ensures s[..n - 1] + ([s[n - 1]] + rest) == s[..n] + rest
  {
  }

  lemma QuietIff(s: string, n: nat)
    requires n <= |s|
    ensures QuietBefore(s, n) <==> NoUuidBefore(s, n)
  {
    forall k | 0 <= k < n ensures UuidAt(s[k..]) <==> UuidStarts(s, k) { UuidAtIff(s, k); }
  }

  ghost predicate NoUuidBefore(s: string, n: nat) { forall k :: 0 <= k < n ==> !UuidStarts(s, k) }

  /** Text without an identifier is copied, and nothing is entered or counted. */
  lemma TokenizeNone(order: seq<string>, s: string)
    requires !HasUuid(s)
    ensures TokenizedText(order, s) == s && TokenizedOrder(order, s) == order && UuidCount(s) == 0
  {
    assert NoUuidBefore(s, |s|);
    QuietIff(s, |s|);
    CopiedUpTo(order, s, |s|);
    assert s[..|s|] == s && s[|s|..] == [];
  }

  /** The first identifier of a text, at `n`, becomes its token and is entered and counted; what
      stands before it is copied, and the pass goes on behind it. */
  lemma TokenizeFirst(order: seq<string>, s: string, n: nat)
    requires UuidStarts(s, n) && NoUuidBefore(s, n)
    ensures n + 36 <= |s| && UuidText(s[n..n + 36]) && FirstToken(order, s, n)
  {
    QuietIff(s, n);
    UuidAtIff(s, n);
    assert s[n..][..36] == s[n..n + 36];
    TokenizeFound(order, s, n);
  }

  /** What the pass makes of a text whose first identifier stands at `n`. */
  ghost predicate FirstToken(order: seq<string>, s: string, n: nat)
    requires n + 36 <= |s|
  {
    var u, rest := s[n..n + 36], s[n + 36..];
    var next := Entered(order, u);
    && TokenizedText(order, s) == s[..n] + (UuidToken(CanonicalForm.Index(next, u) + 1) + TokenizedText(next, rest))
    && TokenizedOrder(order, s) == TokenizedOrder(next, rest) && UuidCount(s) == 1 + UuidCount(rest)
  }

  lemma TokenizeFound(order: seq<string>, s: string, n: nat)
    requires n + 36 <= |s| && UuidAt(s[n..]) && QuietBefore(s, n)
    ensures FirstToken(order, s, n)
  {
    CopiedUpTo(order, s, n);
    TokenizeStep(order, s[n..]);
    assert s[n..][..36] == s[n..n + 36] && s[n..][36..] == s[n + 36..];
  }

  /** For a fresh normalizer the only identifier of a text becomes `<uuid-0001>`. */
  lemma FreshToken(s: string, n: nat)
    requires UuidStarts(s, n) && NoUuidBefore(s, n) && n + 36 <= |s| && !HasUuid(s[n + 36..])
    ensures TokenizedText([], s) == s[..n] + ("<uuid-0001>" + s[n + 36..])
    ensures UuidCount(s) == 1 && TokenizedOrder([], s) == [s[n..n + 36]]
  {
    TokenizeFirst([], s, n);
    TokenizeNone([s[n..n + 36]], s[n + 36..]);
    FreshlyMade(s, n);
  }

  lemma FreshlyMade(s: string, n: nat)
    requires n + 36 <= |s| && FirstToken([], s, n)
    requires var u, rest := s[n..n + 36], s[n + 36..];
             TokenizedText([u], rest) == rest && TokenizedOrder([u], rest) == [u] && UuidCount(rest) == 0
    ensures TokenizedText([], s) == s[..n] + ("<uuid-0001>" + s[n + 36..])
    ensures UuidCount(s) == 1 && TokenizedOrder([], s) == [s[n..n + 36]]
  {
    FirstEntry(s[n..n + 36]);
  }

  lemma FirstEntry(u: string)
    ensures Entered([], u) == [u] && UuidToken(CanonicalForm.Index([u], u) + 1) == "<uuid-0001>"
  {
    assert [] + [u] == [u];
    FirstTokenText();
  }

  lemma FirstTokenText()
    ensures UuidToken(1) == "<uuid-0001>"
  {
    assert Digits(1) == "1";
    assert Pad("0001", 4) == "0001";
    assert "0" + "1" == "01" && "0" + "01" == "001" && "0" + "001" == "0001";
    assert Pad("1", 4) == Pad("01", 4) == Pad("001", 4) == Pad("0001", 4);
  }

  // ----- timestamps -----

  ghost predicate FractionText(f: string)
  {
    f == "" || exists ds :: ds != "" && Group(ds, DECIMAL, |ds|) && f == "." + ds
  }

  ghost predicate ZoneText(z: string) {
    || z == "" || z == "Z"
    || exists sign, hh, mm ::
         (sign == "+" || sign == "-") && Group(hh, DECIMAL, 2) && Group(mm, DECIMAL, 2) && z == sign + hh + ":" + mm
  }

  ghost predicate DateText(w: string) {
    exists y, mo, d ::
      Group(y, DECIMAL, 4) && Group(mo, DECIMAL, 2) && Group(d, DECIMAL, 2) && w == y + "-" + mo + "-" + d
  }

  ghost predicate TimeText(w: string) {
    exists h, mi, s ::
      Group(h, DECIMAL, 2) && Group(mi, DECIMAL, 2) && Group(s, DECIMAL, 2) && w == h + ":" + mi + ":" + s
  }

  ghost predicate DateTimeText(w: string) {
    exists date, time :: DateText(date) && TimeText(time) && w == date + "T" + time
  }

  /** A date and a time joined by `T`, then a fraction and a zone, each of which may be missing. */
  ghost predicate StampText(w: string) {
    exists dt, f, z :: DateTimeText(dt) && FractionText(f) && ZoneText(z) && w == dt + f + z
  }

  ghost predicate StampStarts(s: string, k: nat) { k <= |s| && exists w :: StampText(w) && w <= s[k..] }

  ghost predicate HasStampText(s: string) { exists k :: StampStarts(s, k) }

  lemma DateSplits(w: string)
    requires |w| == 10 && w[4] == '-' && w[7] == '-'
    requires forall k :: 0 <= k < 10 && k != 4 && k != 7 ==> w[k] in DECIMAL
    ensures DateText(w)
  {
    var y, mo, d := w[..4], w[5..7], w[8..];
    assert Group(y, DECIMAL, 4) && Group(mo, DECIMAL, 2) && Group(d, DECIMAL, 2) && w == y + "-" + mo + "-" + d;
  }

  lemma TimeSplits(w: string)
    requires |w| == 8 && w[2] == ':' && w[5] == ':'
    requires forall k :: 0 <= k < 8 && k != 2 && k != 5 ==> w[k] in DECIMAL
    ensures TimeText(w)
  {
    var h, mi, s := w[..2], w[3..5], w[6..];
    assert Group(h, DECIMAL, 2) && Group(mi, DECIMAL, 2) && Group(s, DECIMAL, 2) && w == h + ":" + mi + ":" + s;
  }

  lemma DateTimeSplits(w: string)
    requires |w| == 19 && DateTimeAt(w)
    ensures DateTimeText(w)
  {
    forall k | 0 <= k < 19 && k != 4 && k != 7 && k != 10 && k != 13 && k != 16 ensures w[k] in DECIMAL {
      DigitIff(w[k]);
    }
    DateSplits(w[..10]);
    TimeSplits(w[11..]);
    assert w == w[..10] + "T" + w[11..];
  }

  lemma DateJoins(w: string)
    requires DateText(w)
    ensures |w| == 10 && w[4] == '-' && w[7] == '-'
    ensures forall k :: 0 <= k < 10 && k != 4 && k != 7 ==> w[k] in DECIMAL
  {
    var y, mo, d :| Group(y, DECIMAL, 4) && Group(mo, DECIMAL, 2) && Group(d, DECIMAL, 2) &&
      w == y + "-" + mo + "-" + d;
    forall k | 0 <= k < 10 && k != 4 && k != 7
      ensures w[k] == if k < 4 then y[k] else if k < 7 then mo[k - 5] else d[k - 8]
    {
    }
  }

  lemma TimeJoins(w: string)
    requires TimeText(w)
    ensures |w| == 8 && w[2] == ':' && w[5] == ':'
    ensures forall k :: 0 <= k < 8 && k != 2 && k != 5 ==> w[k] in DECIMAL
  {
    var h, mi, s :| Group(h, DECIMAL, 2) && Group(mi, DECIMAL, 2) && Group(s, DECIMAL, 2) &&
      w == h + ":" + mi + ":" + s;
    forall k | 0 <= k < 8 && k != 2 && k != 5
      ensures w[k] == if k < 2 then h[k] else if k < 5 then mi[k - 3] else s[k - 6]
    {
    }
  }

  lemma DateTimeJoins(w: string, rest: string)
    requires DateTimeText(w)
    ensures |w| == 19 && DateTimeAt(w + rest)
  {
    var date, time :| DateText(date) && TimeText(time) && w == date + "T" + time;
    DateJoins(date);
    TimeJoins(time);
    DateTimeOf(date, time, w + rest);
  }

  lemma DateTimeOf(date: string, time: string, s: string)
    requires |date| == 10 && date[4] == '-' && date[7] == '-'
    requires forall k :: 0 <= k < 10 && k != 4 && k != 7 ==> date[k] in DECIMAL
    requires |time| == 8 && time[2] == ':' && time[5] == ':'
    requires forall k :: 0 <= k < 8 && k != 2 && k != 5 ==> time[k] in DECIMAL
    requires date + "T" + time <= s
    ensures DateTimeAt(s)
  {
    var w := date + "T" + time;
    forall k | 0 <= k < 19 ensures s[k] == if k < 10 then date[k] else if k == 10 then 'T' else time[k - 11] {
      assert s[k] == w[k];
    }
    forall k | 0 <= k < 19 && s[k] in DECIMAL ensures IsDigit(s[k]) { DigitIff(s[k]); }
  }

  lemma {:induction false} DigitRunIs(s: string)
    ensures DigitRun(s) <= |s| && Group(s[..DigitRun(s)], DECIMAL, DigitRun(s))
    ensures DigitRun(s) < |s| ==> s[DigitRun(s)] !in DECIMAL
  {
    if s != [] {
      DigitIff(s[0]);
      if IsDigit(s[0]) {
        DigitRunIs(s[1..]);
        var n := DigitRun(s[1..]);
        assert s[..n + 1] == [s[0]] + s[1..][..n];
      }
    }
  }

  lemma FractionIs(s: string)
    ensures FractionLength(s) <= |s| && FractionText(s[..FractionLength(s)])
  {
    FractionBound(s);
    if FractionLength(s) > 0 {
      DigitRunIs(s[1..]);
      DigitIff(s[1]);
      var ds := s[1..][..DigitRun(s[1..])];
      assert s[..FractionLength(s)] == "." + ds;
    }
  }

  lemma ZoneIs(s: string)
    ensures ZoneLength(s) <= |s| && ZoneText(s[..ZoneLength(s)])
  {
    if ZoneLength(s) == 1 {
      assert s[..1] == "Z";
    } else if ZoneLength(s) == 6 {
      DigitIff(s[1]);
      DigitIff(s[2]);
      DigitIff(s[4]);
      DigitIff(s[5]);
      var sign, hh, mm := s[..1], s[1..3], s[4..6];
      assert sign == "+" || sign == "-";
      assert Group(hh, DECIMAL, 2) && Group(mm, DECIMAL, 2) && s[..6] == sign + hh + ":" + mm;
    }
  }

  lemma OffsetFound(s: string, z: string)
    requires |z| == 6 && z <= s && (z[0] == '+' || z[0] == '-') && z[3] == ':'
    requires z[1] in DECIMAL && z[2] in DECIMAL && z[4] in DECIMAL && z[5] in DECIMAL
    ensures ZoneLength(s) == 6
  {
    DigitIff(z[1]);
    DigitIff(z[2]);
    DigitIff(z[4]);
    DigitIff(z[5]);
    assert forall k :: 0 <= k < 6 ==> s[k] == z[k];
  }

  /** A zone at the start of `s` is found whole. */
  lemma ZoneFound(s: string, z: string)
    requires ZoneText(z) && z <= s
    ensures |z| <= ZoneLength(s)
    ensures z != "" ==> s[0] == 'Z' || s[0] == '+' || s[0] == '-'
  {
    if z != "" && z != "Z" {
      var sign, hh, mm :|
        (sign == "+" || sign == "-") && Group(hh, DECIMAL, 2) && Group(mm, DECIMAL, 2) && z == sign + hh + ":" + mm;
      assert z[0] == sign[0] && z[1] == hh[0] && z[2] == hh[1] && z[3] == ':' && z[4] == mm[0] && z[5] == mm[1];
      OffsetFound(s, z);
    }
  }

  lemma {:induction false} DigitRunCovers(s: string, ds: string)
    requires Group(ds, DECIMAL, |ds|) && ds <= s
    ensures |ds| <= DigitRun(s) <= |s|
  {
    DigitRunIs(s);
    assert forall k :: 0 <= k < |ds| ==> s[k] == ds[k];
  }

  /** A fraction and a zone at the start of `s` are no longer than what is found. */
  lemma TailFound(s: string, f: string, z: string)
    requires FractionText(f) && ZoneText(z) && f + z <= s
    ensures FractionLength(s) <= |s| && |f| + |z| <= FractionLength(s) + ZoneLength(s[FractionLength(s)..])
  {
    FractionBound(s);
    if f == "" {
      assert f + z == z;
      ZoneFound(s, z);
      assert z != "" ==> FractionLength(s) == 0 && s[0..] == s;
    } else {
      var ds :| ds != "" && Group(ds, DECIMAL, |ds|) && f == "." + ds;
      FractionFound(s, ds, z);
      ZoneAfter(s, f, z, ds);
    }
  }

  lemma FractionFound(s: string, ds: string, z: string)
    requires ds != "" && Group(ds, DECIMAL, |ds|) && "." + ds + z <= s
    ensures FractionLength(s) == 1 + DigitRun(s[1..]) && |ds| <= DigitRun(s[1..]) <= |s| - 1
    ensures Group(s[1..][..DigitRun(s[1..])], DECIMAL, DigitRun(s[1..]))
  {
    var w := "." + ds + z;
    assert s[..|w|] == w && w[0] == '.' && w[1..1 + |ds|] == ds;
    assert s[1..][..|ds|] == ds;
    DigitRunCovers(s[1..], ds);
    DigitIff(s[1]);
    assert s[1] == ds[0];
    DigitRunIs(s[1..]);
  }

  lemma ZoneAfter(s: string, f: string, z: string, ds: string)
    requires f == "." + ds && ZoneText(z) && f + z <= s && |ds| <= DigitRun(s[1..]) <= |s| - 1
    requires FractionLength(s) == 1 + DigitRun(s[1..])
    requires Group(s[1..][..DigitRun(s[1..])], DECIMAL, DigitRun(s[1..]))
    ensures |f| + |z| <= FractionLength(s) + ZoneLength(s[FractionLength(s)..])
  {
    var n := DigitRun(s[1..]);
    assert z <= s[|f|..];
    if |ds| < n {
      ZoneFound(s[|f|..], z);
      assert s[1..][..n][|ds|] == s[|f|] && s[|f|] in DECIMAL;
    } else {
      ZoneFound(s[|f|..], z);
    }
  }

  /** What the recognizer takes is a timestamp. */
  lemma StampTaken(s: string)
    requires StampLength(s) > 0
    ensures StampText(s[..StampLength(s)])
  {
    var rest := s[19..];
    FractionIs(rest);
    var f := FractionLength(rest);
    ZoneIs(rest[f..]);
    var z := ZoneLength(rest[f..]);
    assert s[19 + f..] == rest[f..];
    DateTimeSplits(s[..19]);
    ThreeParts(s, f, z);
    StampMade(s[..19], rest[..f], rest[f..][..z]);
  }

  lemma ThreeParts(s: string, f: nat, z: nat)
    requires 19 + f + z <= |s|
    ensures s[..19 + f + z] == s[..19] + s[19..][..f] + s[19..][f..][..z]
  {
  }

  lemma StampMade(dt: string, f: string, z: string)
    requires DateTimeText(dt) && FractionText(f) && ZoneText(z)
    ensures StampText(dt + f + z)
  {
  }

  /** And it takes the longest one there is. */
  lemma StampFound(s: string, w: string)
    requires StampText(w) && w <= s
    ensures 0 < |w| <= StampLength(s)
  {
    var dt, f, z :| DateTimeText(dt) && FractionText(f) && ZoneText(z) && w == dt + f + z;
    DateTimeJoins(dt, s[|dt|..]);
    assert dt + s[|dt|..] == s;
    TailStarts(s, dt, f, z);
    TailFound(s[19..], f, z);
    assert s[19..][FractionLength(s[19..])..] == s[19 + FractionLength(s[19..])..];
  }

  lemma TailStarts(s: string, dt: string, f: string, z: string)
    requires |dt| == 19 && dt + f + z <= s
    ensures f + z <= s[19..]
  {
    var w := dt + f + z;
    assert w[19..] == f + z && s[..|w|] == w;
  }

  /** The recognizer finds exactly the timestamps. */
  lemma StampStartsIff(s: string, k: nat)
    requires k <= |s|
    ensures StampLength(s[k..]) > 0 <==> StampStarts(s, k)
  {
    var t := s[k..];
    if StampLength(t) > 0 {
      StampTaken(t);
      assert t[..StampLength(t)] <= t;
    }
    if w :| StampText(w) && w <= t { StampFound(t, w); }
  }

  ghost predicate LongestAt(s: string, w: string)
  {
    StampText(w) && w <= s && forall v :: StampText(v) && v <= s ==> |v| <= |w|
  }
  ghost predicate NoneBefore(s: string, n: nat) { forall k :: 0 <= k < n ==> !StampStarts(s, k) }

  lemma NoneFound(s: string, n: nat)
    requires n <= |s| && NoneBefore(s, n)
    ensures StampQuiet(s, n)
  {
    forall k | 0 <= k < n ensures StampLength(s[k..]) == 0 { StampStartsIff(s, k); }
  }

  predicate StampQuiet(s: string, n: nat)
    requires n <= |s|
  {
    forall k :: 0 <= k < n ==> StampLength(s[k..]) == 0
  }

  /** Characters at which no timestamp starts are copied. */
  lemma {:induction false} StampsPast(s: string, n: nat)
    requires n <= |s| && StampQuiet(s, n)
    ensures Stamped(s) == s[..n] + Stamped(s[n..]) && (HasStamp(s) <==> HasStamp(s[n..]))
  {
    if n == 0 {
      assert s[0..] == s && s[..0] == [];
    } else {
      StampsPast(s, n - 1);
      var rest := s[n - 1..];
      StampStep(rest);
      assert rest[1..] == s[n..] && rest[0] == s[n - 1];
      Longer(s, n, Stamped(s[n..]));
    }
  }

  /** Text without a timestamp is copied and nothing is recorded. */
  lemma StampNone(s: string)
    requires !HasStampText(s)
    ensures Stamped(s) == s && !HasStamp(s)
  {
    assert NoneBefore(s, |s|);
    NoneFound(s, |s|);
    StampsPast(s, |s|);
    assert s[..|s|] == s && s[|s|..] == [];
  }

  lemma LongestStamp(s: string, w: string)
    requires LongestAt(s, w)
    ensures StampLength(s) == |w| > 0
  {
    StampFound(s, w);
    StampTaken(s);
    assert s[..StampLength(s)] <= s;
  }

  /** The `length` characters at `n` are a timestamp, the longest one there, and none starts before. */
  ghost predicate FirstStamp(s: string, n: nat, length: nat) {
    n + length <= |s| && NoneBefore(s, n) && LongestAt(s[n..], s[n..][..length])
  }

  lemma FirstStampFound(s: string, n: nat, length: nat)
    requires FirstStamp(s, n, length)
    ensures n + length <= |s| && StampQuiet(s, n) && StampLength(s[n..]) == length > 0
  {
    NoneFound(s, n);
    LongestStamp(s[n..], s[n..][..length]);
  }

  /** The first timestamp of a text, taken as long as it goes, becomes the token. */
  lemma StampFirst(s: string, n: nat, length: nat)
    requires FirstStamp(s, n, length)
    ensures n + length <= |s| && Stamped(s) == s[..n] + ("<timestamp>" + Stamped(s[n + length..])) && HasStamp(s)
  {
    FirstStampFound(s, n, length);
    StampReplaced(s, n, length);
  }

  lemma StampReplaced(s: string, n: nat, length: nat)
    requires n <= |s| && 0 < length == StampLength(s[n..]) && StampQuiet(s, n)
    ensures n + length <= |s| && Stamped(s) == s[..n] + ("<timestamp>" + Stamped(s[n + length..])) && HasStamp(s)
  {
    StampsPast(s, n);
    StampStep(s[n..]);
    assert s[n..][length..] == s[n + length..];
  }

  // ----- the passes one after the other -----

  /** A string that is not exempt is redacted, then its identifiers and then its timestamps are
      replaced. */
  lemma PassesInOrder(cfg: Config, order: seq<string>, s: string)
    requires s !in cfg.preserve
    ensures var text := Redacted(cfg.roots, s);
            && OrderAfter(cfg, order, [s]) == TokenizedOrder(order, text)
            && TextOf(cfg, OrderAfter(cfg, order, [s]), s) == Stamped(TokenizedText(order, text))
  {
    var text := Redacted(cfg.roots, s);
    var last := TokenizedOrder(order, text);
    TokenizedIsRendered(order, text);
    IdPiecesNoStamp(text);
    StampedRender(IdPieces(text), last);
    CollapseSameIds(order, IdPieces(text));
    assert PiecesAll(cfg, [s]) == [Collapse(IdPieces(text))];
    OneText(order, Collapse(IdPieces(text)));
  }

  lemma OneText(order: seq<string>, ps: seq<Piece>)
    ensures ExtendAll(order, [ps]) == Extend(order, ps)
  {
    assert [ps][..0] == [];
  }

  /** An exempt string is left as it is. */
  lemma ExemptStays(cfg: Config, order: seq<string>, s: string)
    requires s in cfg.preserve
    ensures TextOf(cfg, order, s) == s && OrderAfter(cfg, order, [s]) == order
  {
    assert Known(Literal(s), order);
    LiteralRenders(s, order);
    LiteralEnters(order, s);
    assert PiecesAll(cfg, [s]) == [Literal(s)];
    OneText(order, Literal(s));
  }

  lemma {:induction false} LiteralRenders(s: string, order: seq<string>)
    ensures Known(Literal(s), order) && Render(Literal(s), order) == s
  {
    if s != [] {
      LiteralRenders(s[1..], order);
      RenderCons(Literal(s), order);
      assert Literal(s)[1..] == Literal(s[1..]) && s == [s[0]] + s[1..];
    }
  }

  lemma {:induction false} LiteralEnters(order: seq<string>, s: string)
    ensures Extend(order, Literal(s)) == order
  {
    if s != [] {
      assert Literal(s)[..|s| - 1] == Literal(s[..|s| - 1]);
      LiteralEnters(order, s[..|s| - 1]);
    }
  }

  // ----- path roots -----

  /** The spelling `w` occurs first at `n`. */
  ghost predicate FirstAt(w: string, s: string, n: nat)
  {
    OccursAt(w, s, n) && forall k :: 0 <= k < n ==> !OccursAt(w, s, k)
  }

  /** Characters at which the spelling does not start are copied. */
  lemma {:induction false} ReplacedPast(s: string, w: string, token: string, n: nat)
    requires w != [] && n <= |s| && forall k :: 0 <= k < n ==> !(w <= s[k..])
    ensures Replace(s, w, token) == s[..n] + Replace(s[n..], w, token)
  {
    if n == 0 {
      assert s[0..] == s && s[..0] == [];
    } else {
      ReplacedPast(s, w, token, n - 1);
      var rest := s[n - 1..];
      ReplaceStep(rest, w, token);
      assert rest[1..] == s[n..] && rest[0] == s[n - 1];
      Longer(s, n, Replace(s[n..], w, token));
    }
  }

  lemma ReplaceStep(s: string, w: string, token: string)
    requires w != [] && s != []
    ensures Replace(s, w, token) ==
            if w <= s then token + Replace(s[|w|..], w, token) else [s[0]] + Replace(s[1..], w, token)
  {
    var cuts := ReplaceCuts(s, w, token);
    assert cuts[1..] == ReplaceCuts(if w <= s then s[|w|..] else s[1..], w, token);
  }

  lemma PrefixOccurs(w: string, s: string, k: nat)
    requires k <= |s|
    ensures w <= s[k..] <==> OccursAt(w, s, k)
  {
    if k + |w| <= |s| { assert s[k..][..|w|] == s[k..k + |w|]; }
  }

  /** `str.replace`: the first occurrence becomes the token, and the search goes on behind it. */
  lemma ReplaceFirstAt(s: string, w: string, token: string, n: nat)
    requires w != [] && FirstAt(w, s, n)
    ensures n + |w| <= |s| && Replace(s, w, token) == s[..n] + (token + Replace(s[n + |w|..], w, token))
  {
    forall k | 0 <= k < n ensures !(w <= s[k..]) {
      PrefixOccurs(w, s, k);
    }
    ReplacedPast(s, w, token, n);
    ReplaceStep(s[n..], w, token);
    assert s[n..][..|w|] == s[n..n + |w|] && s[n..][|w|..] == s[n + |w|..];
  }

  lemma ReplaceNone(s: string, w: string, token: string)
    requires w != [] && !Occurs(w, s)
    ensures Replace(s, w, token) == s
  {
    forall k | 0 <= k < |s| ensures !(w <= s[k..]) {
      PrefixOccurs(w, s, k);
    }
    ReplacedPast(s, w, token, |s|);
    assert s[..|s|] == s && s[|s|..] == [];
  }

  /** With one root its only occurrence becomes its name in angle brackets. */
  lemma OneRoot(spelling: string, name: string, s: string, n: nat)
    requires spelling != [] && FirstAt(spelling, s, n) && !Occurs(spelling, s[n + |spelling|..])
    ensures Redacted([Root(spelling, name)], s) == s[..n] + ("<" + name + ">" + s[n + |spelling|..])
  {
    var r := Root(spelling, name);
    var token := "<" + name + ">";
    assert [r][..0] == [] && LongestFirst([]) + [r] == [r];
    assert LongestFirst([r]) == [r] && TokenOf(r) == token;
    assert RedactIn([r], s) == Replace(RedactIn([r][..0], s), spelling, token) == Replace(s, spelling, token);
    ReplaceFirstAt(s, spelling, "<" + name + ">", n);
    ReplaceNone(s[n + |spelling|..], spelling, "<" + name + ">");
  }

  // ----- absolute paths -----

  /** A text looks absolute when it starts with a slash, or with a letter, a colon and a slash of
      either kind. */
  lemma AbsoluteExact(s: string)
    ensures LooksAbsolute(s) <==>
            "/" <= s || exists c :: Letter(c) && ([c] + ":/" <= s || [c] + ":\\" <= s)
  {
    if LooksAbsolute(s) && !("/" <= s) {
      LetterIff(s[0]);
      if s[2] == '/' { assert s[..3] == [s[0]] + ":/"; } else { assert s[..3] == [s[0]] + ":\\"; }
    }
    if c :| Letter(c) && ([c] + ":/" <= s || [c] + ":\\" <= s) {
      LetterIff(c);
      var w := if [c] + ":/" <= s then [c] + ":/" else [c] + ":\\";
      assert s[..3] == w && s[0] == w[0] && s[1] == w[1] && s[2] == w[2];
    }
  }

  lemma LetterIff(c: char)
    ensures IsLetter(c) <==> Letter(c)
  {
    LowerIff(c);
    UpperIff(c);
  }
}
