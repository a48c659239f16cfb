/** The pattern classifier of `scripts/check-application-contracts.py`: regular
    expressions under Python's and ECMAScript's reading of `$`, and what appending
    the terminal guard `(?![\s\S])` does to the language a pattern accepts. */
module PatternGuard {
  import opened Json

  /** Patterns as parsed: a nested alternation is one written in a group. */
  datatype Regex =
    | Empty
    | Chars(text: string, members: set<char>, negated: bool)
    | Cat(first: Regex, second: Regex)
    | Alt(left: Regex, right: Regex)
    | Star(body: Regex)
    | Caret
    | Dollar
    | Ahead(body: Regex)
    | NotAhead(body: Regex)

  /** How `$` is read: Python also matches before a final newline, section 22.2.2.4
      of ECMA-262 (without the multiline flag) only at the end of input. */
  datatype Dialect = Python | EcmaScript

  const AnyChar := Chars("[\\s\\S]", {}, true)
  const Guard := NotAhead(AnyChar)
  const GuardText := "(?![\\s\\S])"

  /** `r` matches `s[i..j]`. */
  ghost predicate Matches(r: Regex, s: string, i: nat, j: nat, d: Dialect)
    requires i <= j <= |s|
    decreases r, j - i
  {
    match r
    case Empty => i == j
    case Chars(_, members, negated) => j == i + 1 && (s[i] in members) != negated
    case Cat(a, b) => exists k :: i <= k <= j && Matches(a, s, i, k, d) && Matches(b, s, k, j, d)
    case Alt(a, b) => Matches(a, s, i, j, d) || Matches(b, s, i, j, d)
    case Star(a) => i == j || exists k :: i < k <= j && Matches(a, s, i, k, d) && Matches(r, s, k, j, d)
    case Caret => i == j == 0
    case Dollar => i == j && (i == |s| || (d.Python? && i + 1 == |s| && s[i] == '\n'))
    case Ahead(a) => i == j && exists k :: i <= k <= |s| && Matches(a, s, i, k, d)
    case NotAhead(a) => i == j && !exists k :: i <= k <= |s| && Matches(a, s, i, k, d)
  }

  /** `re.search(r, s) is not None`, and `RegExp.test` in the other dialect. */
  ghost predicate Search(r: Regex, s: string, d: Dialect) {
    exists i, j :: 0 <= i <= j <= |s| && Matches(r, s, i, j, d)
  }

  /** `re.fullmatch(r, s) is not None` */
  ghost predicate FullMatch(r: Regex, s: string, d: Dialect) { Matches(r, s, 0, |s|, d) }

  /** Some match of `r` ends at `j`. */
  ghost predicate EndsAt(r: Regex, s: string, j: nat, d: Dialect)
    requires j <= |s|
  {
    exists i :: 0 <= i <= j && Matches(r, s, i, j, d)
  }

  lemma SearchEnds(r: Regex, s: string, d: Dialect)
    ensures Search(r, s, d) <==> exists j :: 0 <= j <= |s| && EndsAt(r, s, j, d)
  {
    if Search(r, s, d) {
      var i, j :| 0 <= i <= j <= |s| && Matches(r, s, i, j, d);
      assert EndsAt(r, s, j, d);
    }
  }

  // ----- appending the guard -----

  /** What `pattern + GUARD` parses to: the text lands on the last top-level alternative. */
  function Guarded(r: Regex): Regex {
    match r
    case Alt(a, b) => Alt(a, Guarded(b))
    case _ => Cat(r, Guard)
  }

  /** The pattern text of a regex. */
  function Text(r: Regex): string
    decreases r
  {
    match r
    case Empty => ""
    case Chars(text, _, _) => text
    case Cat(a, b) =>
      (if a.Alt? then "(?:" + Text(a) + ")" else Text(a)) + (if b.Alt? then "(?:" + Text(b) + ")" else Text(b))
    case Alt(a, b) => Text(a) + "|" + Text(b)
    case Star(a) => (if a.Chars? then Text(a) else "(?:" + Text(a) + ")") + "*"
    case Caret => "^"
    case Dollar => "$"
    case Ahead(a) => "(?=" + Text(a) + ")"
    case NotAhead(a) => "(?!" + Text(a) + ")"
  }

  /** `Guarded` is the textual append, top-level alternation included. */
  lemma {:induction false} GuardedText(r: Regex)
    ensures Text(Guarded(r)) == Text(r) + GuardText
  {
    assert Text(Guard) == "(?!" + Text(AnyChar) + ")" == GuardText;
    if r.Alt? {
      GuardedText(r.right);
      assert Text(Guarded(r)) == Text(r.left) + "|" + Text(Guarded(r.right));
    }
  }

  lemma GuardMatchesAtEnd(s: string, i: nat, j: nat, d: Dialect)
    requires i <= j <= |s|
    ensures Matches(Guard, s, i, j, d) <==> i == j == |s|
  {
    if i < |s| { assert Matches(AnyChar, s, i, i + 1, d); }
  }

  lemma CatGuard(r: Regex, s: string, i: nat, j: nat, d: Dialect)
    requires i <= j <= |s|
    ensures Matches(Cat(r, Guard), s, i, j, d) <==> j == |s| && Matches(r, s, i, j, d)
  {
    forall k | i <= k <= j ensures Matches(Guard, s, k, j, d) <==> k == j == |s| {
      GuardMatchesAtEnd(s, k, j, d);
    }
  }

  /** Appending the guard only narrows. */
  lemma {:induction false} GuardNarrows(r: Regex, s: string, i: nat, j: nat, d: Dialect)
    requires i <= j <= |s| && Matches(Guarded(r), s, i, j, d)
    ensures Matches(r, s, i, j, d)
  {
    if r.Alt? {
      if !Matches(r.left, s, i, j, d) { GuardNarrows(r.right, s, i, j, d); }
    } else {
      CatGuard(r, s, i, j, d);
    }
  }

  /** A match that reaches the end of input survives the guard. */
  lemma {:induction false} GuardKeepsFinalMatch(r: Regex, s: string, i: nat, d: Dialect)
    requires i <= |s| && Matches(r, s, i, |s|, d)
    ensures Matches(Guarded(r), s, i, |s|, d)
  {
    if r.Alt? {
      if !Matches(r.left, s, i, |s|, d) { GuardKeepsFinalMatch(r.right, s, i, d); }
    } else {
      CatGuard(r, s, i, |s|, d);
    }
  }

  /** For every pattern and value the guard admits nothing new under search and
      drops nothing that full match accepted. */
  lemma GuardIsSafe(r: Regex, s: string, d: Dialect)
    ensures Search(Guarded(r), s, d) ==> Search(r, s, d)
    ensures FullMatch(r, s, d) ==> Search(Guarded(r), s, d)
  {
    if Search(Guarded(r), s, d) {
      var i, j :| 0 <= i <= j <= |s| && Matches(Guarded(r), s, i, j, d);
      GuardNarrows(r, s, i, j, d);
    }
    if FullMatch(r, s, d) { GuardKeepsFinalMatch(r, s, 0, d); }
  }

  // ----- patterns that end in `$` -----

  predicate DollarFree(r: Regex) {
    match r
    case Cat(a, b) => DollarFree(a) && DollarFree(b)
    case Alt(a, b) => DollarFree(a) && DollarFree(b)
    case Star(a) => DollarFree(a)
    case Ahead(a) => DollarFree(a)
    case NotAhead(a) => DollarFree(a)
    case Dollar => false
    case _ => true
  }

  predicate EndsInNewline(s: string) { s != [] && s[|s| - 1] == '\n' }

  /** The dialects differ only on `$`, and only on values that end in a newline. */
  lemma {:induction false} DialectsAgree(r: Regex, s: string, i: nat, j: nat)
    requires i <= j <= |s| && (DollarFree(r) || !EndsInNewline(s))
    ensures Matches(r, s, i, j, Python) == Matches(r, s, i, j, EcmaScript)
    decreases r, j - i
  {
    match r
    case Cat(a, b) =>
      forall k | i <= k <= j
        ensures Matches(a, s, i, k, Python) == Matches(a, s, i, k, EcmaScript)
        ensures Matches(b, s, k, j, Python) == Matches(b, s, k, j, EcmaScript)
      {
        DialectsAgree(a, s, i, k);
        DialectsAgree(b, s, k, j);
      }
    case Alt(a, b) =>
      DialectsAgree(a, s, i, j);
      DialectsAgree(b, s, i, j);
    case Star(a) =>
      forall k | i < k <= j
        ensures Matches(a, s, i, k, Python) == Matches(a, s, i, k, EcmaScript)
        ensures Matches(r, s, k, j, Python) == Matches(r, s, k, j, EcmaScript)
      {
        DialectsAgree(a, s, i, k);
        DialectsAgree(r, s, k, j);
      }
    case Ahead(a) =>
      forall k | i <= k <= |s| ensures Matches(a, s, i, k, Python) == Matches(a, s, i, k, EcmaScript) {
        DialectsAgree(a, s, i, k);
      }
    case NotAhead(a) =>
      forall k | i <= k <= |s| ensures Matches(a, s, i, k, Python) == Matches(a, s, i, k, EcmaScript) {
        DialectsAgree(a, s, i, k);
      }
    case _ =>
  }

  lemma CatDollar(q: Regex, s: string, i: nat, j: nat, d: Dialect)
    requires i <= j <= |s|
    ensures Matches(Cat(q, Dollar), s, i, j, d) <==> Matches(q, s, i, j, d) && Matches(Dollar, s, j, j, d)
  {
    forall k | i <= k <= j && Matches(Dollar, s, k, j, d) ensures k == j {}
  }

  /** Where a match of `q$` may end, guarded or not. */
  lemma AnchoredEnds(q: Regex, s: string, j: nat, d: Dialect)
    requires j <= |s|
    ensures EndsAt(Cat(q, Dollar), s, j, d) <==>
            EndsAt(q, s, j, d) && (j == |s| || (d.Python? && EndsInNewline(s) && j == |s| - 1))
    ensures EndsAt(Guarded(Cat(q, Dollar)), s, j, d) <==> EndsAt(q, s, j, d) && j == |s|
  {
    var p := Cat(q, Dollar);
    forall i | 0 <= i <= j
      ensures Matches(p, s, i, j, d) <==> Matches(q, s, i, j, d) && Matches(Dollar, s, j, j, d)
      ensures Matches(Guarded(p), s, i, j, d) <==> Matches(p, s, i, j, d) && j == |s|
    {
      CatGuard(p, s, i, j, d);
      CatDollar(q, s, i, j, d);
    }
  }

  /** A guarded search for `q$`, and a strict one, is a match of `q` that ends the input. */
  lemma AnchoredSearch(q: Regex, s: string, d: Dialect)
    ensures Search(Guarded(Cat(q, Dollar)), s, d) <==> EndsAt(q, s, |s|, d)
    ensures Search(Cat(q, Dollar), s, EcmaScript) <==> EndsAt(q, s, |s|, EcmaScript)
  {
    var p := Cat(q, Dollar);
    SearchEnds(Guarded(p), s, d);
    SearchEnds(p, s, EcmaScript);
    forall j | 0 <= j <= |s|
      ensures EndsAt(Guarded(p), s, j, d) <==> EndsAt(q, s, j, d) && j == |s|
      ensures EndsAt(p, s, j, EcmaScript) <==> EndsAt(q, s, j, EcmaScript) && j == |s|
    {
      AnchoredEnds(q, s, j, d);
      AnchoredEnds(q, s, j, EcmaScript);
    }
  }

  /** For `q$`, guarded Python search accepts exactly the strict-`$` language of the
      unguarded pattern, on every value when `q` has no `$` of its own and otherwise on
      every value that does not end in a newline. */
  lemma GuardedPythonIsStrict(q: Regex, s: string)
    requires DollarFree(q) || !EndsInNewline(s)
    ensures Search(Guarded(Cat(q, Dollar)), s, Python) <==> Search(Cat(q, Dollar), s, EcmaScript)
  {
    AnchoredSearch(q, s, Python);
    forall i | 0 <= i <= |s| ensures Matches(q, s, i, |s|, Python) == Matches(q, s, i, |s|, EcmaScript) {
      DialectsAgree(q, s, i, |s|);
    }
    assert EndsAt(q, s, |s|, Python) == EndsAt(q, s, |s|, EcmaScript);
  }

  const NewLine := Chars("\n", {'\n'}, false)

  /** On every value that ends in a newline, `$\n$` makes the two readings part ways: Python's
      inner `$` matches before the newline, the strict one does not. */
  lemma InnerDollarDiffers(s: string)
    requires EndsInNewline(s)
    ensures var q := Cat(Dollar, NewLine);
            Search(Guarded(Cat(q, Dollar)), s, Python) && !Search(Cat(q, Dollar), s, EcmaScript)
  {
    var q, n := Cat(Dollar, NewLine), |s|;
    AnchoredSearch(q, s, Python);
    assert Matches(Dollar, s, n - 1, n - 1, Python) && Matches(NewLine, s, n - 1, n, Python);
    assert Matches(q, s, n - 1, n, Python);
    forall i | 0 <= i <= n ensures !Matches(q, s, i, n, EcmaScript) {
      forall k | i <= k <= n ensures !(Matches(Dollar, s, i, k, EcmaScript) && Matches(NewLine, s, k, n, EcmaScript)) {}
    }
  }

  /** Guarded Python search for `q$` and the strict reading agree on `s`. */
  ghost predicate Agree(q: Regex, s: string) {
    Search(Guarded(Cat(q, Dollar)), s, Python) <==> Search(Cat(q, Dollar), s, EcmaScript)
  }

  /** The values on which they agree for every pattern are exactly those that do not end in a
      newline. */
  lemma AgreesOnEveryPatternIff(s: string)
    ensures (forall q :: Agree(q, s)) <==> !EndsInNewline(s)
  {
    if EndsInNewline(s) {
      InnerDollarDiffers(s);
      assert !Agree(Cat(Dollar, NewLine), s);
    } else {
      forall q ensures Agree(q, s) { GuardedPythonIsStrict(q, s); }
    }
  }

  /** The only values guarded Python search loses are the ones `q$` accepted through a
      final newline: some match of `q` stops before it and none reaches the end. */
  lemma LostThroughNewline(q: Regex, s: string)
    ensures Search(Cat(q, Dollar), s, Python) && !Search(Guarded(Cat(q, Dollar)), s, Python) <==>
            EndsInNewline(s) && EndsAt(q, s, |s| - 1, Python) && !EndsAt(q, s, |s|, Python)
  {
    var p := Cat(q, Dollar);
    AnchoredSearch(q, s, Python);
    SearchEnds(p, s, Python);
    forall j | 0 <= j <= |s|
      ensures EndsAt(p, s, j, Python) <==>
              EndsAt(q, s, j, Python) && (j == |s| || (EndsInNewline(s) && j == |s| - 1))
    {
      AnchoredEnds(q, s, j, Python);
    }
  }

  // ----- the classifier -----

  datatype Reason =
    | MoreThanTheGuard | AnotherKeyword | Readmits(v: string) | RemovesAccepted(v: string)
    | LanguagesDiffer | EcmaUnavailable | EcmaNotCovered

  datatype Classification = Unchanged | ValidatorParity | Major(why: Reason) | Indeterminate(why: Reason)

  datatype Definition = Definition(pattern: Regex, keywords: Json)

  /** The other runtime's verdicts on the corpus, one row per pattern it could evaluate. */
  datatype EcmaTable = EcmaTable(before: Option<seq<bool>>, after: Option<seq<bool>>)

  /** The first corpus value satisfying a condition, if any. */
  ghost function FirstWhere(values: seq<string>, p: string -> bool): (r: Option<string>)
    ensures r.None? <==> forall v :: v in values ==> !p(v)
    ensures r.Some? ==> r.value in values && p(r.value)
  {
    if values == [] then None else if p(values[0]) then Some(values[0]) else FirstWhere(values[1..], p)
  }

  /** `_classify` */
  ghost function Classify(before: Definition, after: Definition, values: seq<string>, ecma: Option<EcmaTable>)
    : Classification
  {
    var o, n := before.pattern, after.pattern;
    if o == n && PyEq(before.keywords, after.keywords) then Unchanged
    else if n != Guarded(o) then Major(MoreThanTheGuard)
    else if !PyEq(before.keywords, after.keywords) then Major(AnotherKeyword)
    else
      var dropped := (v: string) => Search(o, v, Python) && !Search(n, v, Python);
      var readmitted := FirstWhere(values, v => !Search(o, v, Python) && Search(n, v, Python));
      var stillSemantic := FirstWhere(values, v => dropped(v) && FullMatch(o, v, Python));
      if readmitted.Some? then Major(Readmits(readmitted.value))
      else if stillSemantic.Some? then Major(RemovesAccepted(stillSemantic.value))
      else if ecma.None? then Indeterminate(EcmaUnavailable)
      else if ecma.value.before.None? || ecma.value.after.None? then Indeterminate(EcmaNotCovered)
      else if ecma.value.before.value != ecma.value.after.value then Major(LanguagesDiffer)
      else ValidatorParity
  }

  /** The two semantic checks can never be what refuses a change: the exact-guard
      precondition already implies them, on every pattern and every corpus. */
  lemma SemanticChecksNeverRefuse(before: Definition, after: Definition, values: seq<string>, ecma: Option<EcmaTable>)
    ensures match Classify(before, after, values, ecma)
            case Major(Readmits(_)) => false
            case Major(RemovesAccepted(_)) => false
            case _ => true
  {
    if after.pattern == Guarded(before.pattern) {
      forall v ensures Search(after.pattern, v, Python) ==> Search(before.pattern, v, Python)
               ensures FullMatch(before.pattern, v, Python) ==> Search(after.pattern, v, Python)
      {
        GuardIsSafe(before.pattern, v, Python);
      }
    }
  }

  /** A change classified as a parity correction narrows Python's language and never drops
      a value public semantics accepted, over all values and not just the corpus. */
  lemma ParityIsSafeEverywhere(before: Definition, after: Definition, values: seq<string>, ecma: Option<EcmaTable>,
                               v: string)
    requires Classify(before, after, values, ecma).ValidatorParity?
    ensures PyEq(before.keywords, after.keywords)
    ensures Search(after.pattern, v, Python) ==> Search(before.pattern, v, Python)
    ensures FullMatch(before.pattern, v, Python) ==> Search(after.pattern, v, Python)
  {
    GuardIsSafe(before.pattern, v, Python);
  }

  ghost function EcmaRow(r: Regex, values: seq<string>): seq<bool> {
    seq(|values|, i requires 0 <= i < |values| => Search(r, values[i], EcmaScript))
  }

  function Rows(o: seq<bool>, n: seq<bool>): Option<EcmaTable> { Some(EcmaTable(Some(o), Some(n))) }

  /** The two patterns accept the same corpus values under the strict reading. */
  ghost predicate AgreeOn(r: Regex, r': Regex, values: seq<string>) {
    forall v :: v in values ==> (Search(r, v, EcmaScript) <==> Search(r', v, EcmaScript))
  }

  lemma RowsAgree(r: Regex, r': Regex, values: seq<string>)
    ensures EcmaRow(r, values) == EcmaRow(r', values) <==> AgreeOn(r, r', values)
  {
    var a, b := EcmaRow(r, values), EcmaRow(r', values);
    if a == b {
      forall v | v in values ensures Search(r, v, EcmaScript) <==> Search(r', v, EcmaScript) {
        var i :| 0 <= i < |values| && values[i] == v;
        assert a[i] == b[i];
      }
    }
    if AgreeOn(r, r', values) {
      forall i | 0 <= i < |values| ensures a[i] == b[i] { assert values[i] in values; }
    }
  }

  /** Only the guard was appended. */
  ghost predicate OnlyGuarded(before: Definition, after: Definition) {
    after.pattern == Guarded(before.pattern) && PyEq(before.keywords, after.keywords)
  }

  lemma GuardedDiffers(r: Regex)
    ensures Guarded(r) != r
  {
    GuardedText(r);
    assert |Text(r) + GuardText| > |Text(r)|;
  }

  /** Parity, exactly, when the rows are what strict search says: only the guard was appended, and
      strict search accepts the same corpus values with and without it. */
  lemma ParityIff(before: Definition, after: Definition, values: seq<string>)
    ensures Classify(before, after, values, Rows(EcmaRow(before.pattern, values), EcmaRow(after.pattern, values)))
            == ValidatorParity <==>
            OnlyGuarded(before, after) && AgreeOn(before.pattern, after.pattern, values)
  {
    GuardedDiffers(before.pattern);
    RowsAgree(before.pattern, after.pattern, values);
    SemanticChecksNeverRefuse(before, after, values,
      Rows(EcmaRow(before.pattern, values), EcmaRow(after.pattern, values)));
  }

  /** A change to the pattern or a keyword is not reported unchanged, and a change by more than the
      guard is major whatever the other runtime says. */
  lemma MajorByDefault(before: Definition, after: Definition, values: seq<string>, ecma: Option<EcmaTable>)
    ensures Classify(before, after, values, ecma).Unchanged? <==>
            before.pattern == after.pattern && PyEq(before.keywords, after.keywords)
    ensures Classify(before, after, values, ecma).Unchanged? || OnlyGuarded(before, after) ||
            Classify(before, after, values, ecma).Major?
  {
    GuardedDiffers(before.pattern);
  }

  /** Without a row for each pattern a guarded change is undecided, never parity. */
  lemma MissingRowIsIndeterminate(before: Definition, after: Definition, values: seq<string>, ecma: Option<EcmaTable>)
    ensures Classify(before, after, values, ecma).Indeterminate? <==>
            OnlyGuarded(before, after) && (ecma.None? || ecma.value.before.None? || ecma.value.after.None?)
  {
    GuardedDiffers(before.pattern);
    SemanticChecksNeverRefuse(before, after, values, ecma);
  }

  /** A guarded change is major exactly when strict search loses a corpus value to the guard. */
  lemma LossIsMajor(before: Definition, after: Definition, values: seq<string>)
    requires OnlyGuarded(before, after)
    ensures Classify(before, after, values,
            Rows(EcmaRow(before.pattern, values), EcmaRow(after.pattern, values))).Major?
            <==>
            exists v :: v in values && Search(before.pattern, v, EcmaScript) && !Search(after.pattern, v, EcmaScript)
  {
    var ecma := Rows(EcmaRow(before.pattern, values), EcmaRow(after.pattern, values));
    ParityIff(before, after, values);
    MajorByDefault(before, after, values, ecma);
    MissingRowIsIndeterminate(before, after, values, ecma);
    GuardedDiffers(before.pattern);
    forall v | v in values ensures Search(after.pattern, v, EcmaScript) ==> Search(before.pattern, v, EcmaScript) {
      GuardIsSafe(before.pattern, v, EcmaScript);
    }
  }

  /** A pattern that is no alternation loses exactly the values it matches, but not to the end. */
  lemma LostToTheGuard(r: Regex, s: string, d: Dialect)
    requires !r.Alt?
    ensures Search(Guarded(r), s, d) <==> EndsAt(r, s, |s|, d)
  {
    SearchEnds(Guarded(r), s, d);
    if j :| 0 <= j <= |s| && EndsAt(Guarded(r), s, j, d) {
      var i :| 0 <= i <= j && Matches(Guarded(r), s, i, j, d);
      CatGuard(r, s, i, j, d);
    }
    if EndsAt(r, s, |s|, d) {
      var i :| 0 <= i <= |s| && Matches(r, s, i, |s|, d);
      CatGuard(r, s, i, |s|, d);
      assert EndsAt(Guarded(r), s, |s|, d);
    }
  }

  /** The pattern `a` is a language change: the strict reading drops `ab`. */
  lemma UnanchoredIsMajor(keywords: Json)
    ensures var a := Chars("a", {'a'}, false);
            Classify(Definition(a, keywords), Definition(Guarded(a), keywords), ["ab"],
                     Rows(EcmaRow(a, ["ab"]), EcmaRow(Guarded(a), ["ab"]))).Major?
  {
    var a := Chars("a", {'a'}, false);
    PyEqReflexive(keywords);
    assert Matches(a, "ab", 0, 1, EcmaScript);
    LostToTheGuard(a, "ab", EcmaScript);
    assert "ab" in ["ab"];
    LossIsMajor(Definition(a, keywords), Definition(Guarded(a), keywords), ["ab"]);
  }

  /** Guarding any pattern that ends in `$` is always classified as a parity correction
      once the other runtime has evaluated both patterns. */
  lemma AnchoredIsParity(q: Regex, keywords: Json, keywords': Json, values: seq<string>)
    requires PyEq(keywords, keywords')
    ensures var p := Cat(q, Dollar);
            Classify(Definition(p, keywords), Definition(Guarded(p), keywords'), values,
                     Some(EcmaTable(Some(EcmaRow(p, values)), Some(EcmaRow(Guarded(p), values)))))
            == ValidatorParity
  {
    var p := Cat(q, Dollar);
    forall i | 0 <= i < |values| ensures EcmaRow(p, values)[i] == EcmaRow(Guarded(p), values)[i] {
      AnchoredSearch(q, values[i], EcmaScript);
    }
    assert EcmaRow(p, values) == EcmaRow(Guarded(p), values);
    SemanticChecksNeverRefuse(Definition(p, keywords), Definition(Guarded(p), keywords'), values,
                              Some(EcmaTable(Some(EcmaRow(p, values)), Some(EcmaRow(Guarded(p), values)))));
  }
}
