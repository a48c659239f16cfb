/** Path redaction of `baseline/determinism.py`: ordered substring replacement, and why
    no registered root spelling survives it. */
module Redaction {

  // ----- cutting a text into kept characters and replaced stretches -----

  datatype Cut = Keep(c: char) | Sub(raw: string, token: string)

  function Source(cuts: seq<Cut>): string {
    if cuts == [] then [] else (if cuts[0].Keep? then [cuts[0].c] else cuts[0].raw) + Source(cuts[1..])
  }

  function Output(cuts: seq<Cut>): string {
    if cuts == [] then [] else (if cuts[0].Keep? then [cuts[0].c] else cuts[0].token) + Output(cuts[1..])
  }

  /** The cuts from `k` on keep `w`, character by character. */
  predicate KeptRun(cuts: seq<Cut>, k: nat, w: string) {
    k + |w| <= |cuts| && forall j :: 0 <= j < |w| ==> cuts[k + j] == Keep(w[j])
  }

  /** Tokens are written `<...>` and hold no slash. */
  predicate TokenOk(t: string) { t != [] && t[0] == '<' && '/' !in t }

  ghost predicate TokensOk(cuts: seq<Cut>) {
    forall k :: 0 <= k < |cuts| && cuts[k].Sub? ==> TokenOk(cuts[k].token)
  }

  ghost predicate OccursAt(w: string, s: string, i: nat) { i + |w| <= |s| && s[i..i + |w|] == w }
  ghost predicate Occurs(w: string, s: string) { exists i: nat :: OccursAt(w, s, i) }

  /** What starts the output without a `<` was kept. */
  lemma {:induction false} RunAtStart(cuts: seq<Cut>, w: string)
    requires TokensOk(cuts) && '<' !in w && w <= Output(cuts)
    ensures KeptRun(cuts, 0, w)
  {
    if w != [] {
      assert w[0] == Output(cuts)[0];
      assert cuts[0].Keep?;
      assert w[1..] <= Output(cuts[1..]) by { assert Output(cuts)[1..] == Output(cuts[1..]); }
      RunAtStart(cuts[1..], w[1..]);
      forall j | 0 <= j < |w| ensures cuts[j] == Keep(w[j]) {
        if j > 0 { assert cuts[1..][j - 1] == Keep(w[1..][j - 1]); }
      }
    }
  }

  /** A word such as an absolute path: it starts with a slash and holds no `<`. */
  predicate WordOk(w: string) { w != [] && w[0] == '/' && '<' !in w }

  /** A word in the output lies inside one kept stretch. */
  lemma {:induction false} OutputRun(cuts: seq<Cut>, w: string, i: nat) returns (k: nat)
    requires TokensOk(cuts) && WordOk(w) && OccursAt(w, Output(cuts), i)
    ensures KeptRun(cuts, k, w)
  {
    var piece := if cuts[0].Keep? then [cuts[0].c] else cuts[0].token;
    if i >= |piece| {
      assert Output(cuts[1..])[i - |piece|..i - |piece| + |w|] == w;
      var k' := OutputRun(cuts[1..], w, i - |piece|);
      k := k' + 1;
      forall j | 0 <= j < |w| ensures cuts[k + j] == Keep(w[j]) { assert cuts[1..][k' + j] == Keep(w[j]); }
    } else {
      assert Output(cuts)[i] == piece[i] == w[0];
      assert cuts[0].Keep? && i == 0;
      RunAtStart(cuts, w);
      k := 0;
    }
  }

  lemma KeptTail(cuts: seq<Cut>, k: nat, w: string)
    requires k > 0 && KeptRun(cuts, k, w)
    ensures KeptRun(cuts[1..], k - 1, w)
  {
    forall j | 0 <= j < |w| ensures cuts[1..][k - 1 + j] == Keep(w[j]) { assert cuts[k + j] == Keep(w[j]); }
  }

  /** Characters kept at the start are the start of the source. */
  lemma {:induction false} KeptPrefix(cuts: seq<Cut>, w: string)
    requires KeptRun(cuts, 0, w)
    ensures w <= Source(cuts)
  {
    if w != [] {
      assert cuts[0 + 0] == Keep(w[0]);
      forall j | 0 <= j < |w[1..]| ensures cuts[1..][0 + j] == Keep(w[1..][j]) {
        assert cuts[0 + (j + 1)] == Keep(w[j + 1]);
      }
      KeptPrefix(cuts[1..], w[1..]);
    }
  }

  /** A kept stretch is a stretch of the source. */
  lemma {:induction false} RunInSource(cuts: seq<Cut>, k: nat, w: string)
    requires KeptRun(cuts, k, w)
    ensures Occurs(w, Source(cuts))
    ensures k == 0 ==> w <= Source(cuts)
  {
    if k == 0 {
      KeptPrefix(cuts, w);
      assert OccursAt(w, Source(cuts), 0);
    } else {
      KeptTail(cuts, k, w);
      RunInSource(cuts[1..], k - 1, w);
      OccursLater(w, if cuts[0].Keep? then [cuts[0].c] else cuts[0].raw, Source(cuts[1..]));
    }
  }

  lemma OccursLater(w: string, head: string, tail: string)
    requires Occurs(w, tail)
    ensures Occurs(w, head + tail)
  {
    var i: nat :| OccursAt(w, tail, i);
    assert (head + tail)[|head| + i..|head| + i + |w|] == tail[i..i + |w|];
    assert OccursAt(w, head + tail, |head| + i);
  }

  /** Replacing stretches by tokens never creates a word. */
  lemma NoNewWord(cuts: seq<Cut>, w: string)
    requires TokensOk(cuts) && WordOk(w) && !Occurs(w, Source(cuts))
    ensures !Occurs(w, Output(cuts))
  {
    if Occurs(w, Output(cuts)) {
      var i: nat :| OccursAt(w, Output(cuts), i);
      var k := OutputRun(cuts, w, i);
      RunInSource(cuts, k, w);
    }
  }

  // ----- `str.replace` -----

  /** Leftmost non-overlapping occurrences of a non-empty `old_` are replaced. */
  function ReplaceCuts(s: string, old_: string, token: string): seq<Cut>
    decreases |s|
  {
    if s == [] then []
    else if old_ != [] && old_ <= s then [Sub(old_, token)] + ReplaceCuts(s[|old_|..], old_, token)
    else [Keep(s[0])] + ReplaceCuts(s[1..], old_, token)
  }

  function Replace(s: string, old_: string, token: string): string {
    Output(ReplaceCuts(s, old_, token))
  }

  lemma {:induction false} ReplaceSource(s: string, old_: string, token: string)
    requires old_ != []
    ensures Source(ReplaceCuts(s, old_, token)) == s
    decreases |s|
  {
    if s != [] {
      if old_ <= s {
        ReplaceSource(s[|old_|..], old_, token);
        assert s == old_ + s[|old_|..];
      } else {
        ReplaceSource(s[1..], old_, token);
      }
    }
  }

  lemma {:induction false} ReplaceTokens(s: string, old_: string, token: string)
    requires old_ != [] && TokenOk(token)
    ensures TokensOk(ReplaceCuts(s, old_, token))
    decreases |s|
  {
    if s != [] {
      if old_ <= s { ReplaceTokens(s[|old_|..], old_, token); } else { ReplaceTokens(s[1..], old_, token); }
    }
  }

  lemma {:induction false} ReplacedNotKept(s: string, old_: string, token: string, k: nat)
    requires old_ != []
    ensures !KeptRun(ReplaceCuts(s, old_, token), k, old_)
    decreases |s|
  {
    var cuts := ReplaceCuts(s, old_, token);
    if KeptRun(cuts, k, old_) {
      assert cuts[k + 0] == Keep(old_[0]);
      if k == 0 {
        RunInSource(cuts, 0, old_);
        ReplaceSource(s, old_, token);
      } else {
        forall j | 0 <= j < |old_| ensures cuts[1..][k - 1 + j] == Keep(old_[j]) {
          assert cuts[k + j] == Keep(old_[j]);
        }
        ReplacedNotKept(if old_ <= s then s[|old_|..] else s[1..], old_, token, k - 1);
      }
    }
  }

  /** After replacing a word it is gone, and no other word has appeared. */
  lemma ReplaceRemoves(s: string, old_: string, token: string, w: string)
    requires WordOk(old_) && TokenOk(token) && WordOk(w)
    ensures !Occurs(old_, Replace(s, old_, token))
    ensures !Occurs(w, s) ==> !Occurs(w, Replace(s, old_, token))
  {
    var cuts := ReplaceCuts(s, old_, token);
    ReplaceTokens(s, old_, token);
    ReplaceSource(s, old_, token);
    if Occurs(old_, Output(cuts)) {
      var i: nat :| OccursAt(old_, Output(cuts), i);
      var k := OutputRun(cuts, old_, i);
      ReplacedNotKept(s, old_, token, k);
    }
    if !Occurs(w, s) { NoNewWord(cuts, w); }
  }

  lemma {:induction false} ReplaceAbsent(s: string, old_: string, token: string)
    requires old_ != [] && !Occurs(old_, s)
    ensures Replace(s, old_, token) == s
    decreases |s|
  {
    if s != [] {
      AbsentTail(s, old_);
      ReplaceAbsent(s[1..], old_, token);
    }
  }

  lemma AbsentTail(s: string, w: string)
    requires s != [] && !Occurs(w, s)
    ensures !(w <= s) && !Occurs(w, s[1..])
  {
    assert w <= s ==> OccursAt(w, s, 0);
    assert s == [s[0]] + s[1..];
    if Occurs(w, s[1..]) { OccursLater(w, [s[0]], s[1..]); }
  }

  /** A replacement leaves a leading token alone. */
  lemma {:induction false} ReplaceAfterToken(t: string, rest: string, old_: string, token: string)
    requires WordOk(old_) && '/' !in t
    ensures Replace(t + rest, old_, token) == t + Replace(rest, old_, token)
  {
    if t == [] {
      assert t + rest == rest;
    } else {
      assert (t + rest)[0] == t[0] && (t + rest)[1..] == t[1..] + rest;
      assert !(old_ <= t + rest);
      ReplaceAfterToken(t[1..], rest, old_, token);
    }
  }

  // ----- the registered roots -----

  /** A spelling of a registered root and the name of its token. */
  datatype Root = Root(spelling: string, name: string)

  function TokenOf(r: Root): string { "<" + r.name + ">" }

  predicate RootOk(r: Root) { WordOk(r.spelling) && '/' !in r.name }

  /** `sorted(..., key=len, reverse=True)`, stable. */
  function InsertLong(sorted: seq<Root>, r: Root): seq<Root> {
    if sorted == [] || |sorted[|sorted| - 1].spelling| >= |r.spelling| then sorted + [r]
    else InsertLong(sorted[..|sorted| - 1], r) + [sorted[|sorted| - 1]]
  }

  function LongestFirst(roots: seq<Root>): seq<Root> {
    if roots == [] then [] else InsertLong(LongestFirst(roots[..|roots| - 1]), roots[|roots| - 1])
  }

  ghost predicate Descending(rs: seq<Root>) {
    forall i, j :: 0 <= i < j < |rs| ==> |rs[i].spelling| >= |rs[j].spelling|
  }

  lemma {:induction false} InsertLongSorted(sorted: seq<Root>, r: Root)
    requires Descending(sorted)
    ensures Descending(InsertLong(sorted, r))
    ensures forall x :: x in InsertLong(sorted, r) <==> x in sorted || x == r
  {
    if !(sorted == [] || |sorted[|sorted| - 1].spelling| >= |r.spelling|) {
      var front, last := sorted[..|sorted| - 1], sorted[|sorted| - 1];
      InsertLongSorted(front, r);
      assert sorted == front + [last];
      var placed := InsertLong(front, r);
      forall i | 0 <= i < |placed| ensures |placed[i].spelling| >= |last.spelling| {
        assert placed[i] in placed;
        if placed[i] in front { var j :| 0 <= j < |front| && front[j] == placed[i]; assert sorted[j] == front[j]; }
      }
    }
  }

  lemma {:induction false} LongestFirstSorted(roots: seq<Root>)
    ensures Descending(LongestFirst(roots))
    ensures forall x :: x in LongestFirst(roots) <==> x in roots
  {
    if roots != [] {
      LongestFirstSorted(roots[..|roots| - 1]);
      InsertLongSorted(LongestFirst(roots[..|roots| - 1]), roots[|roots| - 1]);
      assert roots == roots[..|roots| - 1] + [roots[|roots| - 1]];
    }
  }

  /** One replacement per root, in the given order. */
  function RedactIn(order: seq<Root>, s: string): string {
    if order == [] then s
    else
      var last := order[|order| - 1];
      Replace(RedactIn(order[..|order| - 1], s), last.spelling, TokenOf(last))
  }

  ghost predicate RootsOk(roots: seq<Root>) { forall r :: r in roots ==> RootOk(r) }

  function Redacted(roots: seq<Root>, s: string): string { RedactIn(LongestFirst(roots), s) }

  /** The text of a path is never empty. */
  ghost predicate Spelled(roots: seq<Root>) { forall r :: r in roots ==> r.spelling != [] }

  /** `_redact_paths`; `applied` says whether the redaction has to be reported. */
  method RedactPaths(roots: seq<Root>, value: string) returns (result: string, applied: bool)
    requires Spelled(roots)
    ensures result == Redacted(roots, value)
    ensures applied <==> exists r :: r in roots && Occurs(r.spelling, value)
  {
    LongestFirstSorted(roots);
    var order := LongestFirst(roots);
    result, applied := value, false;
    for i := 0 to |order|
      invariant result == RedactIn(order[..i], value)
      invariant !applied ==> result == value && forall k :: 0 <= k < i ==> !Occurs(order[k].spelling, value)
      invariant applied ==> exists r :: r in roots && Occurs(r.spelling, value)
    {
      var r := order[i];
      RedactNext(order, i + 1, value);
      assert r in roots;
      var found := Contains(result, r.spelling);
      if found {
        if applied == false { assert Occurs(r.spelling, value); }
        result := Replace(result, r.spelling, TokenOf(r));
        applied := true;
      } else {
        ReplaceAbsent(result, r.spelling, TokenOf(r));
      }
    }
    assert order[..|order|] == order;
    if !applied {
      forall r | r in roots ensures !Occurs(r.spelling, value) {
        assert r in order;
      }
    }
  }

  /** `w in s` */
  method Contains(s: string, w: string) returns (found: bool)
    ensures found <==> Occurs(w, s)
  {
    found := false;
    var i := 0;
    while i + |w| <= |s|
      invariant !found && forall k :: 0 <= k < i ==> !OccursAt(w, s, k)
    {
      if s[i..i + |w|] == w {
        assert OccursAt(w, s, i);
        return true;
      }
      i := i + 1;
    }
  }

  /** What does not occur before redaction does not occur after it. */
  lemma {:induction false} RedactKeepsAbsent(order: seq<Root>, s: string, w: string)
    requires RootsOk(order) && WordOk(w) && !Occurs(w, s)
    ensures !Occurs(w, RedactIn(order, s))
  {
    if order != [] {
      var front, last := order[..|order| - 1], order[|order| - 1];
      RedactKeepsAbsent(front, s, w);
      assert RootOk(last);
      ReplaceRemoves(RedactIn(front, s), last.spelling, TokenOf(last), w);
    }
  }

  lemma {:induction false} RedactRemoves(order: seq<Root>, s: string, r: Root)
    requires RootsOk(order) && r in order
    ensures !Occurs(r.spelling, RedactIn(order, s))
  {
    var front, last := order[..|order| - 1], order[|order| - 1];
    assert RootOk(last) && RootOk(r);
    if r == last {
      ReplaceRemoves(RedactIn(front, s), last.spelling, TokenOf(last), last.spelling);
    } else {
      assert r in front;
      RedactRemoves(front, s, r);
      ReplaceRemoves(RedactIn(front, s), last.spelling, TokenOf(last), r.spelling);
    }
  }

  lemma {:induction false} RedactAbsent(order: seq<Root>, s: string)
    requires RootsOk(order) && forall r :: r in order ==> !Occurs(r.spelling, s)
    ensures RedactIn(order, s) == s
  {
    if order != [] {
      RedactAbsent(order[..|order| - 1], s);
      ReplaceAbsent(s, order[|order| - 1].spelling, TokenOf(order[|order| - 1]));
    }
  }

  /** After redaction no registered spelling remains anywhere. */
  lemma RedactionIsClean(roots: seq<Root>, s: string, r: Root)
    requires RootsOk(roots) && r in roots
    ensures !Occurs(r.spelling, Redacted(roots, s))
  {
    LongestFirstSorted(roots);
    RedactRemoves(LongestFirst(roots), s, r);
  }

  /** Redacting again changes nothing. */
  lemma RedactionIdempotent(roots: seq<Root>, s: string)
    requires RootsOk(roots)
    ensures Redacted(roots, Redacted(roots, s)) == Redacted(roots, s)
  {
    LongestFirstSorted(roots);
    var order := LongestFirst(roots);
    forall r | r in order ensures !Occurs(r.spelling, Redacted(roots, s)) { RedactRemoves(order, s, r); }
    RedactAbsent(order, Redacted(roots, s));
  }

  /** A value below a root gets that root's token, unless a registered spelling at least as long
      also occurs in it: a nested root wins over its parent. */
  lemma LongestRootWins(roots: seq<Root>, r: Root, tail: string)
    requires RootsOk(roots) && r in roots && Longest(roots, r, r.spelling + tail)
    ensures TokenOf(r) <= Redacted(roots, r.spelling + tail)
  {
    LongestFirstSorted(roots);
    var order := LongestFirst(roots);
    WinsIn(order, r, tail, |order|);
    assert order[..|order|] == order;
  }

  /** One turn of the loop before `r`'s own. */
  lemma NotYet(order: seq<Root>, r: Root, n: nat, s: string)
    requires RootsOk(order) && Descending(order) && r in order && 0 < n <= |order| && r !in order[..n]
    requires forall x :: x in order && x != r && |x.spelling| >= |r.spelling| ==> !Occurs(x.spelling, s)
    ensures Replace(s, order[n - 1].spelling, TokenOf(order[n - 1])) == s
  {
    var x := order[n - 1];
    var j :| 0 <= j < |order| && order[j] == r;
    assert x in order[..n] by { assert order[..n][n - 1] == x; }
    assert forall i :: 0 <= i < n ==> order[i] in order[..n];
    assert j >= n;
    assert x in order && |x.spelling| >= |r.spelling| && RootOk(x);
    ReplaceAbsent(s, x.spelling, TokenOf(x));
  }

  /** One turn of the loop after the token of `r` has been put in front. */
  lemma TokenStays(r: Root, x: Root, done: string)
    requires RootOk(x) && RootOk(r) && TokenOf(r) <= done
    ensures TokenOf(r) <= Replace(done, x.spelling, TokenOf(x))
  {
    var t := TokenOf(r);
    assert done == t + done[|t|..];
    ReplaceAfterToken(t, done[|t|..], x.spelling, TokenOf(x));
  }

  lemma RedactNext(order: seq<Root>, n: nat, s: string)
    requires 0 < n <= |order|
    ensures RedactIn(order[..n], s) ==
            Replace(RedactIn(order[..n - 1], s), order[n - 1].spelling, TokenOf(order[n - 1]))
    ensures forall x :: x in order[..n] <==> x in order[..n - 1] || x == order[n - 1]
  {
    assert order[..n] == order[..n - 1] + [order[n - 1]] && order[..n][..n - 1] == order[..n - 1];
  }

  /** No spelling at least as long as `r`'s, other than its own, occurs in `s`. */
  ghost predicate Longest(order: seq<Root>, r: Root, s: string) {
    forall x :: x in order && x != r && |x.spelling| >= |r.spelling| ==> !Occurs(x.spelling, s)
  }

  /** Along the loop: nothing happens before `r`'s turn, and its token stays in front after it. */
  lemma {:induction false} WinsIn(order: seq<Root>, r: Root, tail: string, n: nat)
    requires RootsOk(order) && Descending(order) && r in order && n <= |order| && Longest(order, r, r.spelling + tail)
    ensures r in order[..n] ==> TokenOf(r) <= RedactIn(order[..n], r.spelling + tail)
    ensures r !in order[..n] ==> RedactIn(order[..n], r.spelling + tail) == r.spelling + tail
  {
    if n > 0 {
      WinsIn(order, r, tail, n - 1);
      RedactNext(order, n, r.spelling + tail);
      WinsNext(order, r, tail, n, RedactIn(order[..n - 1], r.spelling + tail));
    }
  }

  lemma WinsNext(order: seq<Root>, r: Root, tail: string, n: nat, before: string)
    requires RootsOk(order) && Descending(order) && r in order && 0 < n <= |order|
    requires Longest(order, r, r.spelling + tail)
    requires r in order[..n - 1] ==> TokenOf(r) <= before
    requires r !in order[..n - 1] ==> before == r.spelling + tail
    ensures var x := order[n - 1]; var after := Replace(before, x.spelling, TokenOf(x));
            && (r in order[..n] ==> TokenOf(r) <= after)
            && (r !in order[..n] ==> after == r.spelling + tail)
  {
    var x := order[n - 1];
    assert x in order && RootOk(x) && RootOk(r);
    assert order[..n] == order[..n - 1] + [x];
    if r in order[..n - 1] {
      TokenStays(r, x, before);
    } else if x == r {
      ReplacesPrefix(r, tail);
    } else {
      NotYet(order, r, n, before);
    }
  }

  lemma ReplacesPrefix(r: Root, tail: string)
    requires RootOk(r)
    ensures TokenOf(r) <= Replace(r.spelling + tail, r.spelling, TokenOf(r))
  {
    assert r.spelling <= r.spelling + tail;
  }
}
