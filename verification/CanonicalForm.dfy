/** Why first-appearance numbering is a canonical form: texts as pieces (literal character,
    identifier, timestamp), numbered rendering, and renamings of identifiers. */
module CanonicalForm {
  import opened Redaction
  import opened Tokens

  datatype Piece = Lit(c: char) | Id(u: string) | Stamp

  // ----- pieces of a text -----

  /** Leftmost non-overlapping identifiers, everything else literal. */
  function IdPieces(s: string): seq<Piece>
    decreases |s|
  {
    if s == [] then []
    else if UuidAt(s) then [Id(s[..UUID_LENGTH])] + IdPieces(s[UUID_LENGTH..])
    else [Lit(s[0])] + IdPieces(s[1..])
  }

  function Literal(s: string): seq<Piece> { seq(|s|, i requires 0 <= i < |s| => Lit(s[i])) }

  /** The characters before the first identifier. */
  function LitPrefix(ps: seq<Piece>): (a: string)
    ensures |a| <= |ps|
  {
    if ps == [] || !ps[0].Lit? then [] else [ps[0].c] + LitPrefix(ps[1..])
  }

  /** Timestamps found in literal text become one piece each. */
  function Collapse(ps: seq<Piece>): seq<Piece>
    decreases |ps|
  {
    if ps == [] then []
    else
      var n := StampLength(LitPrefix(ps));
      if n > 0 then [Stamp] + Collapse(ps[n..]) else [ps[0]] + Collapse(ps[1..])
  }

  // ----- numbering in order of first appearance -----

  ghost predicate Distinct(order: seq<string>) { forall i, j :: 0 <= i < j < |order| ==> order[i] != order[j] }

  function Index(order: seq<string>, u: string): (i: nat)
    requires u in order
    ensures i < |order| && order[i] == u
  {
    if order[0] == u then 0 else 1 + Index(order[1..], u)
  }

  lemma IndexUnique(order: seq<string>, i: nat)
    requires Distinct(order) && i < |order|
    ensures Index(order, order[i]) == i
  {
  }

  function Extend(order: seq<string>, ps: seq<Piece>): seq<string> {
    if ps == [] then order
    else
      var p := ps[|ps| - 1];
      var before := Extend(order, ps[..|ps| - 1]);
      if p.Id? && p.u !in before then before + [p.u] else before
  }

  ghost predicate Known(ps: seq<Piece>, order: seq<string>) {
    forall k :: 0 <= k < |ps| && ps[k].Id? ==> ps[k].u in order
  }

  lemma {:induction false} ExtendGrows(order: seq<string>, ps: seq<Piece>)
    ensures order <= Extend(order, ps) && Known(ps, Extend(order, ps))
    ensures Distinct(order) ==> Distinct(Extend(order, ps))
    ensures forall u :: u in Extend(order, ps) ==> u in order || exists k :: 0 <= k < |ps| && ps[k] == Id(u)
  {
    if ps != [] {
      var front, p := ps[..|ps| - 1], ps[|ps| - 1];
      ExtendGrows(order, front);
      assert ps == front + [p];
      forall u | u in Extend(order, ps) ensures u in order || exists k :: 0 <= k < |ps| && ps[k] == Id(u) {
        if u in Extend(order, front) {
          if u !in order {
            var k :| 0 <= k < |front| && front[k] == Id(u);
            assert ps[k] == Id(u);
          }
        } else {
          assert ps[|ps| - 1] == Id(u);
        }
      }
    }
  }

  lemma {:induction false} ExtendAppend(order: seq<string>, ps: seq<Piece>, qs: seq<Piece>)
    ensures Extend(order, ps + qs) == Extend(Extend(order, ps), qs)
  {
    if qs == [] {
      assert ps + qs == ps;
    } else {
      assert (ps + qs)[..|ps + qs| - 1] == ps + qs[..|qs| - 1];
      ExtendAppend(order, ps, qs[..|qs| - 1]);
    }
  }

  lemma IndexStable(order: seq<string>, order': seq<string>, u: string)
    requires u in order && order <= order'
    ensures u in order' && Index(order', u) == Index(order, u)
  {
    if order[0] != u {
      assert order'[0] == order[0] && order[1..] <= order'[1..] && u in order[1..];
      IndexStable(order[1..], order'[1..], u);
    }
  }

  // ----- rendering -----

  function CutOf(p: Piece, order: seq<string>): Cut
    requires p.Id? ==> p.u in order
  {
    match p
    case Lit(c) => Keep(c)
    case Id(u) => Sub(u, UuidToken(Index(order, u) + 1))
    case Stamp => Sub([], STAMP)
  }

  function Cuts(ps: seq<Piece>, order: seq<string>): seq<Cut>
    requires Known(ps, order)
  {
    seq(|ps|, k requires 0 <= k < |ps| => CutOf(ps[k], order))
  }

  /** The text of pieces whose identifiers are numbered by `order`. */
  function Render(ps: seq<Piece>, order: seq<string>): string
    requires Known(ps, order)
  {
    Output(Cuts(ps, order))
  }

  function RenderOne(p: Piece, order: seq<string>): string
    requires p.Id? ==> p.u in order
  {
    match p
    case Lit(c) => [c]
    case Id(u) => UuidToken(Index(order, u) + 1)
    case Stamp => STAMP
  }

  lemma RenderCons(ps: seq<Piece>, order: seq<string>)
    requires ps != [] && Known(ps, order)
    ensures Known(ps[1..], order) && Render(ps, order) == RenderOne(ps[0], order) + Render(ps[1..], order)
  {
    assert Cuts(ps, order)[1..] == Cuts(ps[1..], order);
  }

  lemma RenderAppend(ps: seq<Piece>, qs: seq<Piece>, order: seq<string>)
    requires Known(ps, order) && Known(qs, order)
    ensures Known(ps + qs, order) && Render(ps + qs, order) == Render(ps, order) + Render(qs, order)
  {
    assert Cuts(ps + qs, order) == Cuts(ps, order) + Cuts(qs, order);
    OutputAppend(Cuts(ps, order), Cuts(qs, order));
  }

  lemma {:induction false} OutputAppend(a: seq<Cut>, b: seq<Cut>)
    ensures Output(a + b) == Output(a) + Output(b)
  {
    if a == [] {
      assert a + b == b;
    } else {
      OutputAppend(a[1..], b);
      assert (a + b)[1..] == a[1..] + b && (a + b)[0] == a[0];
    }
  }

  lemma RenderGrow(ps: seq<Piece>, order: seq<string>, order': seq<string>)
    requires Known(ps, order) && order <= order'
    ensures Known(ps, order') && Render(ps, order) == Render(ps, order')
  {
    forall k | 0 <= k < |ps| && ps[k].Id? ensures ps[k].u in order' && Index(order', ps[k].u) == Index(order, ps[k].u) {
      IndexStable(order, order', ps[k].u);
    }
    assert Cuts(ps, order) == Cuts(ps, order');
  }

  lemma CutsOk(ps: seq<Piece>, order: seq<string>)
    requires Known(ps, order)
    ensures TokensOk(Cuts(ps, order))
  {
    forall k | 0 <= k < |ps| && ps[k].Id? ensures TokenOk(Cuts(ps, order)[k].token) {
      UuidTokenOk(Index(order, ps[k].u) + 1);
    }
  }

  // ----- the timestamp pass on rendered text -----

  /** Literal pieces at the front are characters at the front. */
  lemma {:induction false} DropPrefix(ps: seq<Piece>, order: seq<string>, n: nat)
    requires Known(ps, order) && n <= |LitPrefix(ps)|
    ensures Known(ps[n..], order) && Render(ps, order) == LitPrefix(ps)[..n] + Render(ps[n..], order)
  {
    if n == 0 {
      assert ps[0..] == ps;
    } else {
      DropPrefix(ps[1..], order, n - 1);
      assert ps[n..] == ps[1..][n - 1..];
      DropOne(ps, order, n);
    }
  }

  lemma DropOne(ps: seq<Piece>, order: seq<string>, n: nat)
    requires Known(ps, order) && 0 < n <= |LitPrefix(ps)|
    requires Known(ps[n..], order) && n - 1 <= |LitPrefix(ps[1..])|
    requires Known(ps[1..], order)
    requires Render(ps[1..], order) == LitPrefix(ps[1..])[..n - 1] + Render(ps[n..], order)
    ensures Render(ps, order) == LitPrefix(ps)[..n] + Render(ps[n..], order)
  {
    RenderCons(ps, order);
    PrefixCons(ps, n);
    CharacterFirst(ps[0].c, LitPrefix(ps[1..])[..n - 1], Render(ps[n..], order));
  }

  lemma PrefixCons(ps: seq<Piece>, n: nat)
    requires 0 < n <= |LitPrefix(ps)|
    ensures ps != [] && ps[0].Lit? && n - 1 <= |LitPrefix(ps[1..])|
    ensures LitPrefix(ps)[..n] == [ps[0].c] + LitPrefix(ps[1..])[..n - 1]
  {
  }

  lemma CharacterFirst(c: char, s: string, rest: string)
    ensures [c] + (s + rest) == ([c] + s) + rest
  {
  }

  lemma {:induction false} AfterPrefix(ps: seq<Piece>)
    ensures var rest := ps[|LitPrefix(ps)|..]; rest == [] || !rest[0].Lit?
  {
    if ps != [] && ps[0].Lit? {
      AfterPrefix(ps[1..]);
      assert ps[|LitPrefix(ps)|..] == ps[1..][|LitPrefix(ps[1..])|..];
    }
  }

  /** Rendered text is its literal prefix, then the end or a token. */
  lemma PrefixThenToken(ps: seq<Piece>, order: seq<string>)
    requires Known(ps, order)
    ensures var a := LitPrefix(ps);
            var rest := ps[|a|..];
            && Known(rest, order) && Render(ps, order) == a + Render(rest, order)
            && (Render(rest, order) == [] || Render(rest, order)[0] == '<')
  {
    var a := LitPrefix(ps);
    DropPrefix(ps, order, |a|);
    assert a[..|a|] == a;
    AfterPrefix(ps);
    if ps[|a|..] != [] { TokenStart(ps[|a|..], order); }
  }

  lemma TokenStart(ps: seq<Piece>, order: seq<string>)
    requires ps != [] && !ps[0].Lit? && Known(ps, order)
    ensures Render(ps, order) != [] && Render(ps, order)[0] == '<'
  {
    RenderCons(ps, order);
    if ps[0].Id? { UuidTokenOk(Index(order, ps[0].u) + 1); }
  }

  lemma {:induction false} CollapseKnown(ps: seq<Piece>, order: seq<string>)
    requires Known(ps, order)
    ensures Known(Collapse(ps), order)
    decreases |ps|
  {
    if ps != [] {
      var n := StampLength(LitPrefix(ps));
      CollapseKnown(ps[if n > 0 then n else 1..], order);
    }
  }

  /** Redacting timestamps in rendered text is rendering the collapsed pieces. */
  lemma {:induction false} StampedRender(ps: seq<Piece>, order: seq<string>)
    requires Known(ps, order) && forall k :: 0 <= k < |ps| ==> !ps[k].Stamp?
    ensures Known(Collapse(ps), order) && Stamped(Render(ps, order)) == Render(Collapse(ps), order)
    decreases |ps|
  {
    CollapseKnown(ps, order);
    if ps != [] {
      var a := LitPrefix(ps);
      var n := StampLength(a);
      PrefixThenToken(ps, order);
      DropPrefix(ps, order, n);
      StampStops(a, Render(ps[|a|..], order));
      RenderCons(Collapse(ps), order);
      if n > 0 {
        StampedRender(ps[n..], order);
        assert Collapse(ps)[1..] == Collapse(ps[n..]);
      } else {
        StampedRender(ps[1..], order);
        assert Collapse(ps)[1..] == Collapse(ps[1..]);
        RenderCons(ps, order);
        if ps[0].Id? { StampedToken(Index(order, ps[0].u) + 1, Render(ps[1..], order)); }
      }
    }
  }

  lemma {:induction false} IdPiecesNoStamp(s: string)
    ensures forall k :: 0 <= k < |IdPieces(s)| ==> !IdPieces(s)[k].Stamp?
    decreases |s|
  {
    if s != [] { IdPiecesNoStamp(if UuidAt(s) then s[UUID_LENGTH..] else s[1..]); }
  }

  /** Collapsing timestamps leaves the identifiers and their order alone. */
  lemma {:induction false} CollapseSameIds(order: seq<string>, ps: seq<Piece>)
    ensures Extend(order, Collapse(ps)) == Extend(order, ps)
    decreases |ps|
  {
    if ps != [] {
      var n := StampLength(LitPrefix(ps));
      if n > 0 {
        CollapseSameIds(order, ps[n..]);
        SameAfterStamp(order, ps, n, Collapse(ps[n..]));
      } else {
        CollapseSameIds(Extend(order, [ps[0]]), ps[1..]);
        SameAfterHead(order, ps, Collapse(ps[1..]));
      }
    }
  }

  lemma SameAfterStamp(order: seq<string>, ps: seq<Piece>, n: nat, rest: seq<Piece>)
    requires n <= |LitPrefix(ps)| && Extend(order, rest) == Extend(order, ps[n..])
    ensures Extend(order, [Stamp] + rest) == Extend(order, ps)
  {
    LiteralsAddNothing(order, ps, n);
    StampAddsNothing(order, rest);
    ExtendAppend(order, ps[..n], ps[n..]);
    assert ps == ps[..n] + ps[n..];
  }

  lemma SameAfterHead(order: seq<string>, ps: seq<Piece>, rest: seq<Piece>)
    requires ps != [] && Extend(Extend(order, [ps[0]]), rest) == Extend(Extend(order, [ps[0]]), ps[1..])
    ensures Extend(order, [ps[0]] + rest) == Extend(order, ps)
  {
    ExtendAppend(order, [ps[0]], rest);
    ExtendAppend(order, [ps[0]], ps[1..]);
    assert ps == [ps[0]] + ps[1..];
  }

  lemma StampAddsNothing(order: seq<string>, ps: seq<Piece>)
    ensures Extend(order, [Stamp] + ps) == Extend(order, ps)
  {
    ExtendAppend(order, [Stamp], ps);
    assert [Stamp][..0] == [] && Extend(order, [Stamp][..0]) == order;
  }

  lemma {:induction false} LiteralsAddNothing(order: seq<string>, ps: seq<Piece>, n: nat)
    requires n <= |LitPrefix(ps)|
    ensures Extend(order, ps[..n]) == order
  {
    if n > 0 {
      LiteralsAddNothing(order, ps, n - 1);
      PrefixIsLiteral(ps, n - 1);
      assert ps[..n][..n - 1] == ps[..n - 1];
    }
  }

  lemma {:induction false} PrefixIsLiteral(ps: seq<Piece>, k: nat)
    requires k < |LitPrefix(ps)|
    ensures ps[k] == Lit(LitPrefix(ps)[k])
  {
    if k > 0 { PrefixIsLiteral(ps[1..], k - 1); }
  }

  // ----- reading rendered text back -----

  /** The pieces from `k` on spell `w` in literal characters. */
  ghost predicate LitRun(ps: seq<Piece>, k: nat, w: string) {
    k + |w| <= |ps| && forall j :: 0 <= j < |w| ==> ps[k + j] == Lit(w[j])
  }

  const UUID_HEAD := "<uuid-"

  /** No literal text looks like the start of a token. */
  ghost predicate NoTokenText(ps: seq<Piece>) {
    forall k: nat :: !LitRun(ps, k, UUID_HEAD) && !LitRun(ps, k, STAMP)
  }

  lemma NoTokenTail(ps: seq<Piece>)
    requires ps != [] && NoTokenText(ps)
    ensures NoTokenText(ps[1..])
  {
    forall k: nat, w: string | LitRun(ps[1..], k, w) ensures LitRun(ps, k + 1, w) {
      forall j | 0 <= j < |w| ensures ps[k + 1 + j] == Lit(w[j]) { assert ps[1..][k + j] == Lit(w[j]); }
    }
  }

  /** Text that starts with a literal spells a token head only literally. */
  lemma LitHead(ps: seq<Piece>, order: seq<string>, w: string)
    requires ps != [] && ps[0].Lit? && Known(ps, order) && w != [] && '<' !in w[1..] && w <= Render(ps, order)
    ensures LitRun(ps, 0, w)
  {
    RenderCons(ps, order);
    CutsOk(ps[1..], order);
    var cuts := Cuts(ps[1..], order);
    assert w[1..] <= Output(cuts) by { assert Render(ps, order)[1..] == Output(cuts); }
    RunAtStart(cuts, w[1..]);
    assert w[0] == Render(ps, order)[0] == ps[0].c;
    forall j | 0 <= j < |w| ensures ps[0 + j] == Lit(w[j]) {
      if j > 0 { assert cuts[0 + (j - 1)] == Keep(w[1..][j - 1]) && cuts[j - 1] == CutOf(ps[1..][j - 1], order); }
    }
  }

  /** The text decides what kind of piece comes first. */
  lemma HeadKind(ps: seq<Piece>, order: seq<string>)
    requires ps != [] && Known(ps, order) && NoTokenText(ps)
    ensures ps[0].Id? <==> UUID_HEAD <= Render(ps, order)
    ensures ps[0].Stamp? <==> STAMP <= Render(ps, order)
    ensures Render(ps, order) != []
  {
    RenderCons(ps, order);
    var s := Render(ps, order);
    assert !LitRun(ps, 0, UUID_HEAD) && !LitRun(ps, 0, STAMP);
    if ps[0].Lit? && UUID_HEAD <= s { LitHead(ps, order, UUID_HEAD); }
    if ps[0].Lit? && STAMP <= s { LitHead(ps, order, STAMP); }
    assert UUID_HEAD <= s ==> s[1] == 'u';
    assert STAMP <= s ==> s[1] == 't';
  }

  /** The same pieces, with identifiers that have the same number. */
  ghost predicate SamePiece(p: Piece, order: seq<string>, q: Piece, order': seq<string>) {
    match p
    case Lit(_) => q == p
    case Stamp => q == p
    case Id(u) => q.Id? && u in order && q.u in order' && Index(order, u) == Index(order', q.u)
  }

  ghost predicate SamePieces(ps: seq<Piece>, order: seq<string>, qs: seq<Piece>, order': seq<string>) {
    |ps| == |qs| && forall k :: 0 <= k < |ps| ==> SamePiece(ps[k], order, qs[k], order')
  }

  lemma HeadsAgree(ps: seq<Piece>, order: seq<string>, qs: seq<Piece>, order': seq<string>)
    requires ps != [] && qs != [] && Known(ps, order) && Known(qs, order') && NoTokenText(ps) && NoTokenText(qs)
    requires Render(ps, order) == Render(qs, order')
    ensures SamePiece(ps[0], order, qs[0], order')
    ensures Known(ps[1..], order) && Known(qs[1..], order') && Render(ps[1..], order) == Render(qs[1..], order')
  {
    HeadKind(ps, order);
    HeadKind(qs, order');
    RenderCons(ps, order);
    RenderCons(qs, order');
    var r, r' := Render(ps[1..], order), Render(qs[1..], order');
    match ps[0]
    case Id(u) => UuidTokenRead(Index(order, u) + 1, Index(order', qs[0].u) + 1, r, r');
    case Lit(c) => assert Render(ps, order)[0] == c && Render(ps, order)[1..] == r && Render(qs, order')[1..] == r';
    case Stamp => assert Render(ps, order)[|STAMP|..] == r && Render(qs, order')[|STAMP|..] == r';
  }

  /** Equal text means equal pieces, identifiers compared by number. */
  lemma {:induction false} RenderInjective(ps: seq<Piece>, order: seq<string>, qs: seq<Piece>, order': seq<string>)
    requires Known(ps, order) && Known(qs, order') && NoTokenText(ps) && NoTokenText(qs)
    requires Render(ps, order) == Render(qs, order')
    ensures SamePieces(ps, order, qs, order')
  {
    if ps == [] || qs == [] {
      if ps != [] { HeadKind(ps, order); }
      if qs != [] { HeadKind(qs, order'); }
    } else {
      HeadsAgree(ps, order, qs, order');
      NoTokenTail(ps);
      NoTokenTail(qs);
      RenderInjective(ps[1..], order, qs[1..], order');
      forall k | 0 <= k < |ps| ensures |ps| == |qs| && SamePiece(ps[k], order, qs[k], order') {
        if k > 0 { assert ps[k] == ps[1..][k - 1] && qs[k] == qs[1..][k - 1]; }
      }
    }
  }

  // ----- renaming identifiers -----

  type Renaming = map<string, string>

  ghost predicate OneToOne(rho: Renaming) { forall u, v :: u in rho && v in rho && rho[u] == rho[v] ==> u == v }

  ghost predicate Covers(rho: Renaming, ps: seq<Piece>) { forall k :: 0 <= k < |ps| && ps[k].Id? ==> ps[k].u in rho }

  function RenameOne(rho: Renaming, p: Piece): Piece { if p.Id? && p.u in rho then Id(rho[p.u]) else p }

  function Rename(rho: Renaming, ps: seq<Piece>): seq<Piece> {
    seq(|ps|, k requires 0 <= k < |ps| => RenameOne(rho, ps[k]))
  }

  ghost predicate Within(rho: Renaming, order: seq<string>) { forall i :: 0 <= i < |order| ==> order[i] in rho }

  function Renamed(rho: Renaming, order: seq<string>): seq<string>
    requires Within(rho, order)
  {
    seq(|order|, i requires 0 <= i < |order| => rho[order[i]])
  }

  lemma RenamedIn(rho: Renaming, order: seq<string>, u: string)
    requires OneToOne(rho) && Within(rho, order) && u in rho
    ensures u in order <==> rho[u] in Renamed(rho, order)
  {
    if u in order { var i :| 0 <= i < |order| && order[i] == u; assert Renamed(rho, order)[i] == rho[u]; }
    if rho[u] in Renamed(rho, order) {
      var i :| 0 <= i < |order| && Renamed(rho, order)[i] == rho[u];
      assert order[i] in rho;
    }
  }

  lemma {:induction false} IndexRenamed(rho: Renaming, order: seq<string>, u: string)
    requires OneToOne(rho) && Within(rho, order) && u in order
    ensures rho[u] in Renamed(rho, order) && Index(Renamed(rho, order), rho[u]) == Index(order, u)
  {
    RenamedIn(rho, order, u);
    assert order[0] in rho;
    if order[0] != u {
      assert Renamed(rho, order)[1..] == Renamed(rho, order[1..]);
      IndexRenamed(rho, order[1..], u);
    }
  }

  /** Numbering commutes with a one-to-one renaming. */
  lemma {:induction false} ExtendRenamed(rho: Renaming, order: seq<string>, ps: seq<Piece>)
    requires OneToOne(rho) && Within(rho, order) && Covers(rho, ps)
    ensures Within(rho, Extend(order, ps))
    ensures Extend(Renamed(rho, order), Rename(rho, ps)) == Renamed(rho, Extend(order, ps))
  {
    if ps != [] {
      var front, p := ps[..|ps| - 1], ps[|ps| - 1];
      ExtendRenamed(rho, order, front);
      assert Rename(rho, ps)[..|ps| - 1] == Rename(rho, front);
      if p.Id? { RenamedIn(rho, Extend(order, front), p.u); }
    }
  }

  lemma RenderRenamed(rho: Renaming, order: seq<string>, ps: seq<Piece>)
    requires OneToOne(rho) && Within(rho, order) && Known(ps, order)
    ensures Known(Rename(rho, ps), Renamed(rho, order))
    ensures Render(Rename(rho, ps), Renamed(rho, order)) == Render(ps, order)
  {
    var qs, order' := Rename(rho, ps), Renamed(rho, order);
    RenamedKnown(rho, order, ps);
    assert |Cuts(qs, order')| == |Cuts(ps, order)|;
    SameOutput(Cuts(qs, order'), Cuts(ps, order));
  }

  lemma RenamedKnown(rho: Renaming, order: seq<string>, ps: seq<Piece>)
    requires OneToOne(rho) && Within(rho, order) && Known(ps, order)
    ensures var qs, order' := Rename(rho, ps), Renamed(rho, order);
            && Known(qs, order')
            && forall k :: 0 <= k < |ps| && ps[k].Id? ==> qs[k].Id? && Index(order', qs[k].u) == Index(order, ps[k].u)
  {
    var qs, order' := Rename(rho, ps), Renamed(rho, order);
    forall k | 0 <= k < |ps| && ps[k].Id?
      ensures qs[k].Id? && qs[k].u in order' && Index(order', qs[k].u) == Index(order, ps[k].u) {
      var i :| 0 <= i < |order| && order[i] == ps[k].u;
      IndexRenamed(rho, order, ps[k].u);
    }
    forall k | 0 <= k < |qs| && qs[k].Id? ensures qs[k].u in order' { assert ps[k].Id?; }
  }

  lemma {:induction false} SameOutput(a: seq<Cut>, b: seq<Cut>)
    requires |a| == |b| && forall k :: 0 <= k < |a| ==> CutText(a[k]) == CutText(b[k])
    ensures Output(a) == Output(b)
  {
    if a != [] {
      assert CutText(a[0]) == CutText(b[0]);
      SameOutput(a[1..], b[1..]);
    }
  }

  function CutText(c: Cut): string { if c.Keep? then [c.c] else c.token }

  // ----- many texts, one numbering -----

  function ExtendAll(order: seq<string>, pss: seq<seq<Piece>>): seq<string> {
    if pss == [] then order else Extend(ExtendAll(order, pss[..|pss| - 1]), pss[|pss| - 1])
  }

  lemma {:induction false} ExtendAllGrows(order: seq<string>, pss: seq<seq<Piece>>)
    ensures order <= ExtendAll(order, pss)
    ensures Distinct(order) ==> Distinct(ExtendAll(order, pss))
    ensures forall i :: 0 <= i < |pss| ==> Known(pss[i], ExtendAll(order, pss))
  {
    if pss != [] {
      var front, last := pss[..|pss| - 1], pss[|pss| - 1];
      ExtendAllGrows(order, front);
      ExtendGrows(ExtendAll(order, front), last);
      forall i | 0 <= i < |pss| ensures Known(pss[i], ExtendAll(order, pss)) {
        if i < |front| {
          assert pss[i] == front[i];
          RenderGrow(front[i], ExtendAll(order, front), ExtendAll(order, pss));
        }
      }
    }
  }

  /** Every number belongs to an identifier that occurs somewhere. */
  lemma {:induction false} ExtendAllUsed(pss: seq<seq<Piece>>, u: string) returns (i: nat, k: nat)
    requires u in ExtendAll([], pss)
    ensures i < |pss| && k < |pss[i]| && pss[i][k] == Id(u)
  {
    var front, last := pss[..|pss| - 1], pss[|pss| - 1];
    if u in ExtendAll([], front) {
      i, k := ExtendAllUsed(front, u);
      assert pss[i] == front[i];
    } else {
      ExtendGrows(ExtendAll([], front), last);
      i := |pss| - 1;
      k :| 0 <= k < |last| && last[k] == Id(u);
    }
  }

  function RenameAll(rho: Renaming, pss: seq<seq<Piece>>): seq<seq<Piece>> {
    seq(|pss|, i requires 0 <= i < |pss| => Rename(rho, pss[i]))
  }

  lemma {:induction false} ExtendAllRenamed(rho: Renaming, pss: seq<seq<Piece>>)
    requires OneToOne(rho) && forall i :: 0 <= i < |pss| ==> Covers(rho, pss[i])
    ensures Within(rho, ExtendAll([], pss))
    ensures ExtendAll([], RenameAll(rho, pss)) == Renamed(rho, ExtendAll([], pss))
  {
    if pss != [] {
      var front, last := pss[..|pss| - 1], pss[|pss| - 1];
      ExtendAllRenamed(rho, front);
      ExtendRenamed(rho, ExtendAll([], front), last);
      assert RenameAll(rho, pss)[..|pss| - 1] == RenameAll(rho, front);
    }
  }

  ghost predicate AllKnown(pss: seq<seq<Piece>>, order: seq<string>) {
    forall i :: 0 <= i < |pss| ==> Known(pss[i], order)
  }

  /** All texts, numbered together. */
  function RenderAll(pss: seq<seq<Piece>>, order: seq<string>): seq<string>
    requires AllKnown(pss, order)
  {
    seq(|pss|, i requires 0 <= i < |pss| => Render(pss[i], order))
  }

  /** Some one-to-one renaming of identifiers carries `pss` to `qss`. */
  ghost predicate SameUpToRenaming(pss: seq<seq<Piece>>, qss: seq<seq<Piece>>) {
    exists rho: Renaming :: CarriedBy(rho, pss, qss)
  }

  ghost predicate CarriedBy(rho: Renaming, pss: seq<seq<Piece>>, qss: seq<seq<Piece>>) {
    OneToOne(rho) && (forall i :: 0 <= i < |pss| ==> Covers(rho, pss[i])) && qss == RenameAll(rho, pss)
  }

  lemma RenamingKeepsText(rho: Renaming, pss: seq<seq<Piece>>)
    requires OneToOne(rho) && forall i :: 0 <= i < |pss| ==> Covers(rho, pss[i])
    requires AllKnown(pss, ExtendAll([], pss)) && AllKnown(RenameAll(rho, pss), ExtendAll([], RenameAll(rho, pss)))
    ensures RenderAll(RenameAll(rho, pss), ExtendAll([], RenameAll(rho, pss))) == RenderAll(pss, ExtendAll([], pss))
  {
    ExtendAllRenamed(rho, pss);
    RenderAllRenamed(rho, pss, ExtendAll([], pss), RenameAll(rho, pss));
  }

  lemma RenderAllRenamed(rho: Renaming, pss: seq<seq<Piece>>, order: seq<string>, qss: seq<seq<Piece>>)
    requires OneToOne(rho) && Within(rho, order) && AllKnown(pss, order) && qss == RenameAll(rho, pss)
    requires AllKnown(qss, Renamed(rho, order))
    ensures RenderAll(qss, Renamed(rho, order)) == RenderAll(pss, order)
  {
    forall i | 0 <= i < |pss| ensures RenderAll(qss, Renamed(rho, order))[i] == RenderAll(pss, order)[i] {
      RenderRenamed(rho, order, pss[i]);
    }
  }

  /** The renaming between two numberings. */
  function Between(order: seq<string>, order': seq<string>): Renaming
    requires |order| <= |order'|
  {
    map u | u in order :: order'[Index(order, u)]
  }

  lemma BetweenOneToOne(order: seq<string>, order': seq<string>)
    requires |order| <= |order'| && Distinct(order')
    ensures OneToOne(Between(order, order'))
  {
  }

  lemma BetweenCarries(ps: seq<Piece>, order: seq<string>, qs: seq<Piece>, order': seq<string>)
    requires |order| <= |order'| && Known(ps, order) && SamePieces(ps, order, qs, order')
    ensures Covers(Between(order, order'), ps) && qs == Rename(Between(order, order'), ps)
  {
    var rho := Between(order, order');
    forall k | 0 <= k < |ps| ensures qs[k] == RenameOne(rho, ps[k]) {
      assert SamePiece(ps[k], order, qs[k], order');
    }
  }

  lemma NumberingsFit(pss: seq<seq<Piece>>, qss: seq<seq<Piece>>, o': seq<string>)
    requires |pss| == |qss| && forall i :: 0 <= i < |pss| ==> SamePieces(pss[i], ExtendAll([], pss), qss[i], o')
    ensures |ExtendAll([], pss)| <= |o'|
  {
    var o := ExtendAll([], pss);
    if o != [] {
      ExtendAllGrows([], pss);
      var last := |o| - 1;
      var i, k := ExtendAllUsed(pss, o[last]);
      assert SamePiece(pss[i][k], o, qss[i][k], o');
      IndexUnique(o, last);
    }
  }

  /** First-appearance numbering is canonical: the rendered texts are the same exactly when
      some one-to-one renaming of identifiers carries one list of texts to the other. */
  lemma CanonicalIff(pss: seq<seq<Piece>>, qss: seq<seq<Piece>>)
    requires forall i :: 0 <= i < |pss| ==> NoTokenText(pss[i])
    requires forall i :: 0 <= i < |qss| ==> NoTokenText(qss[i])
    ensures AllKnown(pss, ExtendAll([], pss)) && AllKnown(qss, ExtendAll([], qss))
    ensures RenderAll(pss, ExtendAll([], pss)) == RenderAll(qss, ExtendAll([], qss)) <==> SameUpToRenaming(pss, qss)
  {
    var o, o' := ExtendAll([], pss), ExtendAll([], qss);
    ExtendAllGrows([], pss);
    ExtendAllGrows([], qss);
    if RenderAll(pss, o) == RenderAll(qss, o') {
      assert |pss| == |RenderAll(pss, o)| == |qss|;
      forall i | 0 <= i < |pss| ensures SamePieces(pss[i], o, qss[i], o') {
        assert RenderAll(pss, o)[i] == RenderAll(qss, o')[i];
        RenderInjective(pss[i], o, qss[i], o');
      }
      NumberingsFit(pss, qss, o');
      var rho := Between(o, o');
      BetweenOneToOne(o, o');
      forall i | 0 <= i < |pss| ensures Covers(rho, pss[i]) && qss[i] == Rename(rho, pss[i]) {
        BetweenCarries(pss[i], o, qss[i], o');
      }
      assert CarriedBy(rho, pss, qss);
    }
    if SameUpToRenaming(pss, qss) {
      var rho :| CarriedBy(rho, pss, qss);
      RenamingKeepsText(rho, pss);
    }
  }

  // ----- literal text in the pieces comes from the text itself -----

  lemma {:induction false} CollapseRunStart(ps: seq<Piece>, w: string)
    requires LitRun(Collapse(ps), 0, w)
    ensures LitRun(ps, 0, w)
    decreases |w|
  {
    if w != [] {
      var cs := Collapse(ps);
      assert cs[0 + 0] == Lit(w[0]);
      assert cs[1..] == Collapse(ps[1..]) && ps[0] == cs[0];
      forall j | 0 <= j < |w[1..]| ensures cs[1..][0 + j] == Lit(w[1..][j]) { assert cs[0 + (j + 1)] == Lit(w[j + 1]); }
      CollapseRunStart(ps[1..], w[1..]);
      forall j | 0 <= j < |w| ensures ps[0 + j] == Lit(w[j]) {
        if j > 0 { assert ps[1..][0 + (j - 1)] == Lit(w[1..][j - 1]); }
      }
    }
  }

  lemma {:induction false} CollapseRun(ps: seq<Piece>, k: nat, w: string) returns (k': nat)
    requires w != [] && LitRun(Collapse(ps), k, w)
    ensures LitRun(ps, k', w)
    decreases |ps|
  {
    if k == 0 {
      CollapseRunStart(ps, w);
      k' := 0;
    } else {
      var n := StampLength(LitPrefix(ps));
      var d := if n > 0 then n else 1;
      var cs := Collapse(ps);
      assert cs[1..] == Collapse(ps[d..]);
      forall j | 0 <= j < |w| ensures cs[1..][k - 1 + j] == Lit(w[j]) { assert cs[k + j] == Lit(w[j]); }
      var k'' := CollapseRun(ps[d..], k - 1, w);
      k' := k'' + d;
      forall j | 0 <= j < |w| ensures ps[k' + j] == Lit(w[j]) { assert ps[d..][k'' + j] == Lit(w[j]); }
    }
  }

  lemma {:induction false} IdRunStart(s: string, w: string)
    requires LitRun(IdPieces(s), 0, w)
    ensures w <= s
  {
    if w != [] {
      var ps := IdPieces(s);
      assert ps[0 + 0] == Lit(w[0]);
      assert ps[1..] == IdPieces(s[1..]) && s[0] == w[0];
      forall j | 0 <= j < |w[1..]| ensures ps[1..][0 + j] == Lit(w[1..][j]) { assert ps[0 + (j + 1)] == Lit(w[j + 1]); }
      IdRunStart(s[1..], w[1..]);
    }
  }

  lemma {:induction false} IdRun(s: string, k: nat, w: string)
    requires w != [] && LitRun(IdPieces(s), k, w)
    ensures Occurs(w, s)
    decreases |s|
  {
    if k == 0 {
      IdRunStart(s, w);
      assert OccursAt(w, s, 0);
    } else {
      var d := if UuidAt(s) then UUID_LENGTH else 1;
      var ps := IdPieces(s);
      assert ps[1..] == IdPieces(s[d..]);
      forall j | 0 <= j < |w| ensures ps[1..][k - 1 + j] == Lit(w[j]) { assert ps[k + j] == Lit(w[j]); }
      IdRun(s[d..], k - 1, w);
      OccursLater(s, d, w);
    }
  }

  lemma OccursLater(s: string, d: nat, w: string)
    requires d <= |s| && Occurs(w, s[d..])
    ensures Occurs(w, s)
  {
    var i: nat :| OccursAt(w, s[d..], i);
    assert s[d..][i..i + |w|] == s[d + i..d + i + |w|];
    assert OccursAt(w, s, d + i);
  }

  ghost predicate TokenFree(s: string) { !Occurs(UUID_HEAD, s) && !Occurs(STAMP, s) }

  /** A text without token text has pieces without token text. */
  lemma TokenFreePieces(s: string)
    requires TokenFree(s)
    ensures NoTokenText(Collapse(IdPieces(s))) && NoTokenText(Literal(s))
  {
    forall k: nat ensures !LitRun(Collapse(IdPieces(s)), k, UUID_HEAD) && !LitRun(Collapse(IdPieces(s)), k, STAMP) {
      if LitRun(Collapse(IdPieces(s)), k, UUID_HEAD) {
        var k' := CollapseRun(IdPieces(s), k, UUID_HEAD);
        IdRun(s, k', UUID_HEAD);
      }
      if LitRun(Collapse(IdPieces(s)), k, STAMP) {
        var k' := CollapseRun(IdPieces(s), k, STAMP);
        IdRun(s, k', STAMP);
      }
    }
    forall k: nat, w: string | LitRun(Literal(s), k, w) ensures Occurs(w, s) {
      forall j | 0 <= j < |w| ensures s[k + j] == w[j] { assert Literal(s)[k + j] == Lit(w[j]); }
      assert s[k..k + |w|] == w;
      assert OccursAt(w, s, k);
    }
  }
}
