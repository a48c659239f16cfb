/** The `Normalizer` of `baseline/determinism.py` over whole JSON values: its state, what it
    returns, when two values normalize alike, and what `find_absolute_paths` can still report. */
module Normalization {
  import opened Ordering
  import opened Json
  import opened Redaction
  import opened Tokens
  import opened CanonicalForm

  datatype Rule = AbsolutePath | RandomUuid | WallClockTimestamp

  /** What a normalizer is constructed with. */
  datatype Config = Config(roots: seq<Root>, preserve: set<string>)

  /** The pieces one string contributes. */
  function PiecesOf(cfg: Config, s: string): seq<Piece> {
    if s in cfg.preserve then Literal(s) else Collapse(IdPieces(Redacted(cfg.roots, s)))
  }

  function PiecesAll(cfg: Config, texts: seq<string>): seq<seq<Piece>> {
    seq(|texts|, i requires 0 <= i < |texts| => PiecesOf(cfg, texts[i]))
  }

  /** The text of `s` under a numbering that knows its identifiers. */
  ghost function TextOf(cfg: Config, order: seq<string>, s: string): string {
    if Known(PiecesOf(cfg, s), order) then Render(PiecesOf(cfg, s), order) else []
  }

  // ----- strings of a value, in the order they are visited -----

  function Leaves(v: Json): seq<string>
    decreases v, 1, 0
  {
    match v
    case Str(s) => [s]
    case Arr(xs) => LeavesItems(v, |xs|)
    case Obj(m) => LeavesFields(v, SortedNames(m.Keys))
    case _ => []
  }

  function LeavesItems(v: Json, n: nat): seq<string>
    requires v.Arr? && n <= |v.items|
    decreases v, 0, n
  {
    if n == 0 then [] else LeavesItems(v, n - 1) + Leaves(v.items[n - 1])
  }

  function LeavesFields(v: Json, keys: seq<string>): seq<string>
    requires v.Obj? && forall k :: k in keys ==> k in v.fields
    decreases v, 0, |keys|
  {
    if keys == [] then []
    else LeavesFields(v, keys[..|keys| - 1]) + Leaves(v.fields[keys[|keys| - 1]])
  }

  /** The value with every string blanked: shape, keys and the other scalars. */
  function Frame(v: Json): Json {
    match v
    case Str(_) => Str([])
    case Arr(xs) => Arr(seq(|xs|, i requires 0 <= i < |xs| => Frame(xs[i])))
    case Obj(m) => Obj(map k | k in m :: Frame(m[k]))
    case _ => v
  }

  /** The value with every string rendered under one numbering. */
  ghost function RenderJson(cfg: Config, order: seq<string>, v: Json): Json {
    match v
    case Str(s) => Str(TextOf(cfg, order, s))
    case Arr(xs) => Arr(seq(|xs|, i requires 0 <= i < |xs| => RenderJson(cfg, order, xs[i])))
    case Obj(m) => Obj(map k | k in m :: RenderJson(cfg, order, m[k]))
    case _ => v
  }

  /** The numbering after normalizing `texts` one after the other. */
  function OrderAfter(cfg: Config, order: seq<string>, texts: seq<string>): seq<string> {
    ExtendAll(order, PiecesAll(cfg, texts))
  }

  lemma {:induction false} ExtendAllAppend(order: seq<string>, pss: seq<seq<Piece>>, qss: seq<seq<Piece>>)
    ensures ExtendAll(order, pss + qss) == ExtendAll(ExtendAll(order, pss), qss)
  {
    if qss == [] {
      assert pss + qss == pss;
    } else {
      assert (pss + qss)[..|pss + qss| - 1] == pss + qss[..|qss| - 1];
      ExtendAllAppend(order, pss, qss[..|qss| - 1]);
    }
  }

  lemma OrderAfterAppend(cfg: Config, order: seq<string>, a: seq<string>, b: seq<string>)
    ensures OrderAfter(cfg, order, a + b) == OrderAfter(cfg, OrderAfter(cfg, order, a), b)
  {
    assert PiecesAll(cfg, a + b) == PiecesAll(cfg, a) + PiecesAll(cfg, b);
    ExtendAllAppend(order, PiecesAll(cfg, a), PiecesAll(cfg, b));
  }

  ghost predicate KnowsAll(cfg: Config, order: seq<string>, texts: seq<string>) {
    forall s :: s in texts ==> Known(PiecesOf(cfg, s), order)
  }

  lemma OrderAfterKnows(cfg: Config, order: seq<string>, texts: seq<string>)
    ensures order <= OrderAfter(cfg, order, texts)
    ensures Distinct(order) ==> Distinct(OrderAfter(cfg, order, texts))
    ensures KnowsAll(cfg, OrderAfter(cfg, order, texts), texts)
  {
    ExtendAllGrows(order, PiecesAll(cfg, texts));
    forall s | s in texts ensures Known(PiecesOf(cfg, s), OrderAfter(cfg, order, texts)) {
      var i :| 0 <= i < |texts| && texts[i] == s;
      assert PiecesAll(cfg, texts)[i] == PiecesOf(cfg, s);
    }
  }

  // ----- leaves of parts -----

  lemma {:induction false} LeavesOfItem(v: Json, n: nat, i: nat)
    requires v.Arr? && i < n <= |v.items|
    ensures forall s :: s in Leaves(v.items[i]) ==> s in LeavesItems(v, n)
  {
    if i < n - 1 { LeavesOfItem(v, n - 1, i); }
  }

  lemma {:induction false} LeavesOfField(v: Json, keys: seq<string>, k: string)
    requires v.Obj? && (forall x :: x in keys ==> x in v.fields) && k in keys
    ensures forall s :: s in Leaves(v.fields[k]) ==> s in LeavesFields(v, keys)
  {
    if k != keys[|keys| - 1] { LeavesOfField(v, keys[..|keys| - 1], k); }
  }

  /** A larger numbering renders what the smaller one knew alike. */
  lemma {:induction false} RenderJsonGrow(cfg: Config, order: seq<string>, order': seq<string>, v: Json)
    requires order <= order' && KnowsAll(cfg, order, Leaves(v))
    ensures RenderJson(cfg, order, v) == RenderJson(cfg, order', v)
    decreases v
  {
    match v
    case Str(s) =>
      assert s in Leaves(v);
      RenderGrow(PiecesOf(cfg, s), order, order');
    case Arr(xs) =>
      forall i | 0 <= i < |xs| ensures RenderJson(cfg, order, xs[i]) == RenderJson(cfg, order', xs[i]) {
        LeavesOfItem(v, |xs|, i);
        RenderJsonGrow(cfg, order, order', xs[i]);
      }
    case Obj(m) =>
      forall k | k in m ensures RenderJson(cfg, order, m[k]) == RenderJson(cfg, order', m[k]) {
        LeavesOfField(v, SortedNames(m.Keys), k);
        RenderJsonGrow(cfg, order, order', m[k]);
      }
      assert RenderJson(cfg, order, v).fields == RenderJson(cfg, order', v).fields;
    case _ =>
  }

  // ----- the normalizer -----

  /** How many identifiers the scan of `s` finds. */
  function UuidCount(s: string): nat
    decreases |s|
  {
    if s == [] then 0
    else if UuidAt(s) then 1 + UuidCount(s[UUID_LENGTH..])
    else UuidCount(s[1..])
  }

  /** A timestamp starts somewhere in `s`. */
  predicate HasStamp(s: string) { s != [] && (StampLength(s) > 0 || HasStamp(s[1..])) }

  /** `rules` with one more rule if it was applied. */
  function With(rules: set<Rule>, rule: Rule, used: bool): set<Rule> { if used then rules + {rule} else rules }

  /** The table that gives the identifiers of `order` the tokens 1, 2, ... */
  function Table(order: seq<string>): map<string, string> {
    if order == [] then map[] else Table(order[..|order| - 1])[order[|order| - 1] := UuidToken(|order|)]
  }

  lemma {:induction false} TableKeys(order: seq<string>)
    ensures forall u :: u in Table(order) <==> u in order
    ensures |Table(order)| <= |order| && (|Table(order)| == |order| <==> Distinct(order))
  {
    if order != [] {
      var front, last := order[..|order| - 1], order[|order| - 1];
      TableKeys(front);
      assert order == front + [last];
      assert forall u :: u in order <==> u in front || u == last;
      DistinctSnoc(front, last);
    }
  }

  lemma DistinctSnoc(front: seq<string>, last: string)
    ensures Distinct(front + [last]) <==> Distinct(front) && last !in front
  {
    var order := front + [last];
    if Distinct(order) {
      forall i, j | 0 <= i < j < |front| ensures front[i] != front[j] { assert order[i] != order[j]; }
      forall i | 0 <= i < |front| ensures front[i] != last { assert order[i] != order[|front|]; }
    }
  }

  lemma {:induction false} TableFind(order: seq<string>, i: nat)
    requires Distinct(order) && i < |order|
    ensures order[i] in Table(order) && Table(order)[order[i]] == UuidToken(i + 1)
  {
    if i < |order| - 1 {
      var front := order[..|order| - 1];
      TableFind(front, i);
      assert front[i] == order[i] && order[i] != order[|order| - 1];
    }
  }

  lemma NumberedFind(order: seq<string>, raw: string)
    requires |Table(order)| == |order| && raw in order
    ensures raw in Table(order) && Table(order)[raw] == UuidToken(CanonicalForm.Index(order, raw) + 1)
  {
    TableKeys(order);
    TableFind(order, CanonicalForm.Index(order, raw));
  }

  lemma NumberedAdd(order: seq<string>, raw: string)
    requires |Table(order)| == |order| && raw !in order
    ensures Table(order + [raw]) == Table(order)[raw := UuidToken(|order| + 1)] && |Table(order + [raw])| == |order| + 1
    ensures CanonicalForm.Index(order + [raw], raw) == |order|
  {
    TableKeys(order);
    assert (order + [raw])[..|order|] == order;
    DistinctSnoc(order, raw);
    TableKeys(order + [raw]);
    IndexUnique(order + [raw], |order|);
  }

  /** The table of a session gives its identifiers the tokens 1 to n, one each. */
  lemma TokensNumbered(order: seq<string>)
    requires Distinct(order)
    ensures var table := Table(order);
            && |table| == |order| && (forall u :: u in table <==> u in order)
            && (forall i :: 0 <= i < |order| ==> order[i] in table && table[order[i]] == UuidToken(i + 1))
            && (forall u, v :: u in table && v in table && table[u] == table[v] ==> u == v)
  {
    TableKeys(order);
    forall i | 0 <= i < |order| ensures order[i] in Table(order) && Table(order)[order[i]] == UuidToken(i + 1) {
      TableFind(order, i);
    }
    forall u, v | u in Table(order) && v in Table(order) && Table(order)[u] == Table(order)[v] ensures u == v {
      OneToken(order, u, v);
    }
  }

  lemma OneToken(order: seq<string>, u: string, v: string)
    requires Distinct(order) && u in order && v in order && u in Table(order) && v in Table(order)
    requires Table(order)[u] == Table(order)[v]
    ensures u == v
  {
    TableKeys(order);
    NumberedFind(order, u);
    NumberedFind(order, v);
    UuidTokenRead(CanonicalForm.Index(order, u) + 1, CanonicalForm.Index(order, v) + 1, [], []);
  }

  /** Over a session the table only grows: what got a token keeps it, whatever comes next. */
  lemma SessionKeepsTokens(cfg: Config, order: seq<string>, texts: seq<string>, u: string)
    requires Distinct(order) && u in Table(order)
    ensures u in Table(OrderAfter(cfg, order, texts)) && Table(OrderAfter(cfg, order, texts))[u] == Table(order)[u]
    ensures Distinct(OrderAfter(cfg, order, texts))
  {
    var later := OrderAfter(cfg, order, texts);
    OrderAfterKnows(cfg, order, texts);
    TableKeys(order);
    var i :| 0 <= i < |order| && order[i] == u;
    TableFind(order, i);
    assert later[i] == u;
    TableFind(later, i);
  }

  function Entered(order: seq<string>, raw: string): (order': seq<string>)
    ensures raw in order'
  {
    if raw in order then order else order + [raw]
  }

  /** The identifier pass from left to right: the numbering after it, and its text. */
  function TokenizedOrder(order: seq<string>, s: string): seq<string>
    decreases |s|
  {
    if s == [] then order
    else if UuidAt(s) then TokenizedOrder(Entered(order, s[..UUID_LENGTH]), s[UUID_LENGTH..])
    else TokenizedOrder(order, s[1..])
  }

  function TokenizedText(order: seq<string>, s: string): string
    decreases |s|
  {
    if s == [] then []
    else if UuidAt(s) then
      var order' := Entered(order, s[..UUID_LENGTH]);
      UuidToken(CanonicalForm.Index(order', s[..UUID_LENGTH]) + 1) + TokenizedText(order', s[UUID_LENGTH..])
    else [s[0]] + TokenizedText(order, s[1..])
  }

  lemma TokenizeStep(order: seq<string>, s: string)
    requires s != []
    ensures if UuidAt(s) then
              var raw, rest := s[..UUID_LENGTH], s[UUID_LENGTH..];
              var next := Entered(order, raw);
              && TokenizedOrder(order, s) == TokenizedOrder(next, rest)
              && TokenizedText(order, s) == UuidToken(CanonicalForm.Index(next, raw) + 1) + TokenizedText(next, rest)
              && UuidCount(s) == 1 + UuidCount(rest)
            else
              && TokenizedOrder(order, s) == TokenizedOrder(order, s[1..])
              && TokenizedText(order, s) == [s[0]] + TokenizedText(order, s[1..])
              && UuidCount(s) == UuidCount(s[1..])
  {
  }

  lemma ExtendFirst(order: seq<string>, p: Piece, ps: seq<Piece>)
    ensures Extend(order, [p] + ps) == Extend(if p.Id? then Entered(order, p.u) else order, ps)
  {
    ExtendAppend(order, [p], ps);
    assert [p][..0] == [] && Extend(order, [p][..0]) == order;
  }

  /** Numbering while scanning is numbering the pieces, all rendered under the final numbering. */
  lemma {:induction false} TokenizedIsRendered(order: seq<string>, s: string)
    ensures TokenizedOrder(order, s) == Extend(order, IdPieces(s)) && order <= TokenizedOrder(order, s)
    ensures Known(IdPieces(s), TokenizedOrder(order, s))
    ensures TokenizedText(order, s) == Render(IdPieces(s), TokenizedOrder(order, s))
    decreases |s|
  {
    if UuidAt(s) {
      var raw, rest := s[..UUID_LENGTH], s[UUID_LENGTH..];
      var next := Entered(order, raw);
      TokenizedIsRendered(next, rest);
      ExtendFirst(order, Id(raw), IdPieces(rest));
      IndexStable(next, TokenizedOrder(next, rest), raw);
      RenderFirst(Id(raw), IdPieces(rest), TokenizedOrder(next, rest));
    } else if s != [] {
      TokenizedIsRendered(order, s[1..]);
      ExtendFirst(order, Lit(s[0]), IdPieces(s[1..]));
      RenderFirst(Lit(s[0]), IdPieces(s[1..]), TokenizedOrder(order, s[1..]));
    }
  }

  lemma RenderFirst(p: Piece, ps: seq<Piece>, order: seq<string>)
    requires Known(ps, order) && (p.Id? ==> p.u in order)
    ensures Known([p] + ps, order) && Render([p] + ps, order) == RenderOne(p, order) + Render(ps, order)
  {
    RenderCons([p] + ps, order);
    assert ([p] + ps)[1..] == ps;
  }

  lemma StampStep(s: string)
    requires s != []
    ensures var n := StampLength(s);
            && Stamped(s) == (if n > 0 then STAMP + Stamped(s[n..]) else [s[0]] + Stamped(s[1..]))
            && (HasStamp(s) <==> n > 0 || HasStamp(s[1..]))
  {
  }

  lemma Appended(whole: string, done: string, text: string, rest: string)
    requires whole == done + (text + rest)
    ensures whole == done + text + rest
  {
  }

  /** `TIMESTAMP_PATTERN.sub`, and whether it matched at all. */
  method StampPass(value: string) returns (result: string, found: bool)
    ensures result == Stamped(value) && found == HasStamp(value)
  {
    var rest := value;
    result, found := [], false;
    while rest != []
      invariant Stamped(value) == result + Stamped(rest)
      invariant HasStamp(value) == (found || HasStamp(rest))
      decreases |rest|
    {
      var n := StampLength(rest);
      StampStep(rest);
      Appended(Stamped(value), result, if n > 0 then STAMP else [rest[0]], Stamped(rest[if n > 0 then n else 1..]));
      if n > 0 {
        result, found, rest := result + STAMP, true, rest[n..];
      } else {
        result, rest := result + [rest[0]], rest[1..];
      }
    }
  }

  class Normalizer {
    const cfg: Config
    var uuidTokens: map<string, string>
    var applied: set<Rule>
    var scoped: set<Rule>
    /** Identifiers in order of first appearance. */
    ghost var order: seq<string>

    ghost predicate Valid()
      reads this
    {
      Spelled(cfg.roots) && uuidTokens == Table(order) && |uuidTokens| == |order|
    }

    constructor (cfg: Config)
      requires Spelled(cfg.roots)
      ensures Valid() && this.cfg == cfg && order == [] && applied == {} && scoped == {}
    {
      this.cfg := cfg;
      uuidTokens, applied, scoped := map[], {}, {};
      order := [];
    }

    method StartScope()
      requires Valid()
      modifies this
      ensures Valid() && scoped == {}
      ensures uuidTokens == old(uuidTokens) && applied == old(applied) && order == old(order)
    {
      scoped := {};
    }

    /** `_record` */
    method Record(rule: Rule)
      requires Valid()
      modifies this
      ensures Valid() && applied == old(applied) + {rule} && scoped == old(scoped) + {rule}
      ensures uuidTokens == old(uuidTokens) && order == old(order)
    {
      applied := applied + {rule};
      scoped := scoped + {rule};
    }

    /** The token of one identifier, entered in the table if it is new, and recorded. */
    method TokenFor(raw: string) returns (token: string)
      requires Valid()
      modifies this
      ensures Valid() && order == Entered(old(order), raw)
      ensures token == UuidToken(CanonicalForm.Index(order, raw) + 1)
      ensures applied == old(applied) + {RandomUuid} && scoped == old(scoped) + {RandomUuid}
    {
      TableKeys(order);
      if raw in uuidTokens {
        token := uuidTokens[raw];
        NumberedFind(order, raw);
      } else {
        NumberedAdd(order, raw);
        token := UuidToken(|uuidTokens| + 1);
        uuidTokens := uuidTokens[raw := token];
        order := order + [raw];
      }
      Record(RandomUuid);
    }

    /** `_tokenize_uuids`: a left-to-right scan that numbers identifiers as they appear. */
    method TokenizeUuids(value: string) returns (result: string)
      requires Valid()
      modifies this
      ensures Valid() && order == Extend(old(order), IdPieces(value))
      ensures Known(IdPieces(value), order) && result == Render(IdPieces(value), order)
      ensures applied == With(old(applied), RandomUuid, UuidCount(value) > 0)
      ensures scoped == With(old(scoped), RandomUuid, UuidCount(value) > 0)
    {
      var rest, found := value, false;
      ghost var count := 0;
      result := [];
      while rest != []
        invariant Valid()
        invariant TokenizedOrder(old(order), value) == TokenizedOrder(order, rest)
        invariant TokenizedText(old(order), value) == result + TokenizedText(order, rest)
        invariant UuidCount(value) == count + UuidCount(rest) && found == (count > 0)
        invariant applied == With(old(applied), RandomUuid, found) && scoped == With(old(scoped), RandomUuid, found)
        decreases |rest|
      {
        var text, taken, matched := TokenizeHead(rest);
        if matched { count := count + 1; }
        result, found, rest := result + text, found || matched, rest[taken..];
      }
      TokenizedIsRendered(old(order), value);
    }

    /** One step of the scan: an identifier becomes its token, a character is copied. */
    method TokenizeHead(rest: string) returns (text: string, taken: nat, matched: bool)
      requires Valid() && rest != []
      modifies this
      ensures Valid() && 0 < taken <= |rest|
      ensures TokenizedOrder(old(order), rest) == TokenizedOrder(order, rest[taken..])
      ensures TokenizedText(old(order), rest) == text + TokenizedText(order, rest[taken..])
      ensures UuidCount(rest) == (if matched then 1 else 0) + UuidCount(rest[taken..])
      ensures applied == With(old(applied), RandomUuid, matched) && scoped == With(old(scoped), RandomUuid, matched)
    {
      matched := UuidAt(rest);
      TokenizeStep(order, rest);
      if matched {
        taken := UUID_LENGTH;
        text := TokenFor(rest[..UUID_LENGTH]);
      } else {
        text, taken := [rest[0]], 1;
      }
    }

    /** `_redact_timestamps` */
    method RedactTimestamps(value: string) returns (result: string)
      requires Valid()
      modifies this
      ensures Valid() && order == old(order) && uuidTokens == old(uuidTokens) && result == Stamped(value)
      ensures applied == With(old(applied), WallClockTimestamp, HasStamp(value))
      ensures scoped == With(old(scoped), WallClockTimestamp, HasStamp(value))
    {
      var found: bool;
      result, found := StampPass(value);
      if found { Record(WallClockTimestamp); }
    }

    /** `normalize_string` */
    method NormalizeString(value: string) returns (result: string)
      requires Valid()
      modifies this
      ensures Valid() && order == Extend(old(order), PiecesOf(cfg, value))
      ensures result == TextOf(cfg, order, value) && Known(PiecesOf(cfg, value), order)
      ensures old(applied) <= applied && old(scoped) <= scoped
      ensures value in cfg.preserve ==> result == value && applied == old(applied) && scoped == old(scoped)
      ensures value !in cfg.preserve && AbsolutePath !in old(scoped) ==>
                (AbsolutePath in scoped <==> exists r :: r in cfg.roots && Occurs(r.spelling, value))
    {
      if value in cfg.preserve {
        LiteralRenders(value, order);
        return value;
      }
      var pathRedacted: bool;
      result, pathRedacted := RedactPaths(cfg.roots, value);
      if pathRedacted { Record(AbsolutePath); }
      ghost var redacted := result;
      result := TokenizeUuids(result);
      result := RedactTimestamps(result);
      IdPiecesNoStamp(redacted);
      StampedRender(IdPieces(redacted), order);
      CollapseSameIds(old(order), IdPieces(redacted));
    }

    /** `normalize`: mappings in sorted-key order, sequences in order. */
    method Normalize(value: Json) returns (result: Json)
      requires Valid()
      modifies this
      ensures Valid() && order == OrderAfter(cfg, old(order), Leaves(value))
      ensures result == RenderJson(cfg, order, value)
      ensures old(applied) <= applied && old(scoped) <= scoped
      decreases value, 1
    {
      match value
      case Str(s) =>
        var text := NormalizeString(s);
        result := Str(text);
        OneLeaf(cfg, old(order), s);
      case Arr(_) => result := NormalizeItems(value);
      case Obj(m) =>
        var out := NormalizeFields(value, SortedNames(m.Keys));
        FieldsDone(cfg, order, value, out);
        result := Obj(out);
      case _ => result := value;
    }

    method NormalizeItems(value: Json) returns (result: Json)
      requires Valid() && value.Arr?
      modifies this
      ensures Valid() && order == OrderAfter(cfg, old(order), LeavesItems(value, |value.items|))
      ensures result == RenderJson(cfg, order, value)
      ensures old(applied) <= applied && old(scoped) <= scoped
      decreases value, 0
    {
      var xs := value.items;
      var out: seq<Json> := [];
      for n := 0 to |xs|
        invariant Valid() && order == OrderAfter(cfg, old(order), LeavesItems(value, n))
        invariant RenderedItems(cfg, order, value, n, out)
        invariant old(applied) <= applied && old(scoped) <= scoped
      {
        ghost var before := order;
        var r := Normalize(xs[n]);
        ItemsStep(cfg, old(order), value, n, before, order, out);
        out := out + [r];
      }
      ItemsDone(cfg, order, value, out);
      result := Arr(out);
    }

    method NormalizeFields(value: Json, keys: seq<string>) returns (out: map<string, Json>)
      requires Valid() && value.Obj? && (forall k :: k in keys ==> k in value.fields) && Distinct(keys)
      modifies this
      ensures Valid() && order == OrderAfter(cfg, old(order), LeavesFields(value, keys))
      ensures RenderedFields(cfg, order, value, keys, out)
      ensures old(applied) <= applied && old(scoped) <= scoped
      decreases value, 0
    {
      out := map[];
      for n := 0 to |keys|
        invariant Valid() && order == OrderAfter(cfg, old(order), LeavesFields(value, keys[..n]))
        invariant RenderedFields(cfg, order, value, keys[..n], out)
        invariant old(applied) <= applied && old(scoped) <= scoped
      {
        ghost var before := order;
        var r := Normalize(value.fields[keys[n]]);
        PrefixNext(keys, n);
        FieldsStep(cfg, old(order), value, keys[..n], keys[n], before, order, out);
        out := out[keys[n] := r];
      }
      assert keys[..|keys|] == keys;
    }
  }

  lemma PrefixNext(keys: seq<string>, n: nat)
    requires Distinct(keys) && n < |keys|
    ensures keys[..n + 1] == keys[..n] + [keys[n]] && keys[n] !in keys[..n]
  {
  }

  /** `out` holds the first `n` items of `v`, rendered. */
  ghost predicate RenderedItems(cfg: Config, order: seq<string>, v: Json, n: nat, out: seq<Json>)
    requires v.Arr? && n <= |v.items|
  {
    |out| == n && forall i :: 0 <= i < n ==> out[i] == RenderJson(cfg, order, v.items[i])
  }

  lemma ItemsStep(cfg: Config, start: seq<string>, v: Json, n: nat, before: seq<string>, after: seq<string>,
                  out: seq<Json>)
    requires v.Arr? && n < |v.items| && before == OrderAfter(cfg, start, LeavesItems(v, n))
    requires after == OrderAfter(cfg, before, Leaves(v.items[n])) && RenderedItems(cfg, before, v, n, out)
    ensures after == OrderAfter(cfg, start, LeavesItems(v, n + 1))
    ensures RenderedItems(cfg, after, v, n + 1, out + [RenderJson(cfg, after, v.items[n])])
  {
    OrderAfterKnows(cfg, start, LeavesItems(v, n));
    OrderAfterKnows(cfg, before, Leaves(v.items[n]));
    OrderAfterAppend(cfg, start, LeavesItems(v, n), Leaves(v.items[n]));
    forall i | 0 <= i < n ensures out[i] == RenderJson(cfg, after, v.items[i]) {
      LeavesOfItem(v, n, i);
      RenderJsonGrow(cfg, before, after, v.items[i]);
    }
  }

  lemma ItemsDone(cfg: Config, order: seq<string>, v: Json, out: seq<Json>)
    requires v.Arr? && RenderedItems(cfg, order, v, |v.items|, out)
    ensures Arr(out) == RenderJson(cfg, order, v)
  {
    assert out == RenderJson(cfg, order, v).items;
  }

  /** `out` holds the rendered fields of `v` named in `keys`. */
  ghost predicate RenderedFields(cfg: Config, order: seq<string>, v: Json, keys: seq<string>, out: map<string, Json>)
    requires v.Obj?
  {
    && (forall k :: k in out <==> k in keys)
    && (forall k :: k in out ==> k in v.fields && out[k] == RenderJson(cfg, order, v.fields[k]))
  }

  lemma FieldsGrow(cfg: Config, v: Json, keys: seq<string>, before: seq<string>, after: seq<string>,
                   out: map<string, Json>)
    requires v.Obj? && (forall k :: k in keys ==> k in v.fields) && before <= after
    requires KnowsAll(cfg, before, LeavesFields(v, keys)) && RenderedFields(cfg, before, v, keys, out)
    ensures RenderedFields(cfg, after, v, keys, out)
  {
    forall k | k in out ensures out[k] == RenderJson(cfg, after, v.fields[k]) {
      LeavesOfField(v, keys, k);
      RenderJsonGrow(cfg, before, after, v.fields[k]);
    }
  }

  lemma FieldsStep(cfg: Config, start: seq<string>, v: Json, keys: seq<string>, key: string,
                   before: seq<string>, after: seq<string>, out: map<string, Json>)
    requires v.Obj? && (forall k :: k in keys ==> k in v.fields) && key in v.fields && key !in keys
    requires before == OrderAfter(cfg, start, LeavesFields(v, keys))
    requires after == OrderAfter(cfg, before, Leaves(v.fields[key]))
    requires RenderedFields(cfg, before, v, keys, out)
    ensures after == OrderAfter(cfg, start, LeavesFields(v, keys + [key]))
    ensures RenderedFields(cfg, after, v, keys + [key], out[key := RenderJson(cfg, after, v.fields[key])])
  {
    OrderAfterKnows(cfg, start, LeavesFields(v, keys));
    OrderAfterKnows(cfg, before, Leaves(v.fields[key]));
    FieldsGrow(cfg, v, keys, before, after, out);
    OrderAfterAppend(cfg, start, LeavesFields(v, keys), Leaves(v.fields[key]));
    LeavesFieldsSnoc(v, keys, key);
  }

  lemma LeavesFieldsSnoc(v: Json, keys: seq<string>, key: string)
    requires v.Obj? && (forall k :: k in keys ==> k in v.fields) && key in v.fields
    ensures LeavesFields(v, keys + [key]) == LeavesFields(v, keys) + Leaves(v.fields[key])
  {
    assert (keys + [key])[..|keys|] == keys;
  }

  lemma FieldsDone(cfg: Config, order: seq<string>, v: Json, out: map<string, Json>)
    requires v.Obj? && RenderedFields(cfg, order, v, SortedNames(v.fields.Keys), out)
    ensures Obj(out) == RenderJson(cfg, order, v)
  {
    assert out == RenderJson(cfg, order, v).fields;
  }

  lemma AddPiece(done: seq<Piece>, p: Piece, before: seq<string>, after: seq<string>)
    requires Known(done, before) && before <= after && (p.Id? ==> p.u in after)
    ensures Known(done + [p], after) && Render(done + [p], after) == Render(done, before) + RenderOne(p, after)
  {
    RenderGrow(done, before, after);
    RenderAppend(done, [p], after);
    RenderCons([p], after);
    assert [p][1..] == [];
  }

  lemma {:induction false} LiteralRenders(s: string, order: seq<string>)
    ensures Known(Literal(s), order) && Render(Literal(s), order) == s && Extend(order, Literal(s)) == order
  {
    if s != [] {
      var n := |s| - 1;
      LiteralRenders(s[..n], order);
      assert Literal(s) == Literal(s[..n]) + [Lit(s[n])] && Literal(s)[..n] == Literal(s[..n]);
      AddPiece(Literal(s[..n]), Lit(s[n]), order, order);
      assert s == s[..n] + [s[n]];
    }
  }

  lemma OneLeaf(cfg: Config, order: seq<string>, s: string)
    ensures OrderAfter(cfg, order, [s]) == Extend(order, PiecesOf(cfg, s))
  {
    var pss := PiecesAll(cfg, [s]);
    assert pss[0] == PiecesOf(cfg, s) && pss[..0] == [];
    assert ExtendAll(order, pss[..0]) == order;
  }

  // ----- shape and leaves determine a value -----

  lemma {:induction false} FrameSizes(v: Json, w: Json)
    requires Frame(v) == Frame(w)
    ensures |Leaves(v)| == |Leaves(w)|
    decreases v, 1
  {
    match v
    case Arr(xs) =>
      assert |Frame(v).items| == |Frame(w).items|;
      ItemSizes(v, w, |xs|);
    case Obj(m) =>
      assert Frame(v).fields.Keys == m.Keys && Frame(w).fields.Keys == w.fields.Keys;
      FieldSizes(v, w, SortedNames(m.Keys));
    case _ =>
  }

  lemma {:induction false} ItemSizes(v: Json, w: Json, n: nat)
    requires v.Arr? && w.Arr? && Frame(v) == Frame(w) && n <= |v.items| == |w.items|
    ensures |LeavesItems(v, n)| == |LeavesItems(w, n)|
    decreases v, 0, n
  {
    if n > 0 {
      assert Frame(v).items[n - 1] == Frame(w).items[n - 1];
      ItemSizes(v, w, n - 1);
      FrameSizes(v.items[n - 1], w.items[n - 1]);
    }
  }

  lemma {:induction false} FieldSizes(v: Json, w: Json, keys: seq<string>)
    requires v.Obj? && w.Obj? && Frame(v) == Frame(w) && v.fields.Keys == w.fields.Keys
    requires forall k :: k in keys ==> k in v.fields && k in w.fields
    ensures |LeavesFields(v, keys)| == |LeavesFields(w, keys)|
    decreases v, 0, |keys|
  {
    if keys != [] {
      var k := keys[|keys| - 1];
      assert Frame(v).fields[k] == Frame(w).fields[k];
      FieldSizes(v, w, keys[..|keys| - 1]);
      FrameSizes(v.fields[k], w.fields[k]);
    }
  }

  lemma SplitEqual<T>(a: seq<T>, b: seq<T>, c: seq<T>, d: seq<T>)
    requires |a| == |c| && a + b == c + d
    ensures a == c && b == d
  {
    assert a == (a + b)[..|a|] && c == (c + d)[..|a|] && b == (a + b)[|a|..] && d == (c + d)[|a|..];
  }

  /** Two values with the same shape and the same strings are equal. */
  lemma {:induction false} FrameAndLeaves(v: Json, w: Json)
    requires Frame(v) == Frame(w) && Leaves(v) == Leaves(w)
    ensures v == w
    decreases v, 1
  {
    match v
    case Str(s) => assert Leaves(v)[0] == Leaves(w)[0];
    case Arr(xs) =>
      assert |Frame(v).items| == |Frame(w).items|;
      ItemsEqual(v, w, |xs|);
      assert v.items == w.items;
    case Obj(_) => ObjectsEqual(v, w);
    case _ =>
  }

  lemma {:induction false} ObjectsEqual(v: Json, w: Json)
    requires v.Obj? && Frame(v) == Frame(w) && Leaves(v) == Leaves(w)
    ensures v == w
    decreases v, 0, |SortedNames(if v.Obj? then v.fields.Keys else {})| + 1
  {
    assert Frame(v).fields.Keys == v.fields.Keys && Frame(w).fields.Keys == w.fields.Keys;
    FieldsEqual(v, w, SortedNames(v.fields.Keys));
    SameFields(v.fields, w.fields, SortedNames(v.fields.Keys));
  }

  lemma SameFields(a: map<string, Json>, b: map<string, Json>, keys: seq<string>)
    requires a.Keys == b.Keys && (forall k :: k in a ==> k in keys) && forall k :: k in keys ==>
             k in a && k in b && a[k] == b[k]
    ensures a == b
  {
  }

  lemma {:induction false} ItemsEqual(v: Json, w: Json, n: nat)
    requires v.Arr? && w.Arr? && Frame(v) == Frame(w) && n <= |v.items| == |w.items|
    requires LeavesItems(v, n) == LeavesItems(w, n)
    ensures forall i :: 0 <= i < n ==> v.items[i] == w.items[i]
    decreases v, 0, n
  {
    if n > 0 {
      assert Frame(v).items[n - 1] == Frame(w).items[n - 1];
      ItemSizes(v, w, n - 1);
      SplitEqual(LeavesItems(v, n - 1), Leaves(v.items[n - 1]), LeavesItems(w, n - 1), Leaves(w.items[n - 1]));
      ItemsEqual(v, w, n - 1);
      FrameAndLeaves(v.items[n - 1], w.items[n - 1]);
    }
  }

  lemma {:induction false} FieldsEqual(v: Json, w: Json, keys: seq<string>)
    requires v.Obj? && w.Obj? && Frame(v) == Frame(w) && v.fields.Keys == w.fields.Keys
    requires forall k :: k in keys ==> k in v.fields && k in w.fields
    requires LeavesFields(v, keys) == LeavesFields(w, keys)
    ensures forall k :: k in keys ==> v.fields[k] == w.fields[k]
    decreases v, 0, |keys|
  {
    if keys != [] {
      var front, k := keys[..|keys| - 1], keys[|keys| - 1];
      assert Frame(v).fields[k] == Frame(w).fields[k];
      FieldSizes(v, w, front);
      SplitEqual(LeavesFields(v, front), Leaves(v.fields[k]), LeavesFields(w, front), Leaves(w.fields[k]));
      FieldsEqual(v, w, front);
      FrameAndLeaves(v.fields[k], w.fields[k]);
    }
  }

  ghost function TextsOf(cfg: Config, order: seq<string>, texts: seq<string>): seq<string> {
    seq(|texts|, i requires 0 <= i < |texts| => TextOf(cfg, order, texts[i]))
  }

  lemma TextsAppend(cfg: Config, order: seq<string>, a: seq<string>, b: seq<string>)
    ensures TextsOf(cfg, order, a + b) == TextsOf(cfg, order, a) + TextsOf(cfg, order, b)
  {
  }

  /** Rendering keeps the shape and renders the strings one by one. */
  lemma {:induction false} RenderShape(cfg: Config, order: seq<string>, v: Json)
    ensures Frame(RenderJson(cfg, order, v)) == Frame(v)
    ensures Leaves(RenderJson(cfg, order, v)) == TextsOf(cfg, order, Leaves(v))
    decreases v, 1
  {
    var w := RenderJson(cfg, order, v);
    match v
    case Arr(xs) =>
      forall i | 0 <= i < |xs| ensures Frame(w.items[i]) == Frame(xs[i]) { RenderShape(cfg, order, xs[i]); }
      assert Frame(w).items == Frame(v).items;
      RenderItems(cfg, order, v, w, |xs|);
    case Obj(m) =>
      forall k | k in m ensures Frame(w.fields[k]) == Frame(m[k]) { RenderShape(cfg, order, m[k]); }
      assert Frame(w).fields == Frame(v).fields;
      assert w.fields.Keys == m.Keys;
      RenderFields(cfg, order, v, w, SortedNames(m.Keys));
    case _ =>
  }

  lemma {:induction false} RenderItems(cfg: Config, order: seq<string>, v: Json, w: Json, n: nat)
    requires v.Arr? && w.Arr? && n <= |v.items| == |w.items|
    requires forall i :: 0 <= i < n ==> w.items[i] == RenderJson(cfg, order, v.items[i])
    ensures LeavesItems(w, n) == TextsOf(cfg, order, LeavesItems(v, n))
    decreases v, 0, n
  {
    if n > 0 {
      RenderItems(cfg, order, v, w, n - 1);
      RenderShape(cfg, order, v.items[n - 1]);
      TextsAppend(cfg, order, LeavesItems(v, n - 1), Leaves(v.items[n - 1]));
    }
  }

  lemma {:induction false} RenderFields(cfg: Config, order: seq<string>, v: Json, w: Json, keys: seq<string>)
    requires v.Obj? && w.Obj? && forall k :: k in keys ==> k in v.fields && k in w.fields
    requires forall k :: k in keys ==> w.fields[k] == RenderJson(cfg, order, v.fields[k])
    ensures LeavesFields(w, keys) == TextsOf(cfg, order, LeavesFields(v, keys))
    decreases v, 0, |keys|
  {
    if keys != [] {
      var front, k := keys[..|keys| - 1], keys[|keys| - 1];
      RenderFields(cfg, order, v, w, front);
      RenderShape(cfg, order, v.fields[k]);
      TextsAppend(cfg, order, LeavesFields(v, front), Leaves(v.fields[k]));
    }
  }

  // ----- when two values normalize alike -----

  /** What a fresh normalizer returns for `v`. */
  ghost function Normalized(cfg: Config, v: Json): Json {
    RenderJson(cfg, OrderAfter(cfg, [], Leaves(v)), v)
  }

  /** No string carries text that already looks like a token. */
  ghost predicate TokenFreeLeaves(cfg: Config, v: Json) {
    forall s :: s in Leaves(v) ==> TokenFree(if s in cfg.preserve then s else Redacted(cfg.roots, s))
  }

  lemma LeavesNoToken(cfg: Config, v: Json)
    requires TokenFreeLeaves(cfg, v)
    ensures forall i :: 0 <= i < |Leaves(v)| ==> NoTokenText(PiecesAll(cfg, Leaves(v))[i])
  {
    forall i | 0 <= i < |Leaves(v)| ensures NoTokenText(PiecesAll(cfg, Leaves(v))[i]) {
      var s := Leaves(v)[i];
      assert s in Leaves(v);
      TokenFreePieces(if s in cfg.preserve then s else Redacted(cfg.roots, s));
    }
  }

  lemma TextsAreRendered(cfg: Config, order: seq<string>, texts: seq<string>)
    requires AllKnown(PiecesAll(cfg, texts), order)
    ensures TextsOf(cfg, order, texts) == RenderAll(PiecesAll(cfg, texts), order)
  {
    forall i | 0 <= i < |texts| ensures TextsOf(cfg, order, texts)[i] == RenderAll(PiecesAll(cfg, texts), order)[i] {
      assert Known(PiecesAll(cfg, texts)[i], order);
    }
  }

  /** Two values normalize to the same value exactly when they have the same shape, keys and
      other scalars, and some one-to-one renaming of identifiers carries the strings of one,
      paths redacted and timestamps collapsed, to the strings of the other. */
  lemma NormalizedAlikeIff(cfg: Config, v: Json, w: Json)
    requires TokenFreeLeaves(cfg, v) && TokenFreeLeaves(cfg, w)
    ensures Normalized(cfg, v) == Normalized(cfg, w) <==>
            Frame(v) == Frame(w) && SameUpToRenaming(PiecesAll(cfg, Leaves(v)), PiecesAll(cfg, Leaves(w)))
  {
    var pss, qss := PiecesAll(cfg, Leaves(v)), PiecesAll(cfg, Leaves(w));
    LeavesNoToken(cfg, v);
    LeavesNoToken(cfg, w);
    CanonicalIff(pss, qss);
    var o, o' := ExtendAll([], pss), ExtendAll([], qss);
    TextsAreRendered(cfg, o, Leaves(v));
    TextsAreRendered(cfg, o', Leaves(w));
    RenderShape(cfg, o, v);
    RenderShape(cfg, o', w);
    if Frame(v) == Frame(w) && SameUpToRenaming(pss, qss) {
      FrameAndLeaves(Normalized(cfg, v), Normalized(cfg, w));
    }
  }

  // ----- `find_absolute_paths` -----

  predicate IsLetter(c: char) { 'a' <= c <= 'z' || 'A' <= c <= 'Z' }

  predicate LooksAbsolute(s: string) {
    (s != [] && s[0] == '/') || (|s| >= 3 && IsLetter(s[0]) && s[1] == ':' && (s[2] == '\\' || s[2] == '/'))
  }

  datatype Finding = Finding(path: Path, text: string)

  function Findings(v: Json, at: Path): seq<Finding>
    decreases v, 1, 0
  {
    match v
    case Str(s) => if LooksAbsolute(s) then [Finding(at, s)] else []
    case Arr(xs) => FindingsItems(v, |xs|, at)
    case Obj(m) => FindingsFields(v, SortedNames(m.Keys), at)
    case _ => []
  }

  function FindingsItems(v: Json, n: nat, at: Path): seq<Finding>
    requires v.Arr? && n <= |v.items|
    decreases v, 0, n
  {
    if n == 0 then [] else FindingsItems(v, n - 1, at) + Findings(v.items[n - 1], at + [Step.Index(n - 1)])
  }

  function FindingsFields(v: Json, keys: seq<string>, at: Path): seq<Finding>
    requires v.Obj? && forall k :: k in keys ==> k in v.fields
    decreases v, 0, |keys|
  {
    if keys == [] then []
    else
      var k := keys[|keys| - 1];
      FindingsFields(v, keys[..|keys| - 1], at) + Findings(v.fields[k], at + [Key(k)])
  }

  method FindAbsolutePaths(value: Json, at: Path) returns (findings: seq<Finding>)
    ensures findings == Findings(value, at)
    decreases value, 1
  {
    findings := [];
    if value.Obj? {
      findings := FindInFields(value, SortedNames(value.fields.Keys), at);
    } else if value.Arr? {
      for i := 0 to |value.items|
        invariant findings == FindingsItems(value, i, at)
      {
        var below := FindAbsolutePaths(value.items[i], at + [Step.Index(i)]);
        findings := findings + below;
      }
    } else if value.Str? && LooksAbsolute(value.s) {
      findings := findings + [Finding(at, value.s)];
    }
  }

  method FindInFields(value: Json, keys: seq<string>, at: Path) returns (findings: seq<Finding>)
    requires value.Obj? && forall k :: k in keys ==> k in value.fields
    ensures findings == FindingsFields(value, keys, at)
    decreases value, 0
  {
    findings := [];
    for n := 0 to |keys|
      invariant findings == FindingsFields(value, keys[..n], at)
    {
      assert keys[n] in keys && keys[..n + 1][..n] == keys[..n];
      var below := FindAbsolutePaths(value.fields[keys[n]], at + [Key(keys[n])]);
      findings := findings + below;
    }
    assert keys[..|keys|] == keys;
  }

  ghost predicate Reports(v: Json, f: Finding, at: Path) {
    at <= f.path && At(v, f.path[|at|..]) == Some(Str(f.text)) && LooksAbsolute(f.text)
  }

  lemma ReportsBelow(v: Json, below: Json, f: Finding, at: Path, step: Step)
    requires At(v, [step]) == Some(below)
    ensures Reports(below, f, at + [step]) <==> Reports(v, f, at) && at + [step] <= f.path
  {
    if at + [step] <= f.path {
      assert at <= f.path;
      var rest := f.path[|at|..];
      assert rest[0] == step && rest[1..] == f.path[|at + [step]|..];
      assert [step][1..] == [];
    }
  }

  /** The findings are exactly the strings of the value that look absolute, at their own paths. */
  lemma {:induction false} FindingsExact(v: Json, at: Path, f: Finding)
    ensures f in Findings(v, at) <==> Reports(v, f, at)
    decreases v, 1, 0
  {
    match v
    case Str(s) =>
      if at <= f.path && f.path[|at|..] == [] { assert f.path == at; }
      assert at[|at|..] == [];
    case Arr(xs) =>
      ItemFindings(v, |xs|, at, f);
      if Reports(v, f, at) { OneStep(v, f, at); }
    case Obj(m) =>
      FieldFindings(v, SortedNames(m.Keys), at, f);
      if Reports(v, f, at) { OneStep(v, f, at); }
    case _ =>
  }

  /** Inside a container a string is found below some item or field. */
  lemma OneStep(v: Json, f: Finding, at: Path)
    requires (v.Arr? || v.Obj?) && Reports(v, f, at)
    ensures |f.path| > |at| && var step := f.path[|at|]; at + [step] <= f.path && At(v, [step]).Some?
  {
    var rest := f.path[|at|..];
    assert rest != [];
    assert [rest[0]][1..] == [];
  }

  lemma {:induction false} ItemFindings(v: Json, n: nat, at: Path, f: Finding)
    requires v.Arr? && n <= |v.items|
    ensures f in FindingsItems(v, n, at) <==>
            Reports(v, f, at) && exists i :: 0 <= i < n && at + [Step.Index(i)] <= f.path
    decreases v, 0, n
  {
    if n > 0 {
      ItemFindings(v, n - 1, at, f);
      var step := Step.Index(n - 1);
      FindingsExact(v.items[n - 1], at + [step], f);
      assert [step][1..] == [];
      ReportsBelow(v, v.items[n - 1], f, at, step);
      assert (exists i :: 0 <= i < n && at + [Step.Index(i)] <= f.path) <==>
             (at + [step] <= f.path) || exists i :: 0 <= i < n - 1 && at + [Step.Index(i)] <= f.path;
    }
  }

  lemma {:induction false} FieldFindings(v: Json, keys: seq<string>, at: Path, f: Finding)
    requires v.Obj? && forall k :: k in keys ==> k in v.fields
    ensures f in FindingsFields(v, keys, at) <==> Reports(v, f, at) && exists k :: k in keys && at + [Key(k)] <= f.path
    decreases v, 0, |keys|
  {
    if keys != [] {
      var front, k := keys[..|keys| - 1], keys[|keys| - 1];
      FieldFindings(v, front, at, f);
      FindingsExact(v.fields[k], at + [Key(k)], f);
      assert [Key(k)][1..] == [];
      ReportsBelow(v, v.fields[k], f, at, Key(k));
      assert forall x :: x in keys <==> x in front || x == k;
    }
  }

  // ----- no registered root survives -----

  /** A root spelling is nowhere in the text of a string that is not exempt. */
  lemma RootIsGone(cfg: Config, order: seq<string>, s: string, r: Root)
    requires RootsOk(cfg.roots) && s !in cfg.preserve && r in cfg.roots
    ensures !Occurs(r.spelling, TextOf(cfg, order, s))
  {
    var ps := PiecesOf(cfg, s);
    assert RootOk(r);
    if Known(ps, order) && Occurs(r.spelling, Render(ps, order)) {
      RedactionIsClean(cfg.roots, s, r);
      var i: nat :| OccursAt(r.spelling, Render(ps, order), i);
      RunOfRender(ps, order, r.spelling, i);
      var k: nat :| LitRun(ps, k, r.spelling);
      var k' := CollapseRun(IdPieces(Redacted(cfg.roots, s)), k, r.spelling);
      IdRun(Redacted(cfg.roots, s), k', r.spelling);
    }
  }

  lemma RunOfRender(ps: seq<Piece>, order: seq<string>, w: string, i: nat)
    requires Known(ps, order) && WordOk(w) && OccursAt(w, Render(ps, order), i)
    ensures exists k: nat :: LitRun(ps, k, w)
  {
    CutsOk(ps, order);
    var cuts := Cuts(ps, order);
    var k := OutputRun(cuts, w, i);
    forall j | 0 <= j < |w| ensures ps[k + j] == Lit(w[j]) {
      assert cuts[k + j] == Keep(w[j]) && cuts[k + j] == CutOf(ps[k + j], order);
    }
    assert LitRun(ps, k, w);
  }

  lemma {:induction false} RenderAt(cfg: Config, order: seq<string>, v: Json, path: Path, text: string)
    returns (s: string)
    requires At(RenderJson(cfg, order, v), path) == Some(Str(text))
    ensures At(v, path) == Some(Str(s)) && text == TextOf(cfg, order, s)
    decreases path
  {
    match v
    case Str(raw) => s := raw;
    case Arr(xs) => s := RenderAt(cfg, order, xs[path[0].i], path[1..], text);
    case Obj(m) => s := RenderAt(cfg, order, m[path[0].name], path[1..], text);
    case _ => s := [];
  }

  /** Whatever `find_absolute_paths` reports in a normalized value is an exempt string or lies
      under no registered root: no root spelling occurs anywhere in it. */
  lemma NoRegisteredRootReported(cfg: Config, order: seq<string>, v: Json, at: Path, f: Finding)
    requires RootsOk(cfg.roots) && f in Findings(RenderJson(cfg, order, v), at)
    ensures at <= f.path
    ensures (At(v, f.path[|at|..]) == Some(Str(f.text)) && f.text in cfg.preserve)
            || forall r :: r in cfg.roots ==> !Occurs(r.spelling, f.text)
  {
    FindingsExact(RenderJson(cfg, order, v), at, f);
    var s := RenderAt(cfg, order, v, f.path[|at|..], f.text);
    if s in cfg.preserve {
      LiteralRenders(s, order);
    } else {
      forall r | r in cfg.roots ensures !Occurs(r.spelling, f.text) { RootIsGone(cfg, order, s, r); }
    }
  }
}
