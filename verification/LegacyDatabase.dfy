/** Checksummed inventories, the zero-data-loss check, and backup, restore and rollback
    of `baseline/legacy_db.py`. */
module LegacyDatabase {
  import opened Json
  import opened Ordering

  type Row = seq<Json>
  datatype Table = Table(columns: seq<string>, rows: seq<Row>)
  type Database = map<string, Table>

  /** The bytes of a file. */
  type Bytes = string

  /** What the tools take from outside: SHA-256 of a text or of the bytes of a file, the JSON
      encoding of a row, and what SQLite reads from the bytes of a database file. Different
      bytes may hold the same content: a content checksum does not see the page layout. */
  datatype Tools = Tools(sha: Bytes -> string, encode: Row -> string, read: Bytes -> Database)

  /** The digest is collision-free and printed in hexadecimal, and an encoded row is one line. */
  ghost predicate Trusted(tools: Tools) {
    && (forall x, y :: tools.sha(x) == tools.sha(y) ==> x == y)
    && (forall x :: '\n' !in tools.sha(x) && ':' !in tools.sha(x))
    && (forall r :: '\n' !in tools.encode(r))
  }

  // ----- the assumption can be met -----

  /** A printable code of one character: `a` and one more character for the three that need it. */
  function CharCode(c: char): string {
    if c == 'a' then "aa" else if c == '\n' then "ab" else if c == ':' then "ac" else [c]
  }

  function Code(s: string): string { if s == [] then [] else CharCode(s[0]) + Code(s[1..]) }

  lemma {:induction false} CodeInjective(s: string, t: string)
    requires Code(s) == Code(t)
    ensures s == t
  {
    if s != [] && t != [] {
      var c, rest, d, rest' := s[0], s[1..], t[0], t[1..];
      CharCodeRead(c, Code(rest), d, Code(rest'));
      CodeInjective(rest, rest');
      assert s == [c] + rest && t == [d] + rest';
    } else {
      CodeLength(s);
      CodeLength(t);
    }
  }

  lemma CodeLength(s: string)
    ensures Code(s) == [] <==> s == []
  {
    if s != [] { assert |Code(s)| == |CharCode(s[0])| + |Code(s[1..])|; }
  }

  /** A coded character followed by anything determines the character and the rest. */
  lemma CharCodeRead(c: char, rest: string, d: char, rest': string)
    requires CharCode(c) + rest == CharCode(d) + rest'
    ensures c == d && rest == rest'
  {
    var s, n := CharCode(c) + rest, |CharCode(c)|;
    assert s[0] == CharCode(c)[0] == CharCode(d)[0];
    assert |CharCode(d)| == n;
    assert CharCode(c) == s[..n] == CharCode(d) && rest == s[n..] == rest';
  }

  lemma {:induction false} CodePrintable(s: string)
    ensures '\n' !in Code(s) && ':' !in Code(s)
  {
    if s != [] { CodePrintable(s[1..]); }
  }

  /** Some tools are trusted, so nothing that assumes it is vacuous. */
  lemma TrustedToolsExist(encode: Row -> string, read: Bytes -> Database)
    requires forall r :: '\n' !in encode(r)
    ensures Trusted(Tools(Code, encode, read))
  {
    forall x, y | Code(x) == Code(y) ensures x == y { CodeInjective(x, y); }
    forall x ensures '\n' !in Code(x) && ':' !in Code(x) { CodePrintable(x); }
  }

  datatype TableInventory = TableInventory(name: string, columns: seq<string>, rowCount: nat, checksum: string)
  datatype Inventory = Inventory(tables: seq<TableInventory>, checksum: string, totalRows: nat)

  // ----- checksums -----

  /** `separator.join(parts)` */
  function Joined(separator: string, parts: seq<string>): string {
    if parts == [] then [] else if |parts| == 1 then parts[0]
    else Joined(separator, parts[..|parts| - 1]) + separator + parts[|parts| - 1]
  }

  /** Each item on a line of its own. */
  function Lines(items: seq<string>): string {
    if items == [] then [] else Lines(items[..|items| - 1]) + "\n" + items[|items| - 1]
  }

  function Encoded(tools: Tools, rows: seq<Row>): seq<string> {
    seq(|rows|, i requires 0 <= i < |rows| => tools.encode(rows[i]))
  }

  function TableText(tools: Tools, t: Table): string {
    Joined("|", t.columns) + Lines(SortBy(Self, Encoded(tools, t.rows)))
  }

  function TableEntry(tools: Tools, name: string, t: Table): TableInventory {
    TableInventory(name, t.columns, |t.rows|, tools.sha(TableText(tools, t)))
  }

  /** `_table_inventory`: columns first, then the encoded rows in canonical order. */
  method TableInventoryOf(tools: Tools, name: string, t: Table) returns (r: TableInventory)
    ensures r == TableEntry(tools, name, t)
  {
    var encoded := SortBy(Self, Encoded(tools, t.rows));
    var digest := Joined("|", t.columns);
    assert digest == digest + Lines(encoded[..0]);
    for i := 0 to |encoded|
      invariant digest == Joined("|", t.columns) + Lines(encoded[..i])
    {
      assert encoded[..i + 1][..i] == encoded[..i];
      digest := digest + "\n";
      digest := digest + encoded[i];
    }
    assert encoded[..|encoded|] == encoded;
    r := TableInventory(name, t.columns, |t.rows|, tools.sha(digest));
  }

  predicate Internal(name: string) { "sqlite_" <= name }

  function UserTables(db: Database): set<string> { set n | n in db && !Internal(n) }

  /** The table of that name; only names of tables are looked up. */
  function TableAt(db: Database, n: string): Table { if n in db then db[n] else Table([], []) }

  function Entries(tools: Tools, db: Database, names: seq<string>): (r: seq<TableInventory>)
    ensures |r| == |names|
  {
    if names == [] then []
    else
      var last := names[|names| - 1];
      Entries(tools, db, names[..|names| - 1]) + [TableEntry(tools, last, TableAt(db, last))]
  }

  lemma EntriesNext(tools: Tools, db: Database, names: seq<string>, i: nat)
    requires i < |names|
    ensures Entries(tools, db, names[..i + 1]) ==
            Entries(tools, db, names[..i]) + [TableEntry(tools, names[i], TableAt(db, names[i]))]
  {
    assert names[..i + 1][..i] == names[..i];
  }

  lemma {:induction false} EntriesAt(tools: Tools, db: Database, names: seq<string>, i: nat)
    requires i < |names|
    ensures Entries(tools, db, names)[i] == TableEntry(tools, names[i], TableAt(db, names[i]))
  {
    if i < |names| - 1 { EntriesAt(tools, db, names[..|names| - 1], i); }
  }

  function SummaryLine(t: TableInventory): string { t.name + ":" + t.checksum + "\n" }

  function SummaryText(tables: seq<TableInventory>): string {
    if tables == [] then [] else SummaryText(tables[..|tables| - 1]) + SummaryLine(tables[|tables| - 1])
  }

  function TotalRows(tables: seq<TableInventory>): nat {
    if tables == [] then 0 else TotalRows(tables[..|tables| - 1]) + tables[|tables| - 1].rowCount
  }

  /** `capture_inventory` on a readable database. */
  function Captured(tools: Tools, db: Database): Inventory {
    var tables := Entries(tools, db, SortedNames(UserTables(db)));
    Inventory(tables, tools.sha(SummaryText(tables)), TotalRows(tables))
  }

  method CaptureInventory(tools: Tools, db: Database) returns (r: Inventory)
    ensures r == Captured(tools, db)
  {
    r := InventoryOver(tools, db, SortedNames(UserTables(db)));
  }

  lemma SummarySnoc(tables: seq<TableInventory>, entry: TableInventory)
    ensures SummaryText(tables + [entry]) == SummaryText(tables) + SummaryLine(entry)
    ensures TotalRows(tables + [entry]) == TotalRows(tables) + entry.rowCount
  {
    assert (tables + [entry])[..|tables|] == tables;
  }

  method InventoryOver(tools: Tools, db: Database, names: seq<string>) returns (r: Inventory)
    ensures var tables := Entries(tools, db, names);
            r == Inventory(tables, tools.sha(SummaryText(tables)), TotalRows(tables))
  {
    var tables: seq<TableInventory> := [];
    var overall, total := [], 0;
    for i := 0 to |names|
      invariant tables == Entries(tools, db, names[..i])
      invariant overall == SummaryText(tables) && total == TotalRows(tables)
    {
      var entry := TableInventoryOf(tools, names[i], TableAt(db, names[i]));
      SummarySnoc(tables, entry);
      EntriesNext(tools, db, names, i);
      overall := overall + SummaryLine(entry);
      total := total + entry.rowCount;
      tables := tables + [entry];
    }
    assert names[..|names|] == names;
    r := Inventory(tables, tools.sha(overall), total);
  }

  // ----- zero data loss -----

  datatype Loss = Missing(name: string) | Appeared(name: string) | ColumnsChanged(name: string)
                | RowCountChanged(name: string) | ValuesChanged(name: string) | OnlyOverallChanged

  function ByName(tables: seq<TableInventory>): map<string, TableInventory> {
    if tables == [] then map[] else ByName(tables[..|tables| - 1])[tables[|tables| - 1].name := tables[|tables| - 1]]
  }

  predicate TableKept(x: TableInventory, y: TableInventory) {
    x.columns == y.columns && x.rowCount == y.rowCount && x.checksum == y.checksum
  }

  /** Same tables, and every one kept. */
  predicate TablesKept(before: map<string, TableInventory>, after: map<string, TableInventory>) {
    before.Keys == after.Keys && forall n :: n in before ==> TableKept(before[n], after[n])
  }

  /** `verify_zero_data_loss` */
  method VerifyZeroDataLoss(before: Inventory, after: Inventory) returns (problems: seq<Loss>)
    ensures problems == [] <==>
            TablesKept(ByName(before.tables), ByName(after.tables)) && before.checksum == after.checksum
    ensures OnlyOverallChanged in problems <==>
            TablesKept(ByName(before.tables), ByName(after.tables)) && before.checksum != after.checksum
  {
    var b, a := ByName(before.tables), ByName(after.tables);
    problems := [];
    var missing := SortedNames(b.Keys - a.Keys);
    for i := 0 to |missing|
      invariant |problems| == i && OnlyOverallChanged !in problems
    {
      problems := problems + [Missing(missing[i])];
    }
    var added := SortedNames(a.Keys - b.Keys);
    for i := 0 to |added|
      invariant |problems| == |missing| + i && OnlyOverallChanged !in problems
    {
      problems := problems + [Appeared(added[i])];
    }
    assert problems == [] <==> b.Keys == a.Keys by { SameKeys(b.Keys, a.Keys, missing, added); }
    var shared := SortedNames(b.Keys * a.Keys);
    forall k | 0 <= k < |shared| ensures shared[k] in b && shared[k] in a { assert shared[k] in shared; }
    for i := 0 to |shared|
      invariant OnlyOverallChanged !in problems
      invariant problems == [] <==> b.Keys == a.Keys && forall k :: 0 <= k < i ==> TableKept(b[shared[k]], a[shared[k]])
    {
      var name := shared[i];
      var original, current := b[name], a[name];
      if original.columns != current.columns { problems := problems + [ColumnsChanged(name)]; }
      if original.rowCount != current.rowCount {
        problems := problems + [RowCountChanged(name)];
      } else if original.checksum != current.checksum {
        problems := problems + [ValuesChanged(name)];
      }
    }
    assert problems == [] <==> TablesKept(b, a) by {
      if problems == [] {
        forall n | n in b ensures TableKept(b[n], a[n]) {
          assert n in shared;
          var k :| 0 <= k < |shared| && shared[k] == n;
        }
      }
    }
    if problems == [] && before.checksum != after.checksum {
      problems := problems + [OnlyOverallChanged];
    }
  }

  lemma SameKeys(x: set<string>, y: set<string>, missing: seq<string>, added: seq<string>)
    requires forall n :: n in missing <==> n in x - y
    requires forall n :: n in added <==> n in y - x
    ensures |missing| == 0 && |added| == 0 <==> x == y
  {
    if |missing| == 0 && |added| == 0 {
      forall n ensures n in x <==> n in y { assert n !in missing && n !in added; }
    } else if |missing| > 0 {
      assert missing[0] in x - y;
    } else {
      assert added[0] in y - x;
    }
  }

  // ----- decoding the hashed texts -----

  /** A text splits in one way at its last `c`. */
  lemma LastSplit(a: string, x: string, b: string, y: string, c: char)
    requires a + [c] + x == b + [c] + y && c !in x && c !in y
    ensures a == b && x == y
  {
    var s := a + [c] + x;
    assert s[|a|] == c && s[|b|] == c;
    assert |a| == |b|;
    assert a == s[..|a|] == b && x == s[|a| + 1..] == y;
  }

  ghost predicate OneLine(items: seq<string>) { forall i :: 0 <= i < |items| ==> '\n' !in items[i] }

  lemma {:induction false} LinesInjective(xs: seq<string>, ys: seq<string>)
    requires OneLine(xs) && OneLine(ys) && Lines(xs) == Lines(ys)
    ensures xs == ys
  {
    if xs != [] && ys != [] {
      var n, m := |xs| - 1, |ys| - 1;
      LastSplit(Lines(xs[..n]), xs[n], Lines(ys[..m]), ys[m], '\n');
      LinesInjective(xs[..n], ys[..m]);
      assert xs == xs[..n] + [xs[n]] && ys == ys[..m] + [ys[m]];
    }
  }

  lemma {:induction false} LinesStart(xs: seq<string>)
    ensures xs != [] ==> Lines(xs) != [] && Lines(xs)[0] == '\n'
    ensures xs == [] ==> Lines(xs) == []
  {
    if xs != [] { LinesStart(xs[..|xs| - 1]); }
  }

  /** A one-line heading and the lines after it are determined by the whole text. */
  lemma HeadingSplit(a: string, xs: seq<string>, b: string, ys: seq<string>)
    requires '\n' !in a && '\n' !in b && OneLine(xs) && OneLine(ys)
    requires a + Lines(xs) == b + Lines(ys)
    ensures a == b && xs == ys
  {
    LinesStart(xs);
    LinesStart(ys);
    var s := a + Lines(xs);
    assert forall i :: 0 <= i < |a| || 0 <= i < |b| ==> s[i] != '\n';
    assert |a| < |s| ==> s[|a|] == '\n';
    assert |b| < |s| ==> s[|b|] == '\n';
    assert |a| == |b|;
    assert a == s[..|a|] == b && Lines(xs) == s[|a|..] == Lines(ys);
    LinesInjective(xs, ys);
  }

  lemma {:induction false} JoinedChars(parts: seq<string>, c: char)
    requires c != '|' && forall i :: 0 <= i < |parts| ==> c !in parts[i]
    ensures c !in Joined("|", parts)
  {
    if |parts| > 1 { JoinedChars(parts[..|parts| - 1], c); }
  }

  lemma {:induction false} JoinedInjective(xs: seq<string>, ys: seq<string>)
    requires xs != [] && ys != [] && Joined("|", xs) == Joined("|", ys)
    requires forall i :: 0 <= i < |xs| ==> '|' !in xs[i]
    requires forall i :: 0 <= i < |ys| ==> '|' !in ys[i]
    ensures xs == ys
  {
    var n, m := |xs| - 1, |ys| - 1;
    assert n > 0 ==> Joined("|", xs)[|Joined("|", xs[..n])|] == '|';
    assert m > 0 ==> Joined("|", ys)[|Joined("|", ys[..m])|] == '|';
    if n > 0 && m > 0 {
      LastSplit(Joined("|", xs[..n]), xs[n], Joined("|", ys[..m]), ys[m], '|');
      JoinedInjective(xs[..n], ys[..m]);
      assert xs == xs[..n] + [xs[n]] && ys == ys[..m] + [ys[m]];
    }
  }

  // ----- what a checksum stands for -----

  /** The same user tables, columns and multisets of encoded rows, whatever the physical row order. */
  ghost predicate SameContent(tools: Tools, x: Database, y: Database) {
    && UserTables(x) == UserTables(y)
    && forall n :: n in UserTables(x) ==>
         x[n].columns == y[n].columns && multiset(Encoded(tools, x[n].rows)) == multiset(Encoded(tools, y[n].rows))
  }

  lemma EncodedOneLine(tools: Tools, rows: seq<Row>)
    requires Trusted(tools)
    ensures OneLine(SortBy(Self, Encoded(tools, rows)))
  {
    var items := SortBy(Self, Encoded(tools, rows));
    SortMembers(Self, Encoded(tools, rows));
    forall i | 0 <= i < |items| ensures '\n' !in items[i] {
      assert items[i] in Encoded(tools, rows);
    }
  }

  lemma RowsDecide(tools: Tools, x: Table, y: Table)
    requires Trusted(tools) && x.columns == y.columns
    ensures TableText(tools, x) == TableText(tools, y) <==>
            multiset(Encoded(tools, x.rows)) == multiset(Encoded(tools, y.rows))
  {
    var heading := Joined("|", x.columns);
    var a, b := SortBy(Self, Encoded(tools, x.rows)), SortBy(Self, Encoded(tools, y.rows));
    SortedStringsAgree(Encoded(tools, x.rows), Encoded(tools, y.rows));
    EncodedOneLine(tools, x.rows);
    EncodedOneLine(tools, y.rows);
    if TableText(tools, x) == TableText(tools, y) {
      assert Lines(a) == (heading + Lines(a))[|heading|..] == (heading + Lines(b))[|heading|..] == Lines(b);
      LinesInjective(a, b);
    }
  }

  /** A table is kept by the inventories exactly when its columns and row multiset are. */
  lemma TableKeptIff(tools: Tools, name: string, x: Table, y: Table)
    requires Trusted(tools)
    ensures TableKept(TableEntry(tools, name, x), TableEntry(tools, name, y)) <==>
            x.columns == y.columns && multiset(Encoded(tools, x.rows)) == multiset(Encoded(tools, y.rows))
  {
    if x.columns == y.columns {
      RowsDecide(tools, x, y);
      assert |x.rows| == |Encoded(tools, x.rows)| == |multiset(Encoded(tools, x.rows))|;
      assert |y.rows| == |Encoded(tools, y.rows)| == |multiset(Encoded(tools, y.rows))|;
    }
  }

  /** A name looks up an inventory of that name, if there is one. */
  lemma {:induction false} ByNameFinds(tables: seq<TableInventory>, n: string)
    ensures n in ByName(tables) <==> exists i :: 0 <= i < |tables| && tables[i].name == n
    ensures n in ByName(tables) ==>
            exists i :: 0 <= i < |tables| && tables[i].name == n && ByName(tables)[n] == tables[i]
  {
    if tables != [] {
      var last := |tables| - 1;
      ByNameFinds(tables[..last], n);
      if tables[last].name != n && n in ByName(tables) {
        var i :| 0 <= i < last && tables[i].name == n && ByName(tables[..last])[n] == tables[i];
      }
    }
  }

  lemma ByNameEntries(tools: Tools, db: Database, names: seq<string>, n: string)
    ensures n in ByName(Entries(tools, db, names)) <==> n in names
    ensures n in names ==> ByName(Entries(tools, db, names))[n] == TableEntry(tools, n, TableAt(db, n))
  {
    var tables := Entries(tools, db, names);
    ByNameFinds(tables, n);
    forall i | 0 <= i < |names| ensures tables[i] == TableEntry(tools, names[i], TableAt(db, names[i])) {
      EntriesAt(tools, db, names, i);
    }
    if n in names {
      var i :| 0 <= i < |names| && names[i] == n;
      assert tables[i].name == n;
    }
  }

  /** The captured tables of two databases are kept exactly when their contents agree. */
  lemma KeptIffSameContent(tools: Tools, x: Database, y: Database)
    requires Trusted(tools)
    ensures TablesKept(ByName(Captured(tools, x).tables), ByName(Captured(tools, y).tables)) <==>
            SameContent(tools, x, y)
  {
    KeptIffOver(tools, x, y, SortedNames(UserTables(x)), SortedNames(UserTables(y)));
  }

  /** Table `n`, if both databases have it, has the same columns and row multiset in both. */
  ghost predicate SameTable(tools: Tools, x: Database, y: Database, n: string) {
    n in x && n in y ==>
      x[n].columns == y[n].columns && multiset(Encoded(tools, x[n].rows)) == multiset(Encoded(tools, y[n].rows))
  }

  lemma KeptIffOver(tools: Tools, x: Database, y: Database, names: seq<string>, names': seq<string>)
    requires Trusted(tools)
    requires (forall n :: n in names <==> n in UserTables(x)) && (forall n :: n in names' <==> n in UserTables(y))
    ensures TablesKept(ByName(Entries(tools, x, names)), ByName(Entries(tools, y, names'))) <==>
            SameContent(tools, x, y)
  {
    var b, a := ByName(Entries(tools, x, names)), ByName(Entries(tools, y, names'));
    forall n ensures (n in b <==> n in UserTables(x)) && (n in a <==> n in UserTables(y))
             ensures n in b && n in a ==> (TableKept(b[n], a[n]) <==> SameTable(tools, x, y, n))
    {
      OneTableKept(tools, x, y, names, names', n);
    }
    KeptPointwise(tools, x, y, b, a);
  }

  lemma OneTableKept(tools: Tools, x: Database, y: Database, names: seq<string>, names': seq<string>, n: string)
    requires Trusted(tools)
    requires (forall m :: m in names <==> m in UserTables(x)) && (forall m :: m in names' <==> m in UserTables(y))
    ensures var b, a := ByName(Entries(tools, x, names)), ByName(Entries(tools, y, names'));
            && (n in b <==> n in UserTables(x)) && (n in a <==> n in UserTables(y))
            && (n in b && n in a ==> (TableKept(b[n], a[n]) <==> SameTable(tools, x, y, n)))
  {
    ByNameEntries(tools, x, names, n);
    ByNameEntries(tools, y, names', n);
    if n in names && n in names' { TableKeptIff(tools, n, x[n], y[n]); }
  }

  lemma KeptPointwise(tools: Tools, x: Database, y: Database, b: map<string, TableInventory>,
                      a: map<string, TableInventory>)
    requires forall n :: (n in b <==> n in UserTables(x)) && (n in a <==> n in UserTables(y))
    requires forall n :: n in b && n in a ==> (TableKept(b[n], a[n]) <==> SameTable(tools, x, y, n))
    ensures TablesKept(b, a) <==> SameContent(tools, x, y)
  {
    assert b.Keys == UserTables(x) && a.Keys == UserTables(y);
    if TablesKept(b, a) {
      forall n | n in UserTables(x) ensures SameTable(tools, x, y, n) { assert n in b; }
    }
    if SameContent(tools, x, y) {
      forall n | n in b ensures TableKept(b[n], a[n]) { assert n in UserTables(x) && SameTable(tools, x, y, n); }
    }
  }

  lemma {:induction false} SameSummary(xs: seq<TableInventory>, ys: seq<TableInventory>)
    requires |xs| == |ys|
    requires forall i :: 0 <= i < |xs| ==>
             xs[i].name == ys[i].name && xs[i].checksum == ys[i].checksum && xs[i].rowCount == ys[i].rowCount
    ensures SummaryText(xs) == SummaryText(ys) && TotalRows(xs) == TotalRows(ys)
  {
    if xs != [] { SameSummary(xs[..|xs| - 1], ys[..|ys| - 1]); }
  }

  /** Equal contents give equal whole-database checksums, so for captured inventories the
      final check of the zero-data-loss test never fires on its own. */
  lemma SameContentSameChecksum(tools: Tools, x: Database, y: Database)
    requires Trusted(tools) && SameContent(tools, x, y)
    ensures Captured(tools, x).checksum == Captured(tools, y).checksum
    ensures Captured(tools, x).totalRows == Captured(tools, y).totalRows
  {
    var names := SortedNames(UserTables(x));
    var b, a := Entries(tools, x, names), Entries(tools, y, names);
    forall i | 0 <= i < |names|
      ensures b[i].name == a[i].name && b[i].checksum == a[i].checksum && b[i].rowCount == a[i].rowCount
    {
      assert names[i] in names && names[i] in UserTables(x) && names[i] in UserTables(y);
      EntriesAt(tools, x, names, i);
      EntriesAt(tools, y, names, i);
      TableKeptIff(tools, names[i], x[names[i]], y[names[i]]);
    }
    SameSummary(b, a);
  }

  /** Zero data loss is reported exactly when tables, columns and row multisets agree. */
  lemma ZeroDataLossIff(tools: Tools, x: Database, y: Database)
    requires Trusted(tools)
    ensures var b, a := Captured(tools, x), Captured(tools, y);
            && (TablesKept(ByName(b.tables), ByName(a.tables)) && b.checksum == a.checksum <==>
              SameContent(tools, x, y))
            && (TablesKept(ByName(b.tables), ByName(a.tables)) ==> b.checksum == a.checksum)
  {
    KeptIffSameContent(tools, x, y);
    if SameContent(tools, x, y) { SameContentSameChecksum(tools, x, y); }
  }

  /** The name of a table SQLite keeps for itself. */
  predicate ForSqlite(name: string) { |name| >= 7 && name[..7] == "sqlite_" }

  lemma UserTablesExact(db: Database, n: string)
    ensures n in UserTables(db) <==> n in db && !ForSqlite(n)
  {
  }

  /** Something was lost or changed: a table that is not SQLite's own is gone or new, or has other
      columns or other encoded rows. */
  ghost predicate Changed(tools: Tools, x: Database, y: Database) {
    || (exists n :: !ForSqlite(n) && (n in x) != (n in y))
    || (exists n :: !ForSqlite(n) && n in x && n in y &&
          (x[n].columns != y[n].columns || multiset(Encoded(tools, x[n].rows)) != multiset(Encoded(tools, y[n].rows))))
  }

  lemma ContentUnchanged(tools: Tools, x: Database, y: Database)
    ensures SameContent(tools, x, y) <==> !Changed(tools, x, y)
  {
    forall n ensures (n in UserTables(x) <==> n in x && !ForSqlite(n)) &&
      (n in UserTables(y) <==> n in y && !ForSqlite(n)) {
      UserTablesExact(x, n);
      UserTablesExact(y, n);
    }
    if !Changed(tools, x, y) { assert UserTables(x) == UserTables(y); }
  }

  /** Two captured inventories pass the comparison exactly when nothing was lost or changed. */
  lemma EveryLossIsReported(tools: Tools, x: Database, y: Database)
    requires Trusted(tools)
    ensures var b, a := Captured(tools, x), Captured(tools, y);
            TablesKept(ByName(b.tables), ByName(a.tables)) && b.checksum == a.checksum <==> !Changed(tools, x, y)
  {
    ZeroDataLossIff(tools, x, y);
    ContentUnchanged(tools, x, y);
  }
}
