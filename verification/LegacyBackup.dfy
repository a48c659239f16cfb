/** Backup, restore and rollback of `baseline/legacy_db.py`, and every run of them. */
module LegacyBackup {
  import opened Json
  import opened Ordering
  import opened LegacyDatabase

  // ----- the whole-database checksum -----

  /** Table names fit on one line. */
  ghost predicate OneLineTables(db: Database) { forall n :: n in UserTables(db) ==> '\n' !in n }

  /** Column names fit on one line. */
  ghost predicate OneLineColumns(db: Database) { forall n :: n in UserTables(db) ==> OneLine(db[n].columns) }

  ghost predicate PlainEntry(t: TableInventory) { '\n' !in t.name && '\n' !in t.checksum && ':' !in t.checksum }

  lemma {:induction false} SummaryEnd(xs: seq<TableInventory>)
    ensures xs != [] ==> SummaryText(xs) != [] && SummaryText(xs)[|SummaryText(xs)| - 1] == '\n'
  {
  }

  lemma LastLine(f: string, l: string, f': string, l': string)
    requires f + l + "\n" == f' + l' + "\n" && '\n' !in l && '\n' !in l'
    requires f == [] || f[|f| - 1] == '\n'
    requires f' == [] || f'[|f'| - 1] == '\n'
    ensures f == f' && l == l'
  {
    var s := f + l;
    assert s == (f + l + "\n")[..|s|] == (f' + l' + "\n")[..|s|] == f' + l';
    assert forall i :: |f| <= i < |s| ==> s[i] == l[i - |f|];
    assert forall i :: |f'| <= i < |s| ==> s[i] == l'[i - |f'|];
    assert f != [] ==> s[|f| - 1] == '\n';
    assert f' != [] ==> s[|f'| - 1] == '\n';
    assert |f| == |f'|;
    assert f == s[..|f|] == f' && l == s[|f|..] == l';
  }

  /** The hashed summary determines every table's name and checksum. */
  lemma {:induction false} SummaryInjective(xs: seq<TableInventory>, ys: seq<TableInventory>)
    requires forall i :: 0 <= i < |xs| ==> PlainEntry(xs[i])
    requires forall i :: 0 <= i < |ys| ==> PlainEntry(ys[i])
    requires SummaryText(xs) == SummaryText(ys)
    ensures |xs| == |ys| && forall i :: 0 <= i < |xs| ==> xs[i].name == ys[i].name && xs[i].checksum == ys[i].checksum
  {
    SummaryEnd(xs);
    SummaryEnd(ys);
    if xs != [] && ys != [] {
      LastEntries(xs, ys);
      SummaryInjective(xs[..|xs| - 1], ys[..|ys| - 1]);
    }
  }

  lemma LastEntries(xs: seq<TableInventory>, ys: seq<TableInventory>)
    requires xs != [] && ys != [] && SummaryText(xs) == SummaryText(ys)
    requires PlainEntry(xs[|xs| - 1]) && PlainEntry(ys[|ys| - 1])
    ensures SummaryText(xs[..|xs| - 1]) == SummaryText(ys[..|ys| - 1])
    ensures var x, y := xs[|xs| - 1], ys[|ys| - 1]; x.name == y.name && x.checksum == y.checksum
  {
    var fx, x, fy, y := xs[..|xs| - 1], xs[|xs| - 1], ys[..|ys| - 1], ys[|ys| - 1];
    SummaryEnd(fx);
    SummaryEnd(fy);
    SummaryLast(SummaryText(fx), x);
    SummaryLast(SummaryText(fy), y);
    LastLine(SummaryText(fx), LineOf(x), SummaryText(fy), LineOf(y));
    SameLine(x, y);
  }

  function LineOf(t: TableInventory): string { t.name + ":" + t.checksum }

  lemma SummaryLast(front: string, t: TableInventory)
    ensures front + SummaryLine(t) == front + LineOf(t) + "\n"
    ensures PlainEntry(t) ==> '\n' !in LineOf(t)
  {
  }

  lemma SameLine(x: TableInventory, y: TableInventory)
    requires LineOf(x) == LineOf(y) && PlainEntry(x) && PlainEntry(y)
    ensures x.name == y.name && x.checksum == y.checksum
  {
    LastSplit(x.name, x.checksum, y.name, y.checksum, ':');
  }

  lemma EntriesPlain(tools: Tools, db: Database)
    requires Trusted(tools) && OneLineTables(db)
    ensures forall i :: 0 <= i < |Captured(tools, db).tables| ==> PlainEntry(Captured(tools, db).tables[i])
  {
    var names := SortedNames(UserTables(db));
    forall i | 0 <= i < |names| ensures PlainEntry(Captured(tools, db).tables[i]) {
      assert names[i] in names && names[i] in UserTables(db);
      EntriesAt(tools, db, names, i);
    }
  }

  /** Equal name-ordered summaries list the same user tables. */
  lemma SameNames(x: Database, y: Database)
    requires SortedNames(UserTables(x)) == SortedNames(UserTables(y))
    ensures UserTables(x) == UserTables(y)
  {
    var names := SortedNames(UserTables(x));
    forall n ensures n in UserTables(x) <==> n in UserTables(y) { assert n in names <==> n in UserTables(x); }
  }

  lemma ShaInjective(tools: Tools, s: string, t: string)
    requires Trusted(tools) && tools.sha(s) == tools.sha(t)
    ensures s == t
  {
  }

  lemma SameSummaries(tools: Tools, x: Database, y: Database)
    requires Trusted(tools) && OneLineTables(x) && OneLineTables(y)
    requires Captured(tools, x).checksum == Captured(tools, y).checksum
    ensures var b, a := Captured(tools, x).tables, Captured(tools, y).tables;
            |b| == |a| && forall i :: 0 <= i < |b| ==> b[i].name == a[i].name && b[i].checksum == a[i].checksum
  {
    var b, a := Captured(tools, x).tables, Captured(tools, y).tables;
    EntriesPlain(tools, x);
    EntriesPlain(tools, y);
    ShaInjective(tools, SummaryText(b), SummaryText(a));
    SummaryInjective(b, a);
  }

  lemma EntryOf(tools: Tools, db: Database, i: nat)
    requires i < |SortedNames(UserTables(db))|
    ensures var n, entries := SortedNames(UserTables(db))[i], Captured(tools, db).tables;
            && n in db && i < |entries| && entries[i].name == n &&
              entries[i].checksum == tools.sha(TableText(tools, db[n]))
  {
    assert SortedNames(UserTables(db))[i] in SortedNames(UserTables(db));
    EntriesAt(tools, db, SortedNames(UserTables(db)), i);
  }

  lemma SameEntries(tools: Tools, x: Database, y: Database)
    requires Trusted(tools) && OneLineTables(x) && OneLineTables(y)
    requires Captured(tools, x).checksum == Captured(tools, y).checksum
    ensures UserTables(x) == UserTables(y)
    ensures forall n :: n in UserTables(x) ==> TableText(tools, x[n]) == TableText(tools, y[n])
  {
    var names := SortedNames(UserTables(x));
    SameSummaries(tools, x, y);
    SameListing(tools, x, y);
    SameNames(x, y);
    forall n | n in UserTables(x) ensures TableText(tools, x[n]) == TableText(tools, y[n]) {
      assert n in names;
      var i :| 0 <= i < |names| && names[i] == n;
      SameEntry(tools, x, y, i);
    }
  }

  lemma SameListing(tools: Tools, x: Database, y: Database)
    requires var b, a := Captured(tools, x).tables, Captured(tools, y).tables;
             |b| == |a| && forall i :: 0 <= i < |b| ==> b[i].name == a[i].name && b[i].checksum == a[i].checksum
    ensures SortedNames(UserTables(x)) == SortedNames(UserTables(y))
  {
    var names, names' := SortedNames(UserTables(x)), SortedNames(UserTables(y));
    assert |names| == |names'|;
    forall i | 0 <= i < |names| ensures names[i] == names'[i] {
      EntryOf(tools, x, i);
      EntryOf(tools, y, i);
    }
  }

  lemma SameEntry(tools: Tools, x: Database, y: Database, i: nat)
    requires Trusted(tools) && i < |SortedNames(UserTables(x))|
    requires SortedNames(UserTables(x)) == SortedNames(UserTables(y))
    requires var b, a := Captured(tools, x).tables, Captured(tools, y).tables;
             i < |b| && i < |a| && b[i].checksum == a[i].checksum
    ensures var n := SortedNames(UserTables(x))[i]; n in x && n in y && TableText(tools, x[n]) == TableText(tools, y[n])
  {
    EntryOf(tools, x, i);
    EntryOf(tools, y, i);
    var n := SortedNames(UserTables(x))[i];
    ShaInjective(tools, TableText(tools, x[n]), TableText(tools, y[n]));
  }

  /** The same user tables, each with the same hashed text. */
  ghost predicate SameTexts(tools: Tools, x: Database, y: Database) {
    UserTables(x) == UserTables(y) && forall n :: n in UserTables(x) ==>
      TableText(tools, x[n]) == TableText(tools, y[n])
  }

  /** The same user tables, each with the same joined column line and multiset of encoded rows. */
  ghost predicate SameLines(tools: Tools, x: Database, y: Database) {
    && UserTables(x) == UserTables(y)
    && forall n :: n in UserTables(x) ==>
         && Joined("|", x[n].columns) == Joined("|", y[n].columns)
         && multiset(Encoded(tools, x[n].rows)) == multiset(Encoded(tools, y[n].rows))
  }

  ghost predicate SameColumns(x: Database, y: Database) {
    UserTables(x) == UserTables(y) && forall n :: n in UserTables(x) ==> x[n].columns == y[n].columns
  }

  lemma SameTextsSameChecksum(tools: Tools, x: Database, y: Database)
    requires Trusted(tools) && SameTexts(tools, x, y)
    ensures Captured(tools, x).checksum == Captured(tools, y).checksum
  {
    var names := SortedNames(UserTables(x));
    SameChecksums(tools, x, y, names);
  }

  lemma {:induction false} SameChecksums(tools: Tools, x: Database, y: Database, names: seq<string>)
    requires forall n :: n in names ==> TableText(tools, TableAt(x, n)) == TableText(tools, TableAt(y, n))
    ensures SummaryText(Entries(tools, x, names)) == SummaryText(Entries(tools, y, names))
  {
    if names != [] {
      var front, n := names[..|names| - 1], names[|names| - 1];
      assert n in names && forall m :: m in front ==> m in names;
      SameChecksums(tools, x, y, front);
      SummaryNext(tools, x, names);
      SummaryNext(tools, y, names);
    }
  }

  lemma SummaryNext(tools: Tools, db: Database, names: seq<string>)
    requires names != []
    ensures var front, n := names[..|names| - 1], names[|names| - 1];
            SummaryText(Entries(tools, db, names)) ==
            SummaryText(Entries(tools, db, front)) + (n + ":" + tools.sha(TableText(tools, TableAt(db, n))) + "\n")
  {
    var front, n := names[..|names| - 1], names[|names| - 1];
    SummarySnoc(Entries(tools, db, front), TableEntry(tools, n, TableAt(db, n)));
  }

  /** The content checksum identifies exactly the tables and the text hashed for each of them. */
  lemma ContentChecksumIff(tools: Tools, x: Database, y: Database)
    requires Trusted(tools) && OneLineTables(x) && OneLineTables(y)
    ensures Captured(tools, x).checksum == Captured(tools, y).checksum <==> SameTexts(tools, x, y)
  {
    if Captured(tools, x).checksum == Captured(tools, y).checksum { SameEntries(tools, x, y); }
    if SameTexts(tools, x, y) { SameTextsSameChecksum(tools, x, y); }
  }

  /** With one-line column names the hashed text is the joined column line and the row multiset. */
  lemma TableTextIff(tools: Tools, x: Table, y: Table)
    requires Trusted(tools) && OneLine(x.columns) && OneLine(y.columns)
    ensures TableText(tools, x) == TableText(tools, y) <==>
            && Joined("|", x.columns) == Joined("|", y.columns)
            && multiset(Encoded(tools, x.rows)) == multiset(Encoded(tools, y.rows))
  {
    var a, b := SortBy(Self, Encoded(tools, x.rows)), SortBy(Self, Encoded(tools, y.rows));
    SortedStringsAgree(Encoded(tools, x.rows), Encoded(tools, y.rows));
    if TableText(tools, x) == TableText(tools, y) {
      JoinedChars(x.columns, '\n');
      JoinedChars(y.columns, '\n');
      EncodedOneLine(tools, x.rows);
      EncodedOneLine(tools, y.rows);
      HeadingSplit(Joined("|", x.columns), a, Joined("|", y.columns), b);
    }
  }

  /** What equal checksums say of databases with one-line names: equal joined column lines and
      equal row multisets, table by table. */
  lemma ContentLinesIff(tools: Tools, x: Database, y: Database)
    requires Trusted(tools) && OneLineTables(x) && OneLineTables(y) && OneLineColumns(x) && OneLineColumns(y)
    ensures Captured(tools, x).checksum == Captured(tools, y).checksum <==> SameLines(tools, x, y)
  {
    ContentChecksumIff(tools, x, y);
    forall n | n in UserTables(x) && n in UserTables(y)
      ensures TableText(tools, x[n]) == TableText(tools, y[n]) <==>
              && Joined("|", x[n].columns) == Joined("|", y[n].columns)
              && multiset(Encoded(tools, x[n].rows)) == multiset(Encoded(tools, y[n].rows))
    {
      TableTextIff(tools, x[n], y[n]);
    }
  }

  lemma SameTextsThenContent(tools: Tools, x: Database, y: Database)
    requires Trusted(tools) && SameTexts(tools, x, y)
    ensures SameContent(tools, x, y) <==> SameColumns(x, y)
  {
    forall n | n in UserTables(x) && x[n].columns == y[n].columns
      ensures multiset(Encoded(tools, x[n].rows)) == multiset(Encoded(tools, y[n].rows))
    {
      RowsDecide(tools, x[n], y[n]);
    }
  }

  /** The checksum misses a changed content exactly when every hashed text is kept and some
      table's column list is not. */
  lemma ChecksumMissesIff(tools: Tools, x: Database, y: Database)
    requires Trusted(tools) && OneLineTables(x) && OneLineTables(y)
    ensures Captured(tools, x).checksum == Captured(tools, y).checksum && !SameContent(tools, x, y) <==>
            SameTexts(tools, x, y) && !SameColumns(x, y)
  {
    ContentChecksumIff(tools, x, y);
    if SameTexts(tools, x, y) { SameTextsThenContent(tools, x, y); }
  }

  /** Different column lists join alike only through a `|` in a name, or between no column and
      one column without a name. */
  lemma JoinAlike(xs: seq<string>, ys: seq<string>)
    requires Joined("|", xs) == Joined("|", ys) && xs != ys
    ensures (exists c :: (c in xs || c in ys) && '|' in c) || (xs == [] && ys == [[]]) || (ys == [] && xs == [[]])
  {
    if forall c :: c in xs || c in ys ==> '|' !in c {
      if xs != [] && ys != [] {
        JoinedInjective(xs, ys);
      } else {
        LongJoin(xs);
        LongJoin(ys);
      }
    }
  }

  lemma LongJoin(xs: seq<string>)
    ensures Joined("|", xs) == [] ==> xs == [] || xs == [[]]
  {
    if |xs| > 1 { assert Joined("|", xs)[|Joined("|", xs[..|xs| - 1])|] == '|'; }
  }

  /** A column named `a|b` and two columns `a` and `b` are told apart by the zero-data-loss
      check but not by the content checksum a backup compares, whatever the digest. */
  lemma BarInColumnName(tools: Tools)
    ensures var x: Database, y: Database := map["t" := Table(["a|b"], [])], map["t" := Table(["a", "b"], [])];
            && !SameContent(tools, x, y)
            && Captured(tools, x).checksum == Captured(tools, y).checksum
            && Captured(tools, x).totalRows == Captured(tools, y).totalRows
  {
    var x: Database, y: Database := map["t" := Table(["a|b"], [])], map["t" := Table(["a", "b"], [])];
    assert "t"[0] != "sqlite_"[0];
    assert UserTables(x) == {"t"} && UserTables(y) == {"t"};
    BarJoins();
    OneTableAlike(tools, x, y, "t");
    assert x["t"].columns != y["t"].columns by { assert |["a|b"]| == 1 && |["a", "b"]| == 2; }
  }

  lemma BarJoins()
    ensures Joined("|", ["a", "b"]) == Joined("|", ["a|b"])
  {
    assert ["a", "b"][..1] == ["a"];
    assert Joined("|", ["a", "b"]) == "a" + "|" + "b" == "a|b" == Joined("|", ["a|b"]);
  }

  /** Two databases of one table without rows, with column lists that join alike. */
  lemma OneTableAlike(tools: Tools, x: Database, y: Database, n: string)
    requires UserTables(x) == {n} && UserTables(y) == {n} && n in x && n in y
    requires x[n].rows == [] && y[n].rows == [] && Joined("|", x[n].columns) == Joined("|", y[n].columns)
    ensures Captured(tools, x).checksum == Captured(tools, y).checksum
    ensures Captured(tools, x).totalRows == Captured(tools, y).totalRows
  {
    var names := SortedNames({n});
    assert forall m :: m in names ==> m == n;
    SameChecksums(tools, x, y, names);
    NoRows(tools, x, names);
    NoRows(tools, y, names);
  }

  lemma {:induction false} NoRows(tools: Tools, db: Database, names: seq<string>)
    requires forall n :: n in names ==> TableAt(db, n).rows == []
    ensures TotalRows(Entries(tools, db, names)) == 0
  {
    if names != [] {
      var front, last := names[..|names| - 1], names[|names| - 1];
      assert last in names && forall n :: n in front ==> n in names;
      NoRows(tools, db, front);
      assert Entries(tools, db, names) == Entries(tools, db, front) + [TableEntry(tools, last, TableAt(db, last))];
    }
  }

  // ----- operations -----

  /** A resolved path, by its components. */
  type FilePath = seq<string>

  /** The tools, the resolved home directory and the resolved data directory in it. */
  datatype Env = Env(tools: Tools, home: FilePath, dataDir: FilePath)

  const LEGACY_FILE := "memories.db"

  /** `assert_fixture_database`: the data directory and everything in it, and the legacy
      database file directly in the home directory. */
  predicate OffLimits(env: Env, path: FilePath) { env.dataDir <= path || path == env.home + [LEGACY_FILE] }

  datatype Check = ContentDiffers | RowsDiffer | SourceChanged | BytesDiffer
  datatype Refusal = RealData | SamePath | AlreadyExists | DoesNotExist | ChecksFailed(checks: seq<Check>)
  datatype Record = Record(operation: string, sourceContent: string, targetContent: string,
                           sourceFile: string, targetFile: string)
  datatype Result = Done(record: Record) | Refused(why: Refusal)

  type Files = map<FilePath, Bytes>

  function Content(env: Env, bytes: Bytes): Database { env.tools.read(bytes) }
  function Inventoried(env: Env, bytes: Bytes): Inventory { Captured(env.tools, env.tools.read(bytes)) }

  /** One copy has the content of another as far as the content checksum can tell: the same
      tables with the same hashed texts, and the same content if the column lists agree. */
  ghost predicate Preserved(env: Env, original: Database, copy: Database) {
    OneLineTables(original) && OneLineTables(copy) ==>
      SameTexts(env.tools, original, copy) && (SameColumns(original, copy) ==> SameContent(env.tools, original, copy))
  }

  /** What a backup is refused for before anything is written. */
  function BackupRefusal(env: Env, files: Files, source: FilePath, destination: FilePath): Option<Refusal> {
    if OffLimits(env, source) || OffLimits(env, destination) then Some(RealData)
    else if destination == source then Some(SamePath)
    else if destination in files then Some(AlreadyExists)
    else if source !in files then Some(DoesNotExist)
    else None
  }

  /** What a restore is refused for before anything is written. */
  function RestoreRefusal(env: Env, files: Files, backup: FilePath, destination: FilePath,
                          overwrite: bool): Option<Refusal> {
    if OffLimits(env, backup) || OffLimits(env, destination) then Some(RealData)
    else if backup !in files then Some(DoesNotExist)
    else if destination in files && !overwrite then Some(AlreadyExists)
    else if destination == backup then Some(SamePath)
    else None
  }

  /** The files after a backup whose online copy left `written` in the new file; the file stays
      there even when a check then fails. */
  function BackupFiles(env: Env, files: Files, source: FilePath, destination: FilePath, written: Bytes): Files {
    if BackupRefusal(env, files, source, destination).Some? then files else files[destination := written]
  }

  predicate BackupDone(env: Env, files: Files, source: FilePath, destination: FilePath, written: Bytes) {
    && BackupRefusal(env, files, source, destination).None?
    && Inventoried(env, written).checksum == Inventoried(env, files[source]).checksum
    && Inventoried(env, written).totalRows == Inventoried(env, files[source]).totalRows
  }

  /** The files after a restore whose byte copy left `copied` in the destination. */
  function RestoreFiles(env: Env, files: Files, backup: FilePath, destination: FilePath, overwrite: bool,
                        copied: Bytes): Files {
    if RestoreRefusal(env, files, backup, destination, overwrite).Some? then files else files[destination := copied]
  }

  predicate RestoreDone(env: Env, files: Files, backup: FilePath, destination: FilePath, overwrite: bool,
                        copied: Bytes) {
    && RestoreRefusal(env, files, backup, destination, overwrite).None?
    && env.tools.sha(copied) == env.tools.sha(files[backup])
    && Inventoried(env, copied).checksum == Inventoried(env, files[backup]).checksum
  }

  class Store {
    var files: Files
    const env: Env

    constructor (env: Env, files: Files)
      ensures this.env == env && this.files == files
    {
      this.env, this.files := env, files;
    }

    /** `backup_database`. `written` is what the online backup left in the new file. */
    method BackupDatabase(source: FilePath, destination: FilePath, written: Bytes) returns (r: Result)
      modifies this
      ensures files == BackupFiles(env, old(files), source, destination, written)
      ensures r.Done? <==> BackupDone(env, old(files), source, destination, written)
      // At most the destination is written, never over a file and never onto real data.
      ensures forall p :: p in old(files) || OffLimits(env, p) || p != destination ==>
                (p in files <==> p in old(files)) && (p in files ==> files[p] == old(files)[p])
      // Done means that the new file has the content of the source.
      ensures r.Done? ==> source in files && destination in files && files[destination] == written
      ensures r.Done? && Trusted(env.tools) ==>
              Preserved(env, Content(env, files[source]), Content(env, files[destination]))
      ensures r.Done? ==>
              r.record.sourceContent == r.record.targetContent && r.record.targetFile == env.tools.sha(written)
      ensures r.Done? ==>
                Inventoried(env, files[source]).totalRows == Inventoried(env, files[destination]).totalRows
      // A refusal before the copy changes nothing.
      ensures r.Refused? && !r.why.ChecksFailed? ==> files == old(files)
    {
      if OffLimits(env, source) || OffLimits(env, destination) { return Refused(RealData); }
      if destination == source { return Refused(SamePath); }
      if destination in files { return Refused(AlreadyExists); }
      if source !in files { return Refused(DoesNotExist); }
      var before := CaptureInventory(env.tools, env.tools.read(files[source]));
      files := files[destination := written];
      var after := CaptureInventory(env.tools, env.tools.read(files[destination]));
      var sourceAfter := CaptureInventory(env.tools, env.tools.read(files[source]));
      var checks: seq<Check> := [];
      if after.checksum != before.checksum { checks := checks + [ContentDiffers]; }
      if after.totalRows != before.totalRows { checks := checks + [RowsDiffer]; }
      if sourceAfter.checksum != before.checksum { checks := checks + [SourceChanged]; }
      if checks != [] { return Refused(ChecksFailed(checks)); }
      if Trusted(env.tools) { EqualChecksumsPreserve(env, files[source], files[destination]); }
      r := Done(Record("backup", before.checksum, after.checksum, env.tools.sha(files[source]),
        env.tools.sha(files[destination])));
    }

    /** `restore_database`. `copied` is what the byte copy left in the destination. */
    method RestoreDatabase(backup: FilePath, destination: FilePath, overwrite: bool, copied: Bytes) returns (r: Result)
      modifies this
      ensures files == RestoreFiles(env, old(files), backup, destination, overwrite, copied)
      ensures r.Done? <==> RestoreDone(env, old(files), backup, destination, overwrite, copied)
      // At most the destination is written: not the backup, not real data, no file without `overwrite`.
      ensures forall p :: p != destination || p == backup || OffLimits(env, p) || (p in old(files) && !overwrite) ==>
                (p in files <==> p in old(files)) && (p in files ==> files[p] == old(files)[p])
      // Done means that the destination has the bytes of the backup.
      ensures r.Done? ==> backup in files && destination in files
      ensures r.Done? && Trusted(env.tools) ==> files[destination] == files[backup]
      ensures r.Done? ==> r.record.operation == "restore" && r.record.sourceFile == r.record.targetFile
      ensures r.Done? ==> r.record.sourceContent == r.record.targetContent == Inventoried(env, copied).checksum
      ensures r.Refused? && !r.why.ChecksFailed? ==> files == old(files)
    {
      if OffLimits(env, backup) || OffLimits(env, destination) { return Refused(RealData); }
      if backup !in files { return Refused(DoesNotExist); }
      if destination in files && !overwrite { return Refused(AlreadyExists); }
      if destination == backup { return Refused(SamePath); }
      var before := CaptureInventory(env.tools, env.tools.read(files[backup]));
      files := files[destination := copied];
      var after := CaptureInventory(env.tools, env.tools.read(files[destination]));
      var sourceFile, targetFile := env.tools.sha(files[backup]), env.tools.sha(files[destination]);
      var checks: seq<Check> := [];
      if sourceFile != targetFile { checks := checks + [BytesDiffer]; }
      if after.checksum != before.checksum { checks := checks + [ContentDiffers]; }
      if checks != [] { return Refused(ChecksFailed(checks)); }
      r := Done(Record("restore", before.checksum, after.checksum, sourceFile, targetFile));
    }

    /** `rollback_from_backup` */
    method RollbackFromBackup(backup: FilePath, live: FilePath, copied: Bytes) returns (r: Result)
      modifies this
      ensures files == RestoreFiles(env, old(files), backup, live, true, copied)
      ensures r.Done? <==> RestoreDone(env, old(files), backup, live, true, copied)
      ensures r.Done? && Trusted(env.tools) ==>
                backup in files && live in files && files[live] == files[backup] && r.record.operation == "rollback"
    {
      r := RestoreDatabase(backup, live, true, copied);
      if r.Done? { r := Done(r.record.(operation := "rollback")); }
    }
  }

  // ----- one step -----

  lemma EqualChecksumsPreserve(env: Env, original: Bytes, copy: Bytes)
    requires Trusted(env.tools) && Inventoried(env, original).checksum == Inventoried(env, copy).checksum
    ensures Preserved(env, Content(env, original), Content(env, copy))
  {
    var x, y := Content(env, original), Content(env, copy);
    if OneLineTables(x) && OneLineTables(y) {
      ContentChecksumIff(env.tools, x, y);
      SameTextsThenContent(env.tools, x, y);
    }
  }

  /** Whatever the online backup wrote, a backup reported as done has the source's content. */
  lemma DoneBackupHasTheContent(env: Env, files: Files, source: FilePath, destination: FilePath, written: Bytes)
    requires Trusted(env.tools) && BackupDone(env, files, source, destination, written)
    ensures var after := BackupFiles(env, files, source, destination, written);
            Preserved(env, Content(env, after[source]), Content(env, after[destination])) &&
              after[source] == files[source]
  {
    EqualChecksumsPreserve(env, files[source], written);
  }

  /** Whatever the copy wrote, a restore reported as done has the backup's bytes. */
  lemma DoneRestoreHasTheBytes(env: Env, files: Files, backup: FilePath, destination: FilePath, overwrite: bool,
                               copied: Bytes)
    requires Trusted(env.tools) && RestoreDone(env, files, backup, destination, overwrite, copied)
    ensures RestoreFiles(env, files, backup, destination, overwrite, copied) == files[destination := files[backup]]
  {
    assert env.tools.sha(copied) == env.tools.sha(files[backup]);
  }

  // ----- every run -----

  datatype Op =
    | Backup(source: FilePath, destination: FilePath, written: Bytes)
    | LiveWrite(path: FilePath, bytes: Bytes)
    | Rollback(backup: FilePath, live: FilePath, copied: Bytes)

  /** The files, and for each backup reported as done its bytes and the content it was taken of. */
  datatype State = State(files: Files, kept: map<FilePath, (Bytes, Database)>)

  function Next(env: Env, st: State, op: Op): State {
    match op
    case Backup(source, destination, written) =>
      State(BackupFiles(env, st.files, source, destination, written),
            if BackupDone(env, st.files, source, destination, written)
            then st.kept[destination := (written, Content(env, st.files[source]))] else st.kept)
    case LiveWrite(path, bytes) => State(st.files[path := bytes], st.kept)
    case Rollback(backup, live, copied) => State(RestoreFiles(env, st.files, backup, live, true, copied), st.kept)
  }

  /** Live writes and rollbacks never target a backup. */
  predicate Respects(st: State, op: Op) {
    match op
    case Backup(_, _, _) => true
    case LiveWrite(path, _) => path !in st.kept
    case Rollback(_, live, _) => live !in st.kept
  }

  ghost predicate IsRun(env: Env, states: seq<State>, ops: seq<Op>) {
    && |states| == |ops| + 1
    && forall i {:trigger ops[i]} :: 0 <= i < |ops| ==>
         Respects(states[i], ops[i]) && states[i + 1] == Next(env, states[i], ops[i])
  }

  /** Every kept backup is where it was left. */
  ghost predicate BytesIntact(st: State) {
    forall d :: d in st.kept ==> d in st.files && st.files[d] == st.kept[d].0
  }

  /** What every kept backup holds is the content it was taken of. */
  ghost predicate ContentIntact(env: Env, st: State) {
    forall d :: d in st.kept ==> Preserved(env, st.kept[d].1, Content(env, st.kept[d].0))
  }

  /** What `st` has kept, `st'` has kept alike. */
  ghost predicate StillKept(st: State, st': State) {
    forall d :: d in st.kept ==> d in st'.kept && st'.kept[d] == st.kept[d]
  }

  lemma StepKeepsBytes(env: Env, st: State, op: Op)
    requires BytesIntact(st) && Respects(st, op)
    ensures BytesIntact(Next(env, st, op)) && StillKept(st, Next(env, st, op))
  {
    match op
    case Backup(source, destination, written) =>
      if BackupRefusal(env, st.files, source, destination).None? {
        assert destination !in st.kept;
      }
    case LiveWrite(_, _) =>
    case Rollback(_, _, _) =>
  }

  lemma StepKeepsContent(env: Env, st: State, op: Op)
    requires Trusted(env.tools) && ContentIntact(env, st)
    ensures ContentIntact(env, Next(env, st, op))
  {
    if op.Backup? && BackupDone(env, st.files, op.source, op.destination, op.written) {
      DoneBackupHasTheContent(env, st.files, op.source, op.destination, op.written);
    }
  }

  /** Over every run, existing backups never change, whatever the digest is. */
  lemma {:induction false} RunKeepsBytes(env: Env, states: seq<State>, ops: seq<Op>, i: nat, j: nat)
    requires IsRun(env, states, ops) && i <= j < |states| && BytesIntact(states[i])
    ensures BytesIntact(states[j]) && StillKept(states[i], states[j])
    ensures forall d :: d in states[i].kept ==> d in states[j].files && states[j].files[d] == states[i].files[d]
    decreases j
  {
    if i < j {
      RunKeepsBytes(env, states, ops, i, j - 1);
      var op := ops[j - 1];
      StepKeepsBytes(env, states[j - 1], op);
    }
  }

  /** And with a trusted digest they keep the content they were taken of. */
  lemma {:induction false} RunKeepsContent(env: Env, states: seq<State>, ops: seq<Op>, i: nat, j: nat)
    requires Trusted(env.tools) && IsRun(env, states, ops) && i <= j < |states| && ContentIntact(env, states[i])
    ensures ContentIntact(env, states[j])
    decreases j
  {
    if i < j {
      RunKeepsContent(env, states, ops, i, j - 1);
      RunStepContent(env, states, ops, j - 1);
    }
  }

  lemma RunStepContent(env: Env, states: seq<State>, ops: seq<Op>, i: nat)
    requires Trusted(env.tools) && IsRun(env, states, ops) && i < |ops| && ContentIntact(env, states[i])
    ensures ContentIntact(env, states[i + 1])
  {
    var op := ops[i];
    StepKeepsContent(env, states[i], op);
  }

  /** However many live writes, backups and rollbacks lie in between, a rollback that is reported
      as done returns the live file to the backup's bytes and so to the original content. */
  lemma RollbackRestoresTheOriginal(env: Env, states: seq<State>, ops: seq<Op>, i: nat, j: nat,
                                    backup: FilePath, live: FilePath, copied: Bytes)
    requires Trusted(env.tools) && IsRun(env, states, ops) && i <= j < |states|
    requires BytesIntact(states[i]) && ContentIntact(env, states[i])
    requires backup in states[i].kept && RestoreDone(env, states[j].files, backup, live, true, copied)
    ensures var after := RestoreFiles(env, states[j].files, backup, live, true, copied);
            var (bytes, original) := states[i].kept[backup];
            after == states[j].files[live := bytes] && Preserved(env, original, Content(env, after[live]))
  {
    RunKeepsBytes(env, states, ops, i, j);
    RunKeepsContent(env, states, ops, i, j);
    DoneRestoreHasTheBytes(env, states[j].files, backup, live, true, copied);
  }

  /** No tool step changes a file in the data directory, or the legacy database in the home directory. */
  lemma OffLimitsUntouched(env: Env, st: State, op: Op, path: FilePath)
    requires OffLimits(env, path) && !op.LiveWrite?
    ensures path in Next(env, st, op).files <==> path in st.files
    ensures path in st.files ==> Next(env, st, op).files[path] == st.files[path]
  {
  }

  /** A path that may hold real user data: in the data directory, or the legacy database directly in
      the home directory. */
  ghost predicate HoldsRealData(env: Env, path: FilePath) {
    (exists below :: path == env.dataDir + below) || path == env.home + ["memories.db"]
  }

  lemma OffLimitsExact(env: Env, path: FilePath)
    ensures OffLimits(env, path) <==> HoldsRealData(env, path)
  {
    if env.dataDir <= path { assert path == env.dataDir + path[|env.dataDir|..]; }
  }

  /** An operation is refused for real data exactly when one of its two paths may hold some, and
      then no file changes. */
  lemma RealDataIsRefused(env: Env, files: Files, source: FilePath, destination: FilePath, overwrite: bool,
                          bytes: Bytes)
    ensures BackupRefusal(env, files, source, destination) == Some(Refusal.RealData) <==>
            HoldsRealData(env, source) || HoldsRealData(env, destination)
    ensures RestoreRefusal(env, files, source, destination, overwrite) == Some(Refusal.RealData) <==>
            HoldsRealData(env, source) || HoldsRealData(env, destination)
    ensures HoldsRealData(env, source) || HoldsRealData(env, destination) ==>
              && BackupFiles(env, files, source, destination, bytes) == files
              && RestoreFiles(env, files, source, destination, overwrite, bytes) == files
              && !BackupDone(env, files, source, destination, bytes)
              && !RestoreDone(env, files, source, destination, overwrite, bytes)
  {
    OffLimitsExact(env, source);
    OffLimitsExact(env, destination);
  }
}
