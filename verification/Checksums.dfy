/** The whole-candidate checksum index of `scripts/build-standard-candidate.py`. */
module Checksums {
  import opened Json
  import opened Ordering
  import Csv = CsvReader

  const INDEX := "checksums-sha256.txt"

  type Directory = map<string, string>

  /** The candidate's files besides the index itself. */
  function Others(dir: Directory): Directory { map n | n in dir && n != INDEX :: dir[n] }

  /** Text such as a digest in hexadecimal. */
  predicate PlainDigest(s: string) { s != [] && Csv.Readable(s) && '"' !in s }

  ghost predicate Trusted(digest: string -> string) {
    (forall x :: PlainDigest(digest(x))) && forall x, y :: digest(x) == digest(y) ==> x == y
  }

  function Until(s: string, c: char): (r: string)
    ensures r <= s && c !in r && (|r| == |s| || s[|r|] == c)
  {
    if s == [] || s[0] == c then [] else [s[0]] + Until(s[1..], c)
  }

  // ----- the index -----

  /** The row for each named file: its digest and its path. */
  function FileRows(digest: string -> string, files: Directory, names: seq<string>): seq<seq<string>>
    requires forall n :: n in names ==> n in files
  {
    seq(|names|, i requires 0 <= i < |names| => [digest(files[names[i]]), names[i]])
  }

  /** `f"{digest}  {path}"` for each row. */
  function Lines(rows: seq<seq<string>>): seq<string>
    requires forall i :: 0 <= i < |rows| ==> |rows[i]| == 2
  {
    seq(|rows|, i requires 0 <= i < |rows| => rows[i][0] + "  " + rows[i][1])
  }

  /** `"\n".join(lines)` */
  function Joined(lines: seq<string>): string {
    if lines == [] then [] else if |lines| == 1 then lines[0] else lines[0] + "\n" + Joined(lines[1..])
  }

  function IndexText(lines: seq<string>): string { Joined(lines) + "\n" }

  /** Path components, the order in which paths sort. */
  function Parts(name: string): seq<string>
    decreases |name|
  {
    var head := Until(name, '/');
    if |head| == |name| then [head] else [head] + Parts(name[|head| + 1..])
  }

  ghost predicate Lists(listing: seq<string>, files: Directory) {
    && (forall n :: n in listing <==> n in files)
    && forall i, j :: 0 <= i < j < |listing| ==> listing[i] != listing[j]
  }

  /** The rows name every other file exactly once, each with its digest. */
  ghost predicate ExactIndex(digest: string -> string, rows: seq<seq<string>>, files: Directory) {
    && (forall i :: 0 <= i < |rows| ==> |rows[i]| == 2)
    && (forall i, j :: 0 <= i < j < |rows| ==> rows[i][1] != rows[j][1])
    && (forall i :: 0 <= i < |rows| ==> rows[i][1] in files && rows[i][0] == digest(files[rows[i][1]]))
    && (forall n :: n in files ==> exists i :: 0 <= i < |rows| && rows[i][1] == n)
  }

  datatype Verdict = Accepted | NoIndex | Malformed | DuplicateOrItself | Mismatch(name: string) | Incomplete

  /** `verify_checksums`. `elsewhere` holds what other spellings of a path resolve to. */
  method VerifyChecksums(digest: string -> string, dir: Directory, elsewhere: Directory) returns (v: Verdict)
    ensures v.Accepted? <==> INDEX in dir && ExactIndex(digest, Csv.Rows(dir[INDEX]), Others(dir))
    // Otherwise the first bad row is named.
    ensures INDEX !in dir ==> v == NoIndex
    ensures INDEX in dir ==> RightVerdict(digest, Csv.Rows(dir[INDEX]), Others(dir), elsewhere, v)
  {
    if INDEX !in dir { return NoIndex; }
    v := CheckRows(digest, Csv.Rows(dir[INDEX]), Others(dir), elsewhere);
  }

  method CheckRows(digest: string -> string, rows: seq<seq<string>>, others: Directory, elsewhere: Directory)
    returns (v: Verdict)
    requires INDEX !in others
    ensures v.Accepted? <==> ExactIndex(digest, rows, others)
    ensures RightVerdict(digest, rows, others, elsewhere, v)
  {
    var seen: set<string> := {};
    for i := 0 to |rows|
      invariant RowsSeen(digest, rows, others, seen, i)
      invariant GoodBefore(digest, rows, others, elsewhere, i)
    {
      v := CheckRow(digest, rows, others, elsewhere, seen, i);
      if v != Accepted {
        BadRow(digest, rows, others, elsewhere, i);
        BadIsNotExact(digest, rows, others, elsewhere, i);
        return;
      }
      SeeRow(digest, rows, others, seen, i);
      seen := seen + {rows[i][1]};
    }
    Covered(digest, rows, others, seen);
    if seen != others.Keys { return Incomplete; }
    v := Accepted;
  }

  method CheckRow(digest: string -> string, rows: seq<seq<string>>, others: Directory, elsewhere: Directory,
                  seen: set<string>, i: nat) returns (v: Verdict)
    requires i < |rows| && RowsSeen(digest, rows, others, seen, i)
    ensures v == RowVerdict(digest, rows, others, elsewhere, i)
  {
    if |rows[i]| != 2 { return Malformed; }
    var expected, relative := rows[i][0], rows[i][1];
    SeenRepeats(digest, rows, others, seen, i);
    if relative == INDEX || relative in seen { return DuplicateOrItself; }
    var target := if relative in others then Some(others[relative])
                  else if relative in elsewhere then Some(elsewhere[relative]) else None;
    if target.None? || digest(target.value) != expected { return Mismatch(relative); }
    v := Accepted;
  }

  /** An earlier row names the same file. */
  ghost predicate Repeats(rows: seq<seq<string>>, i: nat)
    requires i < |rows| && |rows[i]| == 2
  {
    exists k :: 0 <= k < i && |rows[k]| == 2 && rows[k][1] == rows[i][1]
  }

  /** What is wrong with a row, if anything: it must have two fields, name neither the index nor a
      file named before, and give the digest of what its path leads to. */
  ghost function RowVerdict(digest: string -> string, rows: seq<seq<string>>, others: Directory, elsewhere: Directory,
                            i: nat): Verdict
    requires i < |rows|
  {
    if |rows[i]| != 2 then Malformed
    else
      var (expected, name) := (rows[i][0], rows[i][1]);
      if name == "checksums-sha256.txt" || Repeats(rows, i) then DuplicateOrItself
      else if name in others then if digest(others[name]) == expected then Accepted else Mismatch(name)
      else if name in elsewhere && digest(elsewhere[name]) == expected then Accepted else Mismatch(name)
  }

  ghost predicate GoodBefore(digest: string -> string, rows: seq<seq<string>>, others: Directory, elsewhere: Directory,
                             i: nat)
    requires i <= |rows|
  {
    forall k :: 0 <= k < i ==> RowVerdict(digest, rows, others, elsewhere, k) == Accepted
  }

  /** The verdict is that of the first bad row, and without one it is about the coverage only. */
  ghost predicate RightVerdict(digest: string -> string, rows: seq<seq<string>>, others: Directory,
                               elsewhere: Directory, v: Verdict) {
    if GoodBefore(digest, rows, others, elsewhere, |rows|) then v == Accepted || v == Incomplete
    else
      exists i :: 0 <= i < |rows| && GoodBefore(digest, rows, others, elsewhere, i)
        && v == RowVerdict(digest, rows, others, elsewhere, i) != Accepted
  }

  lemma BadRow(digest: string -> string, rows: seq<seq<string>>, others: Directory, elsewhere: Directory, i: nat)
    requires i < |rows| && GoodBefore(digest, rows, others, elsewhere, i)
    requires RowVerdict(digest, rows, others, elsewhere, i) != Accepted
    ensures RightVerdict(digest, rows, others, elsewhere, RowVerdict(digest, rows, others, elsewhere, i))
  {
  }

  lemma SeenRepeats(digest: string -> string, rows: seq<seq<string>>, others: Directory, seen: set<string>, i: nat)
    requires i < |rows| && RowsSeen(digest, rows, others, seen, i) && |rows[i]| == 2
    ensures Repeats(rows, i) <==> rows[i][1] in seen
  {
  }

  /** The first `i` rows are distinct and right; `seen` holds their names. */
  ghost predicate RowsSeen(digest: string -> string, rows: seq<seq<string>>, others: Directory, seen: set<string>,
                           i: nat)
    requires i <= |rows|
  {
    && (forall k :: 0 <= k < i ==> |rows[k]| == 2 && rows[k][1] in seen)
    && (forall n :: n in seen ==> exists k :: 0 <= k < i && rows[k][1] == n)
    && (forall j, k :: 0 <= j < k < i ==> rows[j][1] != rows[k][1])
    && (forall k :: 0 <= k < i && rows[k][1] in others ==> rows[k][0] == digest(others[rows[k][1]]))
  }

  lemma SeeRow(digest: string -> string, rows: seq<seq<string>>, others: Directory, seen: set<string>, i: nat)
    requires i < |rows| && RowsSeen(digest, rows, others, seen, i) && |rows[i]| == 2 && rows[i][1] !in seen
    requires rows[i][1] in others ==> rows[i][0] == digest(others[rows[i][1]])
    ensures RowsSeen(digest, rows, others, seen + {rows[i][1]}, i + 1)
  {
    forall n | n in seen + {rows[i][1]} ensures exists k :: 0 <= k < i + 1 && rows[k][1] == n {
      if n in seen {
        var k :| 0 <= k < i && rows[k][1] == n;
      } else {
        assert rows[i][1] == n;
      }
    }
  }

  lemma BadIsNotExact(digest: string -> string, rows: seq<seq<string>>, others: Directory, elsewhere: Directory, i: nat)
    requires INDEX !in others && i < |rows| && RowVerdict(digest, rows, others, elsewhere, i) != Accepted
    ensures !ExactIndex(digest, rows, others)
  {
  }

  lemma Covered(digest: string -> string, rows: seq<seq<string>>, others: Directory, seen: set<string>)
    requires forall k :: 0 <= k < |rows| ==> |rows[k]| == 2 && rows[k][1] in seen
    requires forall n :: n in seen ==> exists k :: 0 <= k < |rows| && rows[k][1] == n
    ensures ExactIndex(digest, rows, others) ==> seen == others.Keys
  {
    if ExactIndex(digest, rows, others) {
      forall n ensures n in seen <==> n in others {}
    }
  }

  method WriteChecksums(digest: string -> string, dir: Directory, elsewhere: Directory, listing: seq<string>)
    returns (written: Directory, v: Verdict)
    requires Lists(listing, Others(dir))
    ensures written.Keys == dir.Keys + {INDEX} && Others(written) == Others(dir)
    ensures v.Accepted? <==> ExactIndex(digest, Csv.Rows(written[INDEX]), Others(dir))
    // It is accepted exactly when there is anything to index and every name reads back.
    ensures Trusted(digest) ==>
              (v.Accepted? <==> Others(dir) != map[] && forall n :: n in Others(dir) ==> Csv.Readable(n))
  {
    var others := Others(dir);
    SortMembers(Parts, listing);
    var files := SortBy(Parts, listing);
    var lines := Lines(FileRows(digest, others, files));
    written := dir[INDEX := IndexText(lines)];
    assert Others(written) == others;
    SortedListing(listing, files, others);
    if Trusted(digest) { WrittenIndex(digest, others, files); }
    v := VerifyChecksums(digest, written, elsewhere);
  }

  lemma SortedListing(listing: seq<string>, files: seq<string>, others: Directory)
    requires Lists(listing, others) && files == SortBy(Parts, listing)
    ensures Lists(files, others)
  {
    SortContents(Parts, listing);
    SortMembers(Parts, listing);
    forall i, j | 0 <= i < j < |files| ensures files[i] != files[j] {
      DistinctPermutation(listing, files, i, j);
    }
  }

  lemma {:induction false} CountOnce(xs: seq<string>, x: string)
    requires forall i, j :: 0 <= i < j < |xs| ==> xs[i] != xs[j]
    ensures multiset(xs)[x] <= 1
  {
    if xs != [] {
      var n := |xs| - 1;
      CountOnce(xs[..n], x);
      assert xs == xs[..n] + [xs[n]];
      if xs[n] == x { assert x !in xs[..n]; assert x !in multiset(xs[..n]); }
    }
  }

  lemma DistinctPermutation(xs: seq<string>, ys: seq<string>, i: nat, j: nat)
    requires forall a, b :: 0 <= a < b < |xs| ==> xs[a] != xs[b]
    requires multiset(xs) == multiset(ys) && i < j < |ys|
    ensures ys[i] != ys[j]
  {
    CountOnce(xs, ys[i]);
    assert ys == ys[..j] + [ys[j]] + ys[j + 1..];
    assert ys[i] in ys[..j];
    assert multiset(ys)[ys[j]] == multiset(ys[..j])[ys[j]] + 1 + multiset(ys[j + 1..])[ys[j]];
    assert ys[i] in multiset(ys[..j]);
  }

  // ----- reading back what was written -----

  ghost predicate ReadableRows(rows: seq<seq<string>>) {
    forall i :: 0 <= i < |rows| ==>
      |rows[i]| == 2 && rows[i][0] != [] && Csv.Readable(rows[i][0]) && Csv.Readable(rows[i][1])
  }

  lemma IndexTextCons(line: string, tail: seq<string>)
    ensures IndexText([line] + tail) == line + "\n" + if tail == [] then [] else IndexText(tail)
  {
    assert ([line] + tail)[1..] == tail;
  }

  lemma LinesCons(rows: seq<seq<string>>)
    requires rows != [] && forall i :: 0 <= i < |rows| ==> |rows[i]| == 2
    ensures Lines(rows) == [rows[0][0] + "  " + rows[0][1]] + Lines(rows[1..])
  {
  }

  lemma {:induction false} ReadLines(before: seq<seq<string>>, rows: seq<seq<string>>)
    requires rows != [] && ReadableRows(rows)
    ensures Csv.Read(Csv.At(before), IndexText(Lines(rows))) == Csv.At(before + rows)
    decreases |rows|
  {
    var d, name, tail := rows[0][0], rows[0][1], rows[1..];
    var rest := if tail == [] then [] else IndexText(Lines(tail));
    LinesCons(rows);
    IndexTextCons(d + "  " + name, Lines(tail));
    Csv.ReadLine(before, d, name, rest);
    assert rows[0] == [d, name] && before + [rows[0]] + tail == before + rows;
    if tail != [] { ReadLines(before + [rows[0]], tail); }
  }

  /** Reading is inverse to writing on rows of two readable fields. */
  lemma RowsOfText(rows: seq<seq<string>>)
    requires rows != [] && ReadableRows(rows)
    ensures Csv.Rows(IndexText(Lines(rows))) == rows
  {
    ReadLines([], rows);
    assert [] + rows == rows;
  }

  // ----- when the written index is accepted -----

  /** The quotes in the names. */
  function QuotesIn(names: seq<string>): nat { if names == [] then 0 else Csv.Quotes(names[0]) + QuotesIn(names[1..]) }

  lemma {:induction false} QuotesAppend(a: string, b: string)
    ensures Csv.Quotes(a + b) == Csv.Quotes(a) + Csv.Quotes(b)
  {
    if b == [] {
      assert a + b == a;
    } else {
      QuotesAppend(a, b[..|b| - 1]);
      assert (a + b)[..|a + b| - 1] == a + b[..|b| - 1];
    }
  }

  lemma {:induction false} NoQuotes(s: string)
    requires '"' !in s
    ensures Csv.Quotes(s) == 0
  {
    if s != [] { NoQuotes(s[..|s| - 1]); }
  }

  /** The index holds the quotes of the names and no other. */
  lemma {:induction false} QuotesOfIndex(digest: string -> string, files: Directory, names: seq<string>)
    requires Trusted(digest) && names != [] && forall n :: n in names ==> n in files
    ensures Csv.Quotes(IndexText(Lines(FileRows(digest, files, names)))) == QuotesIn(names)
  {
    var rows, tail := FileRows(digest, files, names), names[1..];
    var d, name := rows[0][0], rows[0][1];
    assert names[0] in names && forall n :: n in tail ==> n in names;
    assert rows[1..] == FileRows(digest, files, tail);
    LinesCons(rows);
    IndexTextCons(d + "  " + name, Lines(rows[1..]));
    QuotesOfLine(d, name, if tail == [] then [] else IndexText(Lines(rows[1..])));
    if tail != [] { QuotesOfIndex(digest, files, tail); }
  }

  lemma QuotesOfLine(d: string, name: string, rest: string)
    requires '"' !in d
    ensures Csv.Quotes(d + "  " + name + "\n" + rest) == Csv.Quotes(name) + Csv.Quotes(rest)
  {
    NoQuotes(d);
    NoQuotes("  ");
    NoQuotes("\n");
    QuotesAppend(d, "  ");
    QuotesAppend(d + "  ", name);
    QuotesAppend(d + "  " + name, "\n");
    QuotesAppend(d + "  " + name + "\n", rest);
  }

  lemma {:induction false} RowCostAt(names: seq<string>, j: nat)
    requires j < |names|
    ensures Csv.RowCost(names) == Csv.RowCost(names[..j] + names[j + 1..]) + Csv.Cost(names[j])
  {
    var last := |names| - 1;
    if j == last {
      assert names[..j] + names[j + 1..] == names[..last];
    } else {
      RowCostAt(names[..last], j);
      var without := names[..j] + names[j + 1..];
      assert without[..|without| - 1] == names[..last][..j] + names[..last][j + 1..];
    }
  }

  lemma {:induction false} RowCostPermutes(xs: seq<string>, ys: seq<string>)
    requires multiset(xs) == multiset(ys)
    ensures Csv.RowCost(xs) == Csv.RowCost(ys)
    decreases |xs|
  {
    assert |xs| == |multiset(xs)| == |multiset(ys)| == |ys|;
    if xs != [] {
      var last := |xs| - 1;
      assert xs[last] in multiset(ys);
      var j :| 0 <= j < |ys| && ys[j] == xs[last];
      WithoutBoth(xs, ys, j);
      RowCostAt(ys, j);
      RowCostPermutes(xs[..last], ys[..j] + ys[j + 1..]);
    }
  }

  lemma WithoutBoth(xs: seq<string>, ys: seq<string>, j: nat)
    requires xs != [] && multiset(xs) == multiset(ys) && j < |ys| && ys[j] == xs[|xs| - 1]
    ensures multiset(xs[..|xs| - 1]) == multiset(ys[..j] + ys[j + 1..])
  {
    var last := |xs| - 1;
    Without(xs, last);
    Without(ys, j);
    assert xs[..last] + xs[last + 1..] == xs[..last];
  }

  lemma Without(xs: seq<string>, j: nat)
    requires j < |xs|
    ensures multiset(xs[..j] + xs[j + 1..]) == multiset(xs) - multiset{xs[j]}
  {
    assert xs == xs[..j] + [xs[j]] + xs[j + 1..];
    assert multiset(xs) == multiset(xs[..j]) + multiset{xs[j]} + multiset(xs[j + 1..]);
  }

  lemma {:induction false} RowCostCons(s: string, row: seq<string>)
    ensures Csv.RowCost([s] + row) == Csv.Cost(s) + Csv.RowCost(row)
  {
    RowCostAt([s] + row, 0);
    assert ([s] + row)[..0] + ([s] + row)[1..] == row;
  }

  /** Names cost their quotes exactly when every one of them is readable. */
  lemma {:induction false} CostOfNames(names: seq<string>)
    ensures Csv.RowCost(names) >= QuotesIn(names)
    ensures Csv.RowCost(names) == QuotesIn(names) ==> forall n :: n in names ==> Csv.Readable(n)
  {
    if names != [] {
      CostOfNames(names[1..]);
      RowCostCons(names[0], names[1..]);
      assert names == [names[0]] + names[1..];
    }
  }

  function RowNames(rows: seq<seq<string>>): seq<string>
    requires forall i :: 0 <= i < |rows| ==> |rows[i]| == 2
  {
    seq(|rows|, i requires 0 <= i < |rows| => rows[i][1])
  }

  lemma {:induction false} CostOfRows(rows: seq<seq<string>>)
    requires forall i :: 0 <= i < |rows| ==> |rows[i]| == 2
    ensures Csv.RowsCost(rows) >= Csv.RowCost(RowNames(rows))
  {
    if rows != [] {
      var front, last := rows[..|rows| - 1], rows[|rows| - 1];
      CostOfRows(front);
      assert RowNames(rows)[..|rows| - 1] == RowNames(front);
      assert last == [last[0]] + [last[1]];
      RowCostCons(last[0], [last[1]]);
      RowCostCons(last[1], []);
      assert [last[1]] + [] == [last[1]];
    }
  }

  lemma SameListing(xs: seq<string>, ys: seq<string>, files: Directory)
    requires Lists(xs, files) && Lists(ys, files)
    ensures multiset(xs) == multiset(ys)
  {
    forall x ensures multiset(xs)[x] == multiset(ys)[x] {
      CountOnce(xs, x);
      CountOnce(ys, x);
      assert x in xs <==> x in ys;
    }
  }

  lemma ExactRowsList(digest: string -> string, rows: seq<seq<string>>, files: Directory)
    requires ExactIndex(digest, rows, files)
    ensures Lists(RowNames(rows), files)
  {
    var names := RowNames(rows);
    forall n ensures n in names <==> n in files {
      if n in names { var i :| 0 <= i < |names| && names[i] == n; }
      if n in files { var i :| 0 <= i < |rows| && rows[i][1] == n; assert names[i] == n; }
    }
  }

  /** An accepted index was written of readable names: every other name costs a quote more than
      the index holds, however lines and quotes fall together. */
  lemma AcceptedIsReadable(digest: string -> string, files: Directory, names: seq<string>, rows: seq<seq<string>>)
    requires Trusted(digest) && Lists(names, files) && names != []
    requires rows == Csv.Rows(IndexText(Lines(FileRows(digest, files, names)))) && ExactIndex(digest, rows, files)
    ensures forall n :: n in files ==> Csv.Readable(n)
  {
    Csv.RowsCostQuotes(IndexText(Lines(FileRows(digest, files, names))));
    QuotesOfIndex(digest, files, names);
    CostOfRows(rows);
    ExactRowsList(digest, rows, files);
    SameListing(RowNames(rows), names, files);
    RowCostPermutes(RowNames(rows), names);
    CostOfNames(names);
  }

  /** What was written is accepted exactly when there is a file to list and every name reads back;
      with no file the index is one empty line, which is refused. */
  lemma WrittenIndex(digest: string -> string, files: Directory, names: seq<string>)
    requires Trusted(digest) && Lists(names, files)
    ensures ExactIndex(digest, Csv.Rows(IndexText(Lines(FileRows(digest, files, names)))), files) <==>
            files != map[] && forall n :: n in files ==> Csv.Readable(n)
  {
    var rows := FileRows(digest, files, names);
    var read := Csv.Rows(IndexText(Lines(rows)));
    if names == [] {
      EmptyIndex(digest, files, names);
    } else {
      assert names[0] in files;
      if ExactIndex(digest, read, files) { AcceptedIsReadable(digest, files, names, read); }
      if forall n :: n in files ==> Csv.Readable(n) {
        ReadableFileRows(digest, files, names);
        RowsOfText(rows);
        FileRowsExact(digest, files, names);
      }
    }
  }

  /** A candidate whose one file has a space in its name never verifies, right after writing. */
  lemma SpaceInName(digest: string -> string, content: string)
    requires Trusted(digest)
    ensures var files: Directory := map["a b" := content];
            !ExactIndex(digest, Csv.Rows(IndexText(Lines(FileRows(digest, files, ["a b"])))), files)
  {
    var files: Directory := map["a b" := content];
    assert "a b"[1] == ' ' && "a b" in files;
    WrittenIndex(digest, files, ["a b"]);
  }

  lemma ReadableFileRows(digest: string -> string, files: Directory, names: seq<string>)
    requires Trusted(digest) && Lists(names, files) && forall n :: n in files ==> Csv.Readable(n)
    ensures ReadableRows(FileRows(digest, files, names))
  {
    forall i | 0 <= i < |names| ensures names[i] in files && PlainDigest(digest(files[names[i]])) {
      assert names[i] in names;
    }
  }

  lemma EmptyIndex(digest: string -> string, files: Directory, names: seq<string>)
    requires names == [] && Lists(names, files)
    ensures files == map[] && !ExactIndex(digest, Csv.Rows(IndexText(Lines(FileRows(digest, files, names)))), files)
  {
    assert files.Keys == {} by { forall n ensures n !in files { assert n !in names; } }
    var text := IndexText(Lines(FileRows(digest, files, names)));
    assert text == "\n" && text[1..] == [];
    assert Csv.Next(Csv.At([]), text) == Csv.At([[]]);
    assert Csv.Read(Csv.At([[]]), text[1..]) == Csv.At([[]]);
    assert Csv.Rows(text)[0] == [];
  }

  lemma FileRowsExact(digest: string -> string, files: Directory, names: seq<string>)
    requires Lists(names, files)
    ensures ExactIndex(digest, FileRows(digest, files, names), files)
  {
    var rows := FileRows(digest, files, names);
    forall i | 0 <= i < |rows| ensures rows[i][1] in files { assert names[i] in names; }
    forall n | n in files ensures exists i :: 0 <= i < |rows| && rows[i][1] == n {
      var i :| 0 <= i < |names| && names[i] == n;
      assert rows[i][1] == n;
    }
  }

  /** One index is exact for one set of files only. */
  lemma ExactIndexDetermines(digest: string -> string, rows: seq<seq<string>>, files: Directory, files': Directory)
    requires Trusted(digest) && ExactIndex(digest, rows, files) && ExactIndex(digest, rows, files')
    ensures files == files'
  {
    forall n ensures n in files ==> n in files' && files[n] == files'[n]
             ensures n in files' ==> n in files
    {
      if n in files {
        var i :| 0 <= i < |rows| && rows[i][1] == n;
        assert digest(files[n]) == digest(files'[n]);
      }
      if n in files' {
        var i :| 0 <= i < |rows| && rows[i][1] == n;
      }
    }
    assert files.Keys == files'.Keys;
  }

  /** After any later addition, removal or change of a file the index is refused. */
  lemma LaterChangeIsRefused(digest: string -> string, dir: Directory, dir': Directory)
    requires Trusted(digest) && INDEX in dir && INDEX in dir' && dir'[INDEX] == dir[INDEX]
    requires ExactIndex(digest, Csv.Rows(dir[INDEX]), Others(dir))
    ensures ExactIndex(digest, Csv.Rows(dir'[INDEX]), Others(dir')) <==> Others(dir') == Others(dir)
  {
    if ExactIndex(digest, Csv.Rows(dir'[INDEX]), Others(dir')) {
      ExactIndexDetermines(digest, Csv.Rows(dir[INDEX]), Others(dir), Others(dir'));
    }
  }
}
