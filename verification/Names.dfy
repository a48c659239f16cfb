/** Dotted module names and the string operations the tools apply to them. */
module Names {

  /** `name.split(".")[0]` */
  function FirstPart(name: string): string {
    if name == [] || name[0] == '.' then [] else [name[0]] + FirstPart(name[1..])
  }

  /** The part before the first dot, or the whole name. */
  lemma {:induction false} FirstPartExact(name: string, t: string)
    ensures t == FirstPart(name) <==> '.' !in t && (name == t || t + "." <= name)
  {
    if name != [] && name[0] != '.' {
      if t != [] {
        FirstPartExact(name[1..], t[1..]);
        assert t == [t[0]] + t[1..] && name == [name[0]] + name[1..];
        assert (t + ".")[1..] == t[1..] + ".";
        assert t + "." <= name ==> t[0] == name[0] && t[1..] + "." <= name[1..];
        assert t[0] == name[0] && t[1..] + "." <= name[1..] ==> t + "." <= name;
      } else {
        assert "" + "." == ".";
      }
    }
  }

  function Join(base: string, attr: string): string { base + "." + attr }

  lemma {:induction false} FirstPartOfJoin(base: string, attr: string)
    ensures FirstPart(Join(base, attr)) == FirstPart(base)
  {
    if base != [] && base[0] != '.' {
      FirstPartOfJoin(base[1..], attr);
      assert Join(base, attr)[1..] == Join(base[1..], attr);
    }
  }

  lemma {:induction false} FirstPartOfPlain(s: string)
    requires '.' !in s
    ensures FirstPart(s) == s
  {
    if s != [] { FirstPartOfPlain(s[1..]); }
  }

  /** `module == prefix or module.startswith(prefix + ".")` */
  predicate MatchesPrefix(name: string, prefix: string) { name == prefix || prefix + "." <= name }

  /** `s.replace(old, new, 1)` */
  function ReplaceFirst(s: string, old_: string, new_: string): string {
    if old_ <= s then new_ + s[|old_|..]
    else if s == [] then s
    else [s[0]] + ReplaceFirst(s[1..], old_, new_)
  }

  // ----- module paths -----

  predicate IdentifierStart(c: char) { 'a' <= c <= 'z' || 'A' <= c <= 'Z' || c == '_' }

  /** An ASCII identifier. */
  predicate Identifier(s: string) {
    s != [] && IdentifierStart(s[0]) && forall i :: 0 <= i < |s| ==> IdentifierStart(s[i]) || '0' <= s[i] <= '9'
  }

  lemma {:induction false} FirstPartBound(s: string)
    ensures |FirstPart(s)| <= |s|
  {
    if s != [] && s[0] != '.' { FirstPartBound(s[1..]); }
  }

  /** Every part of the dotted name is an identifier. */
  predicate Dotted(s: string)
    decreases |s|
  {
    FirstPartBound(s);
    var p := FirstPart(s);
    Identifier(p) && (|p| == |s| || Dotted(s[|p| + 1..]))
  }

  /** `_module_is_under` */
  predicate IsUnder(name: string, package: string) {
    name == package || (package + "." <= name && Dotted(name))
  }

  /** `_suffix`: the dotted path below the package. */
  function Suffix(name: string, package: string): string {
    if name == package || |name| <= |package| then [] else name[|package| + 1..]
  }

  /** `suffix.rpartition(".")[0]` */
  function Parent(suffix: string): (p: string)
    ensures suffix != [] ==> |p| < |suffix|
    ensures suffix == [] ==> p == []
  {
    if suffix == [] then []
    else if suffix[|suffix| - 1] == '.' then suffix[..|suffix| - 1]
    else Parent(suffix[..|suffix| - 1])
  }

  /** The module with this suffix. */
  function ModuleAt(package: string, suffix: string): string {
    if suffix == [] then package else package + "." + suffix
  }

  /** Inside a package the suffix determines the module. */
  lemma SuffixRoundTrip(name: string, package: string)
    requires IsUnder(name, package) && '.' !in package
    ensures name == ModuleAt(package, Suffix(name, package))
  {
    if name != package {
      var rest := name[|package| + 1..];
      assert name == Join(package, rest);
      FirstPartOfJoin(package, rest);
      FirstPartOfPlain(package);
      assert !Dotted([]);
    }
  }

  // ----- what a module path is -----

  const LOWER := "abcdefghijklmnopqrstuvwxyz"
  const UPPER := "ABCDEFGHIJKLMNOPQRSTUVWXYZ"
  const DECIMAL := "0123456789"

  predicate Letter(c: char) { c in LOWER || c in UPPER }

  lemma LowerIff(c: char)
    ensures 'a' <= c <= 'z' <==> c in LOWER
  {
    if 'a' <= c <= 'z' { assert LOWER[c as int - 'a' as int] == c; }
  }

  lemma UpperIff(c: char)
    ensures 'A' <= c <= 'Z' <==> c in UPPER
  {
    if 'A' <= c <= 'Z' { assert UPPER[c as int - 'A' as int] == c; }
  }

  lemma DecimalIff(c: char)
    ensures '0' <= c <= '9' <==> c in DECIMAL
  {
    if '0' <= c <= '9' { assert DECIMAL[c as int - '0' as int] == c; }
  }

  /** An identifier is letters, digits and underscores, and does not start with a digit. */
  lemma IdentifierExact(s: string)
    ensures Identifier(s) <==>
            && s != "" && s[0] !in DECIMAL
            && forall i :: 0 <= i < |s| ==> Letter(s[i]) || s[i] in DECIMAL || s[i] == '_'
  {
    forall i | 0 <= i < |s|
      ensures (IdentifierStart(s[i]) <==> Letter(s[i]) || s[i] == '_') && ('0' <= s[i] <= '9' <==> s[i] in DECIMAL)
    {
      LowerIff(s[i]);
      UpperIff(s[i]);
      DecimalIff(s[i]);
    }
  }

  /** Parts joined by dots. */
  function JoinParts(parts: seq<string>): string
    requires parts != []
  {
    if |parts| == 1 then parts[0] else parts[0] + "." + JoinParts(parts[1..])
  }

  ghost predicate Identifiers(parts: seq<string>) { forall i :: 0 <= i < |parts| ==> Identifier(parts[i]) }

  lemma NoDotInside(s: string)
    requires Identifier(s)
    ensures '.' !in s && s != []
  {
  }

  lemma {:induction false} PartsOf(s: string) returns (parts: seq<string>)
    requires Dotted(s)
    ensures parts != [] && Identifiers(parts) && s == JoinParts(parts) && parts[0] == FirstPart(s)
    decreases |s|
  {
    FirstPartBound(s);
    FirstPartExact(s, FirstPart(s));
    var p := FirstPart(s);
    if |p| == |s| {
      assert p == s;
      parts := [s];
    } else {
      assert p + "." <= s;
      var rest := PartsOf(s[|p| + 1..]);
      parts := [p] + rest;
      assert parts[1..] == rest && s == p + "." + s[|p| + 1..];
    }
  }

  lemma {:induction false} JoinedIsDotted(parts: seq<string>)
    requires parts != [] && Identifiers(parts)
    ensures Dotted(JoinParts(parts)) && FirstPart(JoinParts(parts)) == parts[0]
    decreases |parts|
  {
    var s, p := JoinParts(parts), parts[0];
    NoDotInside(p);
    FirstPartExact(s, p);
    if |parts| > 1 {
      JoinedIsDotted(parts[1..]);
      assert s[|p| + 1..] == JoinParts(parts[1..]);
    }
  }

  /** `name` is `package` or below it exactly when it is a path of identifiers that starts with it. */
  lemma UnderExact(name: string, package: string)
    requires Identifier(package)
    ensures IsUnder(name, package) <==>
            exists parts :: parts != [] && Identifiers(parts) && parts[0] == package && name == JoinParts(parts)
  {
    NoDotInside(package);
    FirstPartExact(name, package);
    if IsUnder(name, package) {
      if name == package {
        assert JoinParts([package]) == package && Identifiers([package]);
      } else {
        var parts := PartsOf(name);
        assert parts[0] == package;
      }
    }
    if parts :| parts != [] && Identifiers(parts) && parts[0] == package && name == JoinParts(parts) {
      JoinedIsDotted(parts);
    }
  }
}
