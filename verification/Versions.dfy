/** The version arithmetic of FirmwareUpdateManager.kt. */
module Versions {
  import opened Basics

  predicate IsDigit(c: char) { '0' <= c <= '9' }
  predicate Kept(c: char) { IsDigit(c) || c == '.' }

  function SubstringBefore(s: string, c: char): string {
    if s == "" || s[0] == c then "" else [s[0]] + SubstringBefore(s[1..], c)
  }

  /** replace(Regex("[^0-9.]"), ""). */
  function KeepDigitsAndDots(s: string): string {
    if s == "" then "" else (if Kept(s[0]) then [s[0]] else "") + KeepDigitsAndDots(s[1..])
  }

  function CleanVersionString(version: string): string {
    KeepDigitsAndDots(SubstringBefore(SubstringBefore(version, '-'), '+'))
  }

  /** split("."): always at least one part. */
  function Split(s: string): (parts: seq<string>)
    ensures |parts| >= 1
  {
    if s == "" then [""]
    else if s[0] == '.' then [""] + Split(s[1..])
    else
      var rest := Split(s[1..]);
      [[s[0]] + rest[0]] + rest[1..]
  }

  function Value(s: string): nat {
    if s == "" then 0
    else Value(s[..|s| - 1]) * 10 + if IsDigit(s[|s| - 1]) then s[|s| - 1] as int - '0' as int else 0
  }

  /** toIntOrNull on what cleaning leaves: digits only, and null beyond Int.MAX_VALUE. */
  function ToIntOrNull(s: string): Option<int> {
    if s == "" || Value(s) > INT_MAX then None else Some(Value(s))
  }

  function MapNotNull(parts: seq<string>): seq<int> {
    if parts == [] then []
    else
      var rest := MapNotNull(parts[1..]);
      match ToIntOrNull(parts[0])
      case Some(n) => [n] + rest
      case None => rest
  }

  function Parse(version: string): seq<int> { MapNotNull(Split(CleanVersionString(version))) }

  function At(parts: seq<int>, i: nat): int { if i < |parts| then parts[i] else 0 }

  /** The first difference, on lists padded with zeros, is in favour of `l`. */
  ghost predicate Greater(l: seq<int>, c: seq<int>) { exists i: nat :: GreaterAt(l, c, i) }

  ghost predicate GreaterAt(l: seq<int>, c: seq<int>, i: nat) {
    At(l, i) > At(c, i) && forall j: nat :: j < i ==> At(l, j) == At(c, j)
  }

  /** getHigherVersionOrNull returns the cleaned latest version exactly when it is greater. */
  method GetHigherVersionOrNull(latest: string, current: string) returns (r: Option<string>)
    ensures r == if Greater(Parse(latest), Parse(current)) then Some(CleanVersionString(latest)) else None
  {
    var cleanLatest, cleanCurrent := CleanVersionString(latest), CleanVersionString(current);
    var l, c := MapNotNull(Split(cleanLatest)), MapNotNull(Split(cleanCurrent));
    var length := if |l| >= |c| then |l| else |c|;
    for i := 0 to length
      invariant forall j: nat :: j < i ==> At(l, j) == At(c, j)
    {
      if At(l, i) > At(c, i) {
        assert GreaterAt(l, c, i);
        return Some(cleanLatest);
      }
      if At(l, i) < At(c, i) {
        FirstDifferenceDecides(l, c, i);
        return None;
      }
    }
    assert forall i: nat :: At(l, i) == At(c, i);
    r := None;
  }

  lemma FirstDifferenceDecides(l: seq<int>, c: seq<int>, i: nat)
    requires GreaterAt(c, l, i)
    ensures !Greater(l, c)
  {
    forall k: nat ensures !GreaterAt(l, c, k) {
      if k < i { assert At(l, k) == At(c, k); }
    }
  }

  // ---- the order ----------------------------------------------------------------------------------

  lemma GreaterIsAsymmetric(l: seq<int>, c: seq<int>)
    ensures !Greater(l, l)
    ensures Greater(l, c) ==> !Greater(c, l)
  {
    if Greater(l, c) {
      var i: nat :| GreaterAt(l, c, i);
      FirstDifferenceDecides(c, l, i);
    }
    forall i: nat ensures !GreaterAt(l, l, i) {}
  }

  lemma GreaterIsTransitive(a: seq<int>, b: seq<int>, c: seq<int>)
    requires Greater(a, b) && Greater(b, c)
    ensures Greater(a, c)
  {
    var i: nat :| GreaterAt(a, b, i);
    var j: nat :| GreaterAt(b, c, j);
    assert GreaterAt(a, c, if i <= j then i else j);
  }

  function TrimZeros(parts: seq<int>): seq<int> {
    if parts != [] && parts[|parts| - 1] == 0 then TrimZeros(parts[..|parts| - 1]) else parts
  }

  lemma {:induction false} TrimKeepsAt(parts: seq<int>, i: nat)
    ensures At(TrimZeros(parts), i) == At(parts, i)
    decreases |parts|
  {
    if parts != [] && parts[|parts| - 1] == 0 { TrimKeepsAt(parts[..|parts| - 1], i); }
  }

  lemma {:induction false} TrimmedEnd(parts: seq<int>)
    ensures var t := TrimZeros(parts); t != [] ==> t[|t| - 1] != 0
    decreases |parts|
  {
    if parts != [] && parts[|parts| - 1] == 0 { TrimmedEnd(parts[..|parts| - 1]); }
  }

  /** Neither of two versions is greater exactly when their lists are equal up to trailing zeros. */
  lemma TiesAreEqualUpToZeros(l: seq<int>, c: seq<int>)
    ensures !Greater(l, c) && !Greater(c, l) <==> TrimZeros(l) == TrimZeros(c)
  {
    var a, b := TrimZeros(l), TrimZeros(c);
    forall i: nat ensures At(a, i) == At(l, i) && At(b, i) == At(c, i) {
      TrimKeepsAt(l, i);
      TrimKeepsAt(c, i);
    }
    if a == b {
      assert forall i: nat :: At(l, i) == At(c, i);
    } else {
      TrimmedEnd(l);
      TrimmedEnd(c);
      var d: nat := Difference(a, b);
      SomeDirection(l, c, d);
    }
  }

  /** A position where two different trimmed lists differ. */
  lemma Difference(a: seq<int>, b: seq<int>) returns (d: nat)
    requires a != b && (a != [] ==> a[|a| - 1] != 0) && (b != [] ==> b[|b| - 1] != 0)
    ensures At(a, d) != At(b, d)
  {
    if |a| > |b| {
      d := |a| - 1;
    } else if |b| > |a| {
      d := |b| - 1;
    } else {
      var i :| 0 <= i < |a| && a[i] != b[i];
      d := i;
    }
  }

  /** A difference somewhere means a first difference, and that one decides. */
  lemma {:induction false} SomeDirection(l: seq<int>, c: seq<int>, d: nat)
    requires At(l, d) != At(c, d)
    ensures Greater(l, c) || Greater(c, l)
  {
    if j: nat :| j < d && At(l, j) != At(c, j) {
      SomeDirection(l, c, j);
    } else {
      assert GreaterAt(l, c, d) || GreaterAt(c, l, d);
    }
  }

  // ---- printed versions ---------------------------------------------------------------------------

  function Digit(n: nat): char
    requires n < 10
  {
    '0' + n as char
  }

  function Digits(n: nat): string {
    if n < 10 then [Digit(n)] else Digits(n / 10) + [Digit(n % 10)]
  }

  function Print(parts: seq<nat>): string {
    if parts == [] then ""
    else if |parts| == 1 then Digits(parts[0])
    else Digits(parts[0]) + "." + Print(parts[1..])
  }

  ghost predicate AllDigits(s: string) { forall i :: 0 <= i < |s| ==> IsDigit(s[i]) }
  ghost predicate AllKept(s: string) { forall i :: 0 <= i < |s| ==> Kept(s[i]) }
  ghost predicate IntRange(parts: seq<nat>) { forall i :: 0 <= i < |parts| ==> parts[i] <= INT_MAX }

  lemma {:induction false} DigitsValue(n: nat)
    ensures AllDigits(Digits(n)) && Digits(n) != "" && Value(Digits(n)) == n
  {
    if n >= 10 {
      DigitsValue(n / 10);
      var s := Digits(n);
      assert s[..|s| - 1] == Digits(n / 10);
    } else {
      assert [Digit(n)][..0] == "";
    }
  }

  lemma {:induction false} PrintKept(parts: seq<nat>)
    ensures AllKept(Print(parts))
    decreases |parts|
  {
    if parts != [] {
      DigitsValue(parts[0]);
      PrintKept(parts[1..]);
    }
  }

  lemma {:induction false} SplitDigits(d: string, rest: string)
    requires AllDigits(d)
    ensures Split(d + "." + rest) == [d] + Split(rest)
    ensures Split(d) == [d]
    decreases |d|
  {
    if d == "" {
      assert "" + "." + rest == "." + rest && ("." + rest)[1..] == rest;
    } else {
      var t := d[1..];
      SplitDigits(t, rest);
      assert (d + "." + rest)[1..] == t + "." + rest;
      assert d == [d[0]] + t;
    }
  }

  /** The components toIntOrNull accepts. */
  function InRange(parts: seq<nat>): seq<int> {
    if parts == [] then []
    else (if parts[0] <= INT_MAX then [parts[0] as int] else []) + InRange(parts[1..])
  }

  lemma {:induction false} InRangeKeepsAll(parts: seq<nat>)
    ensures |InRange(parts)| <= |parts|
    ensures InRange(parts) == parts <==> IntRange(parts)
    decreases |parts|
  {
    if parts != [] {
      var rest := parts[1..];
      InRangeKeepsAll(rest);
      assert parts == [parts[0]] + rest;
      if parts[0] <= INT_MAX {
        assert InRange(parts)[1..] == InRange(rest);
        assert InRange(rest) == rest ==> InRange(parts) == parts;
        assert IntRange(rest) ==> IntRange(parts);
      } else {
        assert InRange(parts) == InRange(rest);
      }
    }
  }

  /** Splitting and parsing a printed list keeps exactly its components in Int range, in order. */
  lemma {:induction false} ParsePrinted(parts: seq<nat>)
    ensures MapNotNull(Split(Print(parts))) == InRange(parts)
    decreases |parts|
  {
    if parts == [] {
      assert [""][1..] == [];
    } else {
      var n, rest := parts[0], parts[1..];
      DigitsValue(n);
      SplitDigits(Digits(n), Print(rest));
      var all := [Digits(n)] + if rest == [] then [] else Split(Print(rest));
      assert Split(Print(parts)) == all;
      assert all[1..] == if rest == [] then [] else Split(Print(rest));
      ParsePrinted(rest);
    }
  }

  lemma {:induction false} KeepConcat(a: string, b: string)
    ensures KeepDigitsAndDots(a + b) == KeepDigitsAndDots(a) + KeepDigitsAndDots(b)
    decreases |a|
  {
    if a == "" {
      assert a + b == b;
    } else {
      assert (a + b)[1..] == a[1..] + b;
      KeepConcat(a[1..], b);
      var head := if Kept(a[0]) then [a[0]] else "";
      Assoc(head, KeepDigitsAndDots(a[1..]), KeepDigitsAndDots(b));
    }
  }

  lemma {:induction false} KeepAll(s: string)
    requires AllKept(s)
    ensures KeepDigitsAndDots(s) == s
  {
    if s != "" { KeepAll(s[1..]); }
  }

  ghost predicate NoneKept(s: string) { forall i :: 0 <= i < |s| ==> !Kept(s[i]) && s[i] != '-' && s[i] != '+' }

  lemma {:induction false} KeepNone(s: string)
    requires NoneKept(s)
    ensures KeepDigitsAndDots(s) == ""
  {
    if s != "" { KeepNone(s[1..]); }
  }

  predicate IsSuffix(s: string) { s == "" || s[0] == '-' || s[0] == '+' }

  lemma {:induction false} CutDistributes(s: string, suffix: string, c: char)
    requires c !in s
    ensures SubstringBefore(s + suffix, c) == s + SubstringBefore(suffix, c)
    decreases |s|
  {
    if s == "" {
      assert s + suffix == suffix;
    } else {
      assert (s + suffix)[1..] == s[1..] + suffix;
      assert forall x :: x in s[1..] ==> x in s;
      CutDistributes(s[1..], suffix, c);
    }
  }

  /** A printed version with a prefix such as "v" and any pre-release or build suffix parses to its
      components in Int range, so back to itself exactly when all are; the suffix never matters. */
  lemma PrintedVersionParses(prefix: string, parts: seq<nat>, suffix: string)
    requires NoneKept(prefix) && IsSuffix(suffix)
    ensures CleanVersionString(prefix + Print(parts) + suffix) == Print(parts)
    ensures Parse(prefix + Print(parts) + suffix) == InRange(parts)
    ensures Parse(prefix + Print(parts) + suffix) == parts <==> IntRange(parts)
  {
    var body := prefix + Print(parts);
    PrintKept(parts);
    assert '-' !in body && '+' !in body;
    CutDistributes(body, suffix, '-');
    var cut := SubstringBefore(suffix, '-');
    assert cut == "" || cut[0] == '+';
    CutDistributes(body, cut, '+');
    assert SubstringBefore(cut, '+') == "";
    assert body + "" == body;
    KeepConcat(prefix, Print(parts));
    KeepNone(prefix);
    KeepAll(Print(parts));
    ParsePrinted(parts);
    InRangeKeepsAll(parts);
  }

  // ---- Semantic Versioning 2.0.0 ------------------------------------------------------------------

  /** MAJOR.MINOR.PATCH[-pre.release][+build] (sections 2, 9 and 10). */
  datatype SemVer = SemVer(major: nat, minor: nat, patch: nat, pre: seq<string>, build: seq<string>)

  function Core(v: SemVer): seq<nat> { [v.major, v.minor, v.patch] }

  function Dotted(ids: seq<string>): string {
    if ids == [] then "" else if |ids| == 1 then ids[0] else ids[0] + "." + Dotted(ids[1..])
  }

  function Suffix(v: SemVer): string {
    (if v.pre == [] then "" else "-" + Dotted(v.pre)) + if v.build == [] then "" else "+" + Dotted(v.build)
  }

  function Text(v: SemVer): string { Print(Core(v)) + Suffix(v) }

  /** Section 11.2: major, then minor, then patch. */
  predicate CoreHigher(x: SemVer, y: SemVer) {
    x.major > y.major || (x.major == y.major && (x.minor > y.minor || (x.minor == y.minor && x.patch > y.patch)))
  }

  predicate Numeric(id: string) { id != "" && forall i :: 0 <= i < |id| ==> IsDigit(id[i]) }

  predicate AsciiHigher(a: string, b: string) {
    a != "" && (b == "" || a[0] > b[0] || (a[0] == b[0] && AsciiHigher(a[1..], b[1..])))
  }

  /** Sections 11.4.1 to 11.4.3. */
  predicate IdentifierHigher(a: string, b: string) {
    if Numeric(a) && Numeric(b) then Value(a) > Value(b)
    else if Numeric(a) || Numeric(b) then Numeric(b)
    else AsciiHigher(a, b)
  }

  /** Section 11.4: the first different identifier decides, then the longer list. */
  predicate IdentifiersHigher(a: seq<string>, b: seq<string>) {
    && a != []
    && (b == [] || IdentifierHigher(a[0], b[0])
        || (!IdentifierHigher(b[0], a[0]) && IdentifiersHigher(a[1..], b[1..])))
  }

  /** Section 11.3: a release is higher than its pre-releases. */
  predicate PreHigher(a: seq<string>, b: seq<string>) {
    if a == [] then b != [] else b != [] && IdentifiersHigher(a, b)
  }

  /** Precedence of section 11; build metadata does not take part (section 10). */
  predicate SemVerHigher(x: SemVer, y: SemVer) {
    CoreHigher(x, y) || (Core(x) == Core(y) && PreHigher(x.pre, y.pre))
  }

  /** The ascending chains that sections 11.2 and 11.4.4 print as examples. */
  lemma SpecificationExamples()
    ensures CoreHigher(SemVer(2, 0, 0, [], []), SemVer(1, 0, 0, [], []))
            && CoreHigher(SemVer(2, 1, 0, [], []), SemVer(2, 0, 0, [], []))
            && CoreHigher(SemVer(2, 1, 1, [], []), SemVer(2, 1, 0, [], []))
    ensures PreHigher(["alpha", "1"], ["alpha"]) && PreHigher(["alpha", "beta"], ["alpha", "1"])
            && PreHigher(["beta"], ["alpha", "beta"]) && PreHigher(["beta", "2"], ["beta"])
            && PreHigher(["beta", "11"], ["beta", "2"]) && PreHigher(["rc", "1"], ["beta", "11"])
            && PreHigher([], ["rc", "1"])
  {
  }

  lemma TextParses(prefix: string, v: SemVer)
    requires NoneKept(prefix)
    ensures Parse(prefix + Text(v)) == InRange(Core(v))
  {
    assert prefix + Text(v) == prefix + Print(Core(v)) + Suffix(v);
    PrintedVersionParses(prefix, Core(v), Suffix(v));
  }

  /** Lexicographic order on component lists. */
  predicate LexHigher(a: seq<nat>, b: seq<nat>) {
    a != [] && b != [] && (a[0] > b[0] || (a[0] == b[0] && LexHigher(a[1..], b[1..])))
  }

  /** The components that decide, the first different ones if any, are both in Int range. */
  predicate DecidedInRange(a: seq<nat>, b: seq<nat>) {
    if a == [] || b == [] then true
    else if a[0] == b[0] then DecidedInRange(a[1..], b[1..])
    else a[0] <= INT_MAX && b[0] <= INT_MAX
  }

  lemma CommonHead(n: int, a: seq<int>, b: seq<int>)
    ensures Greater([n] + a, [n] + b) <==> Greater(a, b)
  {
    assert forall i: nat :: At([n] + a, i + 1) == At(a, i) && At([n] + b, i + 1) == At(b, i);
    if Greater(a, b) {
      var i: nat :| GreaterAt(a, b, i);
      forall j: nat | j < i + 1 ensures At([n] + a, j) == At([n] + b, j) {
        if j > 0 { assert At(a, j - 1) == At(b, j - 1); }
      }
      assert GreaterAt([n] + a, [n] + b, i + 1);
    }
    if Greater([n] + a, [n] + b) {
      var i: nat :| GreaterAt([n] + a, [n] + b, i);
      assert i > 0;
      forall j: nat | j < i - 1 ensures At(a, j) == At(b, j) {
        assert At([n] + a, j + 1) == At([n] + b, j + 1);
      }
      assert GreaterAt(a, b, i - 1);
    }
  }

  /** Skipping components is harmless as long as the deciding ones stay. */
  lemma {:induction false} SkippingKeepsOrder(a: seq<nat>, b: seq<nat>)
    requires |a| == |b| && DecidedInRange(a, b)
    ensures Greater(InRange(a), InRange(b)) <==> LexHigher(a, b)
    decreases |a|
  {
    var l, r := InRange(a), InRange(b);
    if a == [] {
      GreaterIsAsymmetric(l, l);
    } else if a[0] == b[0] {
      SkippingKeepsOrder(a[1..], b[1..]);
      if a[0] <= INT_MAX {
        CommonHead(a[0], InRange(a[1..]), InRange(b[1..]));
      } else {
        assert l == InRange(a[1..]) && r == InRange(b[1..]);
      }
    } else if a[0] > b[0] {
      assert GreaterAt(l, r, 0);
    } else {
      assert GreaterAt(r, l, 0);
      FirstDifferenceDecides(l, r, 0);
    }
  }

  lemma CoreIsLexicographic(x: SemVer, y: SemVer)
    ensures CoreHigher(x, y) <==> LexHigher(Core(x), Core(y))
    ensures CoreHigher(x, y) ==> Core(x) != Core(y)
  {
    var l, r := Core(x), Core(y);
    assert l[1..] == [x.minor, x.patch] && l[1..][1..] == [x.patch] && l[1..][1..][1..] == [];
    assert r[1..] == [y.minor, y.patch] && r[1..][1..] == [y.patch] && r[1..][1..][1..] == [];
    assert l[0] == x.major && l[1] == x.minor && l[2] == x.patch;
    assert r[0] == y.major && r[1] == y.minor && r[2] == y.patch;
    assert LexHigher(l[1..][1..], r[1..][1..]) <==> x.patch > y.patch;
    assert LexHigher(l[1..], r[1..]) <==> x.minor > y.minor || (x.minor == y.minor && x.patch > y.patch);
  }

  /** Whether `latest` is offered over `current`. */
  ghost predicate Offered(latest: string, current: string) { Greater(Parse(latest), Parse(current)) }

  /** Under any "v"-like prefixes a version is offered exactly when what is left of its core, without the
      components beyond Int range, is greater. As long as the deciding components are left, only a
      SemVer-higher version is ever offered, and the answer is SemVer's exactly when it is not the case
      that the latest version has the same core and a higher pre-release part. */
  lemma AgreesWithSemVer(p: string, x: SemVer, q: string, y: SemVer)
    requires NoneKept(p) && NoneKept(q)
    ensures Offered(p + Text(x), q + Text(y)) <==> Greater(InRange(Core(x)), InRange(Core(y)))
    ensures DecidedInRange(Core(x), Core(y)) ==>
              && (Offered(p + Text(x), q + Text(y)) ==> SemVerHigher(x, y))
              && ((Offered(p + Text(x), q + Text(y)) <==> SemVerHigher(x, y))
                  <==> !(Core(x) == Core(y) && PreHigher(x.pre, y.pre)))
  {
    TextParses(p, x);
    TextParses(q, y);
    if DecidedInRange(Core(x), Core(y)) {
      SkippingKeepsOrder(Core(x), Core(y));
      CoreIsLexicographic(x, y);
    }
  }

  /** Versions with one core tie, whatever its size and whatever their suffixes; SemVer has them tie too
      exactly when neither pre-release part is higher. */
  lemma PreReleaseTies(p: string, x: SemVer, q: string, y: SemVer)
    requires NoneKept(p) && NoneKept(q) && Core(x) == Core(y)
    ensures !Offered(p + Text(x), q + Text(y)) && !Offered(q + Text(y), p + Text(x))
    ensures !SemVerHigher(x, y) && !SemVerHigher(y, x) <==> !PreHigher(x.pre, y.pre) && !PreHigher(y.pre, x.pre)
  {
    TextParses(p, x);
    TextParses(q, y);
    GreaterIsAsymmetric(InRange(Core(x)), InRange(Core(x)));
  }

  lemma LargeMajor(n: nat)
    requires n > INT_MAX
    ensures InRange([n, 0, 0]) == [0, 0] && InRange([2, 0, 0]) == [2, 0, 0]
    ensures Greater([2, 0, 0], [0, 0]) && !Greater([0, 0], [2, 0, 0])
  {
    assert [n, 0, 0][1..] == [0, 0] == [2 as nat, 0, 0][1..];
    assert [0 as nat, 0][1..] == [0] && [0 as nat][1..] == [];
    assert GreaterAt([2, 0, 0], [0, 0], 0);
    FirstDifferenceDecides([0, 0], [2, 0, 0], 0);
  }

  /** A release is not offered over its own release candidate. With a deciding component beyond Int
      range the answer is even reversed: 2.0.0 is offered over 3000000000.0.0, not the other way round. */
  lemma HigherVersionNotOffered()
    ensures var x, y := SemVer(1, 2, 0, [], []), SemVer(1, 2, 0, ["rc", "1"], []);
            SemVerHigher(x, y) && !Offered("v" + Text(x), "v" + Text(y))
    ensures var x, y := SemVer(3_000_000_000, 0, 0, [], []), SemVer(2, 0, 0, [], []);
            SemVerHigher(x, y) && !Offered("v" + Text(x), "v" + Text(y)) && Offered("v" + Text(y), "v" + Text(x))
  {
    PreReleaseTies("v", SemVer(1, 2, 0, [], []), "v", SemVer(1, 2, 0, ["rc", "1"], []));
    var x, y := SemVer(3_000_000_000, 0, 0, [], []), SemVer(2, 0, 0, [], []);
    TextParses("v", x);
    TextParses("v", y);
    LargeMajor(3_000_000_000);
  }
}
