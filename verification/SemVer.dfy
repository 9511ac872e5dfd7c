/**
 Version precedence: the rule of section 11 of Semantic Versioning 2.0.0, the server's
 comparison and the web console's comparison.
 */
module SemVer {
  import opened Text
  import opened VersionText

  // ---------- Well-formed versions and their precedence ----------

  /** A version by its texts, as the grammar of Semantic Versioning writes it. */
  datatype Version = Version(major: string, minor: string, patch: string, prerelease: seq<string>, build: Option<string>)

  predicate IsWordChar(c: char) {
    IsDigit(c) || 'A' <= c <= 'Z' || 'a' <= c <= 'z' || c == '-'
  }

  /** One or more of the characters the suffixes are made of. */
  predicate IsSuffix(s: string) {
    s != "" && forall i :: 0 <= i < |s| ==> IsWordChar(s[i]) || s[i] == '.'
  }

  predicate Identifier(s: string) {
    s != "" && (forall i :: 0 <= i < |s| ==> IsWordChar(s[i])) && (AllDigits(s) ==> Numeric(s))
  }

  predicate Identifiers(ids: seq<string>) {
    forall i :: 0 <= i < |ids| ==> Identifier(ids[i])
  }

  predicate WellFormed(v: Version) {
    Numeric(v.major) && Numeric(v.minor) && Numeric(v.patch) && Identifiers(v.prerelease)
    && (v.build.Some? ==> IsSuffix(v.build.value))
  }

  function Assemble(major: string, minor: string, patch: string, prerelease: Option<string>, build: Option<string>): string {
    Join([major, minor, patch], '.')
    + (if prerelease.Some? then "-" + prerelease.value else "")
    + (if build.Some? then "+" + build.value else "")
  }

  function Suffix(ids: seq<string>): Option<string> {
    if ids == [] then None else Some(Join(ids, '.'))
  }

  function Render(v: Version): string {
    Assemble(v.major, v.minor, v.patch, Suffix(v.prerelease), v.build)
  }

  ghost predicate IdentifierLower(x: string, y: string) {
    if AllDigits(x) && AllDigits(y) then Value(x) < Value(y)
    else if AllDigits(x) || AllDigits(y) then AllDigits(x)
    else Below(x, y)
  }

  /** The fields agree up to `k`, where the first list ends or holds the lower field. */
  ghost predicate LowerAt(xs: seq<string>, ys: seq<string>, k: nat) {
    k <= |xs| && k < |ys| && xs[..k] == ys[..k] && (k == |xs| || IdentifierLower(xs[k], ys[k]))
  }

  ghost predicate FieldsLower(xs: seq<string>, ys: seq<string>) {
    exists k: nat :: LowerAt(xs, ys, k)
  }

  ghost predicate PrereleaseLower(xs: seq<string>, ys: seq<string>) {
    xs != [] && (ys == [] || FieldsLower(xs, ys))
  }

  ghost predicate Precedes(a: Version, b: Version)
    requires WellFormed(a) && WellFormed(b)
  {
    Value(a.major) < Value(b.major)
    || (a.major == b.major && Value(a.minor) < Value(b.minor))
    || (a.major == b.major && a.minor == b.minor && Value(a.patch) < Value(b.patch))
    || (a.major == b.major && a.minor == b.minor && a.patch == b.patch && PrereleaseLower(a.prerelease, b.prerelease))
  }

  ghost function Precedence(a: Version, b: Version): int
    requires WellFormed(a) && WellFormed(b)
  {
    if Precedes(a, b) then -1 else if Precedes(b, a) then 1 else 0
  }

  // ---------- The server's comparison ----------

  datatype Parsed = Parsed(core: seq<int>, prerelease: string)

  function CoreNumber(part: string): Option<int> {
    var n := Atoi(part);
    if n.Some? && n.value >= 0 then n else None
  }

  function Parse(text: string): Option<Parsed> {
    var value := Before(TrimSpace(text), '+');
    var parts := Split(Before(value, '-'), '.');
    if |parts| != 3 then None
    else
      var x, y, z := CoreNumber(parts[0]), CoreNumber(parts[1]), CoreNumber(parts[2]);
      if x.None? || y.None? || z.None? then None
      else Some(Parsed([x.value, y.value, z.value], After(value, '-')))
  }

  function Sign(a: int, b: int): int {
    if a < b then -1 else if a > b then 1 else 0
  }

  function CompareField(x: string, y: string): int {
    var m, n := Atoi(x), Atoi(y);
    if m.Some? && n.Some? then Sign(m.value, n.value)
    else if m.Some? then -1
    else if n.Some? then 1
    else if Below(x, y) then -1
    else if Below(y, x) then 1
    else 0
  }

  function CompareFields(xs: seq<string>, ys: seq<string>): int {
    if xs == [] || ys == [] then Sign(|xs|, |ys|)
    else
      var c := CompareField(xs[0], ys[0]);
      if c != 0 then c else CompareFields(xs[1..], ys[1..])
  }

  function CompareCore(a: seq<int>, b: seq<int>): int {
    if a == [] || b == [] then 0
    else if a[0] != b[0] then Sign(a[0], b[0])
    else CompareCore(a[1..], b[1..])
  }

  function CompareSuffix(a: string, b: string): int {
    if a == "" && b != "" then 1
    else if a != "" && b == "" then -1
    else CompareFields(Split(a, '.'), Split(b, '.'))
  }

  function CompareParsed(a: Parsed, b: Parsed): int {
    var c := CompareCore(a.core, b.core);
    if c != 0 then c else CompareSuffix(a.prerelease, b.prerelease)
  }

  function Compare(left: string, right: string): int {
    var a, b := Parse(left), Parse(right);
    if a.None? || b.None? then 1 else CompareParsed(a.value, b.value)
  }

  // ---------- The server's loops ----------

  method ParseText(text: string) returns (r: Option<Parsed>)
    ensures r == Parse(text)
  {
    var value := Before(TrimSpace(text), '+');
    var parts := Split(Before(value, '-'), '.');
    if |parts| != 3 {
      return None;
    }
    var core := new int[3];
    for i := 0 to 3
      invariant forall k :: 0 <= k < i ==> CoreNumber(parts[k]) == Some(core[k])
    {
      var number := Atoi(parts[i]);
      if number.None? || number.value < 0 {
        return None;
      }
      core[i] := number.value;
    }
    assert core[..] == [core[0], core[1], core[2]];
    r := Some(Parsed(core[..], After(value, '-')));
  }

  method ComparePrerelease(left: string, right: string) returns (r: int)
    ensures r == CompareFields(Split(left, '.'), Split(right, '.'))
  {
    var xs, ys := Split(left, '.'), Split(right, '.');
    var i := 0;
    while i < |xs| && i < |ys|
      invariant i <= |xs| && i <= |ys|
      invariant CompareFields(xs, ys) == CompareFields(xs[i..], ys[i..])
    {
      var m, n := Atoi(xs[i]), Atoi(ys[i]);
      if m.Some? && n.Some? {
        if m.value < n.value { return -1; }
        if m.value > n.value { return 1; }
      } else if m.Some? {
        return -1;
      } else if n.Some? {
        return 1;
      } else if Below(xs[i], ys[i]) {
        return -1;
      } else if Below(ys[i], xs[i]) {
        return 1;
      }
      assert xs[i..][1..] == xs[i + 1..] && ys[i..][1..] == ys[i + 1..];
      i := i + 1;
    }
    if |xs| < |ys| { return -1; }
    if |xs| > |ys| { return 1; }
    r := 0;
  }

  method CompareSemver(left: string, right: string) returns (r: int)
    ensures r == Compare(left, right)
  {
    var a := ParseText(left);
    var b := ParseText(right);
    if a.None? || b.None? {
      return 1;
    }
    var x, y := a.value, b.value;
    for i := 0 to 3
      invariant CompareCore(x.core, y.core) == CompareCore(x.core[i..], y.core[i..])
    {
      assert x.core[i..][1..] == x.core[i + 1..] && y.core[i..][1..] == y.core[i + 1..];
      if x.core[i] < y.core[i] { return -1; }
      if x.core[i] > y.core[i] { return 1; }
    }
    if x.prerelease == "" && y.prerelease != "" { return 1; }
    if x.prerelease != "" && y.prerelease == "" { return -1; }
    r := ComparePrerelease(x.prerelease, y.prerelease);
  }

  // ---------- A total preorder ----------

  lemma FieldFlips(x: string, y: string)
    ensures CompareField(x, y) == -CompareField(y, x)
    ensures CompareField(x, x) == 0
  {
    BelowIsTrichotomous(x, y);
    BelowIsTrichotomous(x, x);
  }

  lemma FieldChains(x: string, y: string, z: string)
    requires CompareField(x, y) <= 0 && CompareField(y, z) <= 0
    ensures CompareField(x, z) <= 0
    ensures CompareField(x, y) < 0 || CompareField(y, z) < 0 ==> CompareField(x, z) < 0
  {
    hide Atoi;
    BelowIsTrichotomous(x, y);
    BelowIsTrichotomous(y, z);
    if Below(x, y) && Below(y, z) { BelowIsTransitive(x, y, z); }
  }

  lemma {:induction false} FieldsFlip(xs: seq<string>, ys: seq<string>)
    ensures CompareFields(xs, ys) == -CompareFields(ys, xs)
  {
    if xs != [] && ys != [] {
      FieldFlips(xs[0], ys[0]);
      FieldsFlip(xs[1..], ys[1..]);
    }
  }

  lemma {:induction false} FieldsChain(xs: seq<string>, ys: seq<string>, zs: seq<string>)
    requires CompareFields(xs, ys) <= 0 && CompareFields(ys, zs) <= 0
    ensures CompareFields(xs, zs) <= 0
    ensures CompareFields(xs, ys) < 0 || CompareFields(ys, zs) < 0 ==> CompareFields(xs, zs) < 0
  {
    hide CompareField;
    if xs != [] && ys != [] && zs != [] {
      FieldChains(xs[0], ys[0], zs[0]);
      if CompareField(xs[0], ys[0]) == 0 && CompareField(ys[0], zs[0]) == 0 {
        FieldFlips(xs[0], ys[0]);
        FieldFlips(ys[0], zs[0]);
        FieldFlips(xs[0], zs[0]);
        FieldChains(zs[0], ys[0], xs[0]);
        FieldsChain(xs[1..], ys[1..], zs[1..]);
      }
    }
  }

  lemma {:induction false} CoreFlips(a: seq<int>, b: seq<int>)
    ensures CompareCore(a, b) == -CompareCore(b, a)
    ensures |a| == |b| && CompareCore(a, b) == 0 ==> a == b
  {
    if a != [] && b != [] {
      CoreFlips(a[1..], b[1..]);
      assert a == [a[0]] + a[1..] && b == [b[0]] + b[1..];
    }
  }

  lemma {:induction false} CoreChains(a: seq<int>, b: seq<int>, c: seq<int>)
    requires |a| == |b| == |c| && CompareCore(a, b) <= 0 && CompareCore(b, c) <= 0
    ensures CompareCore(a, c) <= 0
    ensures CompareCore(a, b) < 0 || CompareCore(b, c) < 0 ==> CompareCore(a, c) < 0
  {
    if a != [] && a[0] == b[0] == c[0] { CoreChains(a[1..], b[1..], c[1..]); }
  }

  /** Swapping the sides flips the answer exactly when both versions parse; otherwise both answers are 1. */
  lemma CompareFlipsExactly(left: string, right: string)
    ensures Compare(left, right) == -Compare(right, left) <==> Parse(left).Some? && Parse(right).Some?
  {
    hide Parse;
    if Parse(left).Some? && Parse(right).Some? {
      var a, b := Parse(left).value, Parse(right).value;
      CoreFlips(a.core, b.core);
      FieldsFlip(Split(a.prerelease, '.'), Split(b.prerelease, '.'));
    }
  }

  /** A version equals itself exactly when it parses. */
  lemma CompareIsReflexiveExactly(text: string)
    ensures Compare(text, text) == 0 <==> Parse(text).Some?
  {
    CompareFlipsExactly(text, text);
  }

  lemma SuffixChains(a: string, b: string, c: string)
    requires CompareSuffix(a, b) <= 0 && CompareSuffix(b, c) <= 0
    ensures CompareSuffix(a, c) <= 0
    ensures CompareSuffix(a, b) < 0 || CompareSuffix(b, c) < 0 ==> CompareSuffix(a, c) < 0
  {
    hide CompareFields, Split;
    if (a == "") == (b == "") == (c == "") {
      FieldsChain(Split(a, '.'), Split(b, '.'), Split(c, '.'));
    }
  }

  /** The comparison is transitive on versions that parse, and strict if either step is. */
  lemma CompareChains(x: string, y: string, z: string)
    requires Parse(x).Some? && Parse(y).Some? && Parse(z).Some?
    requires Compare(x, y) <= 0 && Compare(y, z) <= 0
    ensures Compare(x, z) <= 0
    ensures Compare(x, y) < 0 || Compare(y, z) < 0 ==> Compare(x, z) < 0
  {
    ParsedHasThree(x);
    ParsedHasThree(y);
    ParsedHasThree(z);
    hide Parse, CompareSuffix, CompareCore;
    var a, b, c := Parse(x).value, Parse(y).value, Parse(z).value;
    CoreChains(a.core, b.core, c.core);
    if CompareCore(a.core, b.core) == 0 && CompareCore(b.core, c.core) == 0 {
      CoreFlips(a.core, b.core);
      CoreFlips(b.core, c.core);
      SuffixChains(a.prerelease, b.prerelease, c.prerelease);
      CoreFlips(a.core, a.core);
    }
  }

  lemma ParsedHasThree(text: string)
    ensures Parse(text).Some? ==> |Parse(text).value.core| == 3
  {
  }
}
