/**
 The web console's version comparison, written a second time in JavaScript, and where it
 agrees with the server's. `num` stands for JavaScript's conversion of a digit text to a
 number, which is exact below 2^53 and rounds above.
 */
module WebVersions {
  import opened Text
  import opened VersionText
  import opened SemVer
  import opened SemVerPrecedence

  const EXACT_LIMIT: nat := 0x20_0000_0000_0000

  ghost predicate Exact(num: string -> real) {
    forall s :: AllDigits(s) && Value(s) < EXACT_LIMIT ==> num(s) == Value(s) as real
  }

  // ---------- Parsing ----------

  /** The groups of the version pattern. */
  datatype Match = Match(v: bool, major: string, minor: string, patch: string, prerelease: Option<string>, build: Option<string>)

  predicate IsMatch(m: Match) {
    AllDigits(m.major) && AllDigits(m.minor) && AllDigits(m.patch)
    && (m.prerelease.Some? ==> IsSuffix(m.prerelease.value)) && (m.build.Some? ==> IsSuffix(m.build.value))
  }

  function MatchText(m: Match): string {
    (if m.v then "v" else "") + Assemble(m.major, m.minor, m.patch, m.prerelease, m.build)
  }

  function CutOption(s: string, c: char): Option<string> {
    if c in s then Some(After(s, c)) else None
  }

  function MatchIn(v: bool, text: string): Option<Match> {
    var head := Before(text, '+');
    var parts := Split(Before(head, '-'), '.');
    if |parts| != 3 then None
    else
      var m := Match(v, parts[0], parts[1], parts[2], CutOption(head, '-'), CutOption(text, '+'));
      if IsMatch(m) then Some(m) else None
  }

  function FindMatch(s: string): Option<Match> {
    if s != "" && s[0] == 'v' then MatchIn(true, s[1..]) else MatchIn(false, s)
  }

  lemma MatchesAssembled(m: Match)
    requires IsMatch(m)
    ensures MatchIn(m.v, Assemble(m.major, m.minor, m.patch, m.prerelease, m.build)) == Some(m)
  {
    hide Assemble, Split, Before, After, AllDigits;
    AssembleCuts(m.major, m.minor, m.patch, m.prerelease, m.build);
  }

  lemma AssembledStartsWithDigit(m: Match)
    requires AllDigits(m.major)
    ensures var text := Assemble(m.major, m.minor, m.patch, m.prerelease, m.build); text != "" && IsDigit(text[0])
  {
    assert IsDigit(m.major[0]);
  }

  /** The matcher finds the groups of any text that the pattern describes. */
  lemma FindsEveryMatch(m: Match)
    requires IsMatch(m)
    ensures FindMatch(MatchText(m)) == Some(m)
  {
    MatchesAssembled(m);
    AssembledStartsWithDigit(m);
    hide Assemble, MatchIn, IsMatch;
    var text := Assemble(m.major, m.minor, m.patch, m.prerelease, m.build);
    assert ("v" + text)[1..] == text && "" + text == text;
  }

  lemma {:induction false} CutParts(s: string, c: char)
    ensures s == Before(s, c) + (if c in s then [c] + After(s, c) else "")
  {
    if c in s { CutAgain(s, c); } else { CutWhole(s, c); }
  }

  lemma HeadAgain(head: string)
    requires |Split(Before(head, '-'), '.')| == 3
    ensures var parts := Split(Before(head, '-'), '.');
      head == Assemble(parts[0], parts[1], parts[2], CutOption(head, '-'), None)
  {
    var parts := Split(Before(head, '-'), '.');
    CutParts(head, '-');
    JoinSplit(Before(head, '-'), '.');
    hide Join, Before, After, Split;
    assert [parts[0], parts[1], parts[2]] == parts;
  }

  lemma AssembleWithBuild(major: string, minor: string, patch: string, pre: Option<string>, build: string)
    ensures Assemble(major, minor, patch, pre, None) + (['+'] + build) == Assemble(major, minor, patch, pre, Some(build))
  {
    hide Join;
    var head := Assemble(major, minor, patch, pre, None);
    assert head + "" == head;
  }

  lemma MatchesOnlyAssembled(v: bool, text: string)
    ensures MatchIn(v, text).Some? ==>
      var m := MatchIn(v, text).value;
      m.v == v && IsMatch(m) && text == Assemble(m.major, m.minor, m.patch, m.prerelease, m.build)
  {
    hide IsMatch, Assemble, Before, After, Split;
    if MatchIn(v, text).Some? {
      var m := MatchIn(v, text).value;
      CutParts(text, '+');
      HeadAgain(Before(text, '+'));
      AssembleWithBuild(m.major, m.minor, m.patch, m.prerelease, After(text, '+'));
    }
  }

  /** What the matcher finds is a match of the whole text. */
  lemma FindsOnlyMatches(s: string)
    ensures FindMatch(s).Some? ==> IsMatch(FindMatch(s).value) && MatchText(FindMatch(s).value) == s
  {
    hide IsMatch, Assemble, MatchIn;
    if s != "" && s[0] == 'v' {
      MatchesOnlyAssembled(true, s[1..]);
      assert s == "v" + s[1..];
    } else {
      MatchesOnlyAssembled(false, s);
      assert "" + s == s;
    }
  }

  /** `prerelease` is empty where the version has none. */
  datatype WebVersion = WebVersion(major: string, minor: string, patch: string, prerelease: seq<string>)

  function ParseWeb(text: string): Option<WebVersion> {
    var m := FindMatch(TrimSpace(text));
    if m.None? then None
    else
      Some(WebVersion(m.value.major, m.value.minor, m.value.patch,
                      if m.value.prerelease.Some? then Split(m.value.prerelease.value, '.') else []))
  }

  // ---------- Comparing ----------

  function WebFields(num: string -> real, xs: seq<string>, ys: seq<string>): int {
    if xs == [] && ys == [] then 0
    else if xs == [] then -1
    else if ys == [] then 1
    else if xs[0] == ys[0] then WebFields(num, xs[1..], ys[1..])
    else
      var x, y := AllDigits(xs[0]), AllDigits(ys[0]);
      if x && y then (if num(xs[0]) < num(ys[0]) then -1 else 1)
      else if x != y then (if x then -1 else 1)
      else if Below(xs[0], ys[0]) then -1 else 1
  }

  function WebPrerelease(num: string -> real, xs: seq<string>, ys: seq<string>): int {
    if xs == [] && ys == [] then 0
    else if xs == [] then 1
    else if ys == [] then -1
    else WebFields(num, xs, ys)
  }

  function WebCompare(num: string -> real, left: string, right: string): Option<int> {
    var a, b := ParseWeb(left), ParseWeb(right);
    if a.None? || b.None? then None
    else
      var x, y := a.value, b.value;
      if num(x.major) != num(y.major) then Some(if num(x.major) < num(y.major) then -1 else 1)
      else if num(x.minor) != num(y.minor) then Some(if num(x.minor) < num(y.minor) then -1 else 1)
      else if num(x.patch) != num(y.patch) then Some(if num(x.patch) < num(y.patch) then -1 else 1)
      else Some(WebPrerelease(num, x.prerelease, y.prerelease))
  }

  method ComparePrerelease(num: string -> real, left: seq<string>, right: seq<string>) returns (r: int)
    ensures r == WebPrerelease(num, left, right)
  {
    if left == [] && right == [] { return 0; }
    if left == [] { return 1; }
    if right == [] { return -1; }
    var length := if |left| > |right| then |left| else |right|;
    var index := 0;
    while index < length
      invariant index <= |left| && index <= |right|
      invariant WebFields(num, left, right) == WebFields(num, left[index..], right[index..])
    {
      if index == |left| { return -1; }
      if index == |right| { return 1; }
      var a, b := left[index], right[index];
      assert left[index..][1..] == left[index + 1..] && right[index..][1..] == right[index + 1..];
      if a != b {
        var x, y := AllDigits(a), AllDigits(b);
        if x && y { return if num(a) < num(b) then -1 else 1; }
        if x != y { return if x then -1 else 1; }
        return if Below(a, b) then -1 else 1;
      }
      index := index + 1;
    }
    r := 0;
  }

  method CompareSemVer(num: string -> real, left: string, right: string) returns (r: Option<int>)
    ensures r == WebCompare(num, left, right)
  {
    var a, b := ParseWeb(left), ParseWeb(right);
    if a.None? || b.None? { return None; }
    hide ParseWeb, WebPrerelease;
    var xs := [a.value.major, a.value.minor, a.value.patch];
    var ys := [b.value.major, b.value.minor, b.value.patch];
    assert xs[0] == a.value.major && xs[1] == a.value.minor && xs[2] == a.value.patch;
    assert ys[0] == b.value.major && ys[1] == b.value.minor && ys[2] == b.value.patch;
    for i := 0 to 3
      invariant i > 0 ==> num(xs[0]) == num(ys[0])
      invariant i > 1 ==> num(xs[1]) == num(ys[1])
      invariant i > 2 ==> num(xs[2]) == num(ys[2])
    {
      if num(xs[i]) != num(ys[i]) { return Some(if num(xs[i]) < num(ys[i]) then -1 else 1); }
    }
    var c := ComparePrerelease(num, a.value.prerelease, b.value.prerelease);
    r := Some(c);
  }

  // ---------- Against the rule and the server ----------

  predicate SmallFields(ids: seq<string>) {
    forall i :: 0 <= i < |ids| ==> AllDigits(ids[i]) ==> Value(ids[i]) < EXACT_LIMIT
  }

  /** Every number is below 2^53. */
  predicate Small(v: Version)
    requires WellFormed(v)
  {
    Value(v.major) < EXACT_LIMIT && Value(v.minor) < EXACT_LIMIT && Value(v.patch) < EXACT_LIMIT && SmallFields(v.prerelease)
  }

  lemma RenderedIsTrimmed(v: Version)
    requires WellFormed(v)
    ensures TrimSpace(Render(v)) == Render(v) && TrimSpace("v" + Render(v)) == "v" + Render(v)
  {
    hide WellFormed, Assemble, TrimSpace, Join, AllDigits;
    PartsAreTexts(v);
    AssembledText(v.major, v.minor, v.patch, Suffix(v.prerelease), v.build);
    VersionTextIsTrimmed(Render(v));
    TrimKeeps("v" + Render(v));
  }

  lemma RenderedIsMatch(v: Version)
    requires WellFormed(v)
    ensures IsMatch(Match(false, v.major, v.minor, v.patch, Suffix(v.prerelease), v.build))
    ensures v.prerelease != [] ==> Split(Join(v.prerelease, '.'), '.') == v.prerelease
  {
    if v.prerelease != [] { JoinedFields(v.prerelease); }
    hide Join, Split, Identifiers;
  }

  lemma ParseWebRendered(v: Version)
    requires WellFormed(v)
    ensures ParseWeb(Render(v)) == ParseWeb("v" + Render(v)) == Some(WebVersion(v.major, v.minor, v.patch, v.prerelease))
  {
    hide WellFormed, FindMatch, Assemble, Join, Split, TrimSpace, IsSuffix, IsVersionText, AllDigits;
    RenderedIsTrimmed(v);
    RenderedIsMatch(v);
    var m := Match(false, v.major, v.minor, v.patch, Suffix(v.prerelease), v.build);
    FindsEveryMatch(m);
    FindsEveryMatch(m.(v := true));
    assert MatchText(m) == Render(v) && MatchText(m.(v := true)) == "v" + Render(v);
  }

  lemma {:induction false} WebFieldsMeetRule(num: string -> real, xs: seq<string>, ys: seq<string>)
    requires Exact(num) && Identifiers(xs) && Identifiers(ys) && SmallFields(xs) && SmallFields(ys)
    ensures WebFields(num, xs, ys) == -1 <==> FieldsLower(xs, ys)
    ensures WebFields(num, xs, ys) == 1 <==> FieldsLower(ys, xs)
    ensures WebFields(num, xs, ys) in {-1, 0, 1}
  {
    FieldsLowerStep(xs, ys);
    FieldsLowerStep(ys, xs);
    if xs != [] && ys != [] {
      var x, y := xs[0], ys[0];
      BelowIsTrichotomous(x, y);
      if AllDigits(x) && AllDigits(y) && Value(x) == Value(y) { NumericIsUnique(x, y); }
      WebFieldsMeetRule(num, xs[1..], ys[1..]);
    }
  }

  lemma CoreIsExact(num: string -> real, v: Version)
    requires Exact(num) && WellFormed(v) && Small(v)
    ensures num(v.major) == Value(v.major) as real && num(v.minor) == Value(v.minor) as real && num(v.patch) == Value(v.patch) as real
  {
  }

  lemma WebPrereleaseMeetsRule(num: string -> real, a: Version, b: Version)
    requires Exact(num) && WellFormed(a) && WellFormed(b) && Small(a) && Small(b)
    ensures WebPrerelease(num, a.prerelease, b.prerelease) ==
      if PrereleaseLower(a.prerelease, b.prerelease) then -1
      else if PrereleaseLower(b.prerelease, a.prerelease) then 1 else 0
  {
    hide FieldsLower, WebFields, Identifiers, SmallFields, Exact, Value;
    WebFieldsMeetRule(num, a.prerelease, b.prerelease);
  }

  /** On well-formed versions with numbers below 2^53 the console's answer is the precedence of section 11. */
  lemma WebCompareMeetsRule(num: string -> real, a: Version, b: Version)
    requires Exact(num) && WellFormed(a) && WellFormed(b) && Small(a) && Small(b)
    ensures WebCompare(num, Render(a), Render(b)) == Some(Precedence(a, b))
  {
    hide ParseWeb, Render, Value, WebPrerelease, PrereleaseLower, WellFormed, Small, Exact;
    ParseWebRendered(a);
    ParseWebRendered(b);
    CoreNumbers(a, b);
    CoreIsExact(num, a);
    CoreIsExact(num, b);
    WebPrereleaseMeetsRule(num, a, b);
  }

  ghost predicate NoHyphenNumbers(v: Version) {
    forall i :: 0 <= i < |v.prerelease| ==> !HyphenNumber(v.prerelease[i])
  }

  /** The two comparisons agree on well-formed versions with numbers below 2^53 and no hyphen-and-digits identifier. */
  lemma ComparisonsAgree(num: string -> real, a: Version, b: Version)
    requires Exact(num) && WellFormed(a) && WellFormed(b) && Small(a) && Small(b)
    requires NoHyphenNumbers(a) && NoHyphenNumbers(b)
    ensures WebCompare(num, Render(a), Render(b)) == Some(Compare(Render(a), Render(b)))
  {
    WebCompareMeetsRule(num, a, b);
    assert Plain(a) && Plain(b);
    CompareMeetsRule(a, b);
  }

  /** A leading "v" changes nothing for the console; the server takes the version as unreadable. */
  lemma LeadingV(num: string -> real, a: Version, text: string)
    requires WellFormed(a)
    ensures WebCompare(num, "v" + Render(a), text) == WebCompare(num, Render(a), text)
    ensures Compare("v" + Render(a), text) == 1
  {
    hide ParseWeb, Parse, Render, WebPrerelease, WellFormed;
    ParseWebRendered(a);
    VIsNoNumber(a);
  }

  lemma VIsNoNumber(a: Version)
    requires WellFormed(a)
    ensures Parse("v" + Render(a)).None?
  {
    RenderedIsTrimmed(a);
    hide TrimSpace, Assemble, WellFormed, AllDigits;
    var text := Before(Before("v" + Render(a), '+'), '-');
    assert text != "" && text[0] == 'v';
    assert Split(text, '.')[0] != "" && Split(text, '.')[0][0] == 'v';
  }

  // ---------- When swapping the sides flips the answer ----------

  /** The first difference is between two digit texts that convert to the same number. */
  ghost predicate TiedAt(num: string -> real, xs: seq<string>, ys: seq<string>, k: nat) {
    && k < |xs| && k < |ys| && xs[..k] == ys[..k] && xs[k] != ys[k]
    && AllDigits(xs[k]) && AllDigits(ys[k]) && num(xs[k]) == num(ys[k])
  }

  ghost predicate Tied(num: string -> real, xs: seq<string>, ys: seq<string>) {
    exists k: nat :: TiedAt(num, xs, ys, k)
  }

  lemma TiedAtStep(num: string -> real, xs: seq<string>, ys: seq<string>, k: nat)
    requires xs != [] && ys != []
    ensures TiedAt(num, xs, ys, k + 1) <==> xs[0] == ys[0] && TiedAt(num, xs[1..], ys[1..], k)
  {
    hide AllDigits;
    if k + 1 < |xs| && k + 1 < |ys| {
      assert xs[..k + 1] == [xs[0]] + xs[1..][..k] && ys[..k + 1] == [ys[0]] + ys[1..][..k];
      if xs[..k + 1] == ys[..k + 1] {
        assert xs[..k + 1][0] == ys[..k + 1][0] && xs[..k + 1][1..] == xs[1..][..k] && ys[..k + 1][1..] == ys[1..][..k];
      }
    }
  }

  lemma TiedStep(num: string -> real, xs: seq<string>, ys: seq<string>)
    requires xs != [] && ys != []
    ensures Tied(num, xs, ys) <==>
      if xs[0] == ys[0] then Tied(num, xs[1..], ys[1..]) else AllDigits(xs[0]) && AllDigits(ys[0]) && num(xs[0]) == num(ys[0])
  {
    hide AllDigits;
    assert TiedAt(num, xs, ys, 0) <==> xs[0] != ys[0] && AllDigits(xs[0]) && AllDigits(ys[0]) && num(xs[0]) == num(ys[0]);
    hide TiedAt;
    if k: nat :| TiedAt(num, xs, ys, k) {
      if k > 0 { TiedAtStep(num, xs, ys, k - 1); }
    }
    if k: nat :| TiedAt(num, xs[1..], ys[1..], k) {
      TiedAtStep(num, xs, ys, k);
    }
  }

  /** Swapping the sides flips the answer unless the first difference is a tie, where both answers are 1. */
  lemma {:induction false} WebFieldsFlipExactly(num: string -> real, xs: seq<string>, ys: seq<string>)
    ensures WebFields(num, xs, ys) == -WebFields(num, ys, xs) <==> !Tied(num, xs, ys)
    ensures Tied(num, xs, ys) ==> WebFields(num, xs, ys) == 1 && WebFields(num, ys, xs) == 1
  {
    if xs != [] && ys != [] {
      TiedStep(num, xs, ys);
      BelowIsTrichotomous(xs[0], ys[0]);
      WebFieldsFlipExactly(num, xs[1..], ys[1..]);
      hide Tied;
    }
  }

  ghost predicate SameCore(num: string -> real, a: WebVersion, b: WebVersion) {
    num(a.major) == num(b.major) && num(a.minor) == num(b.minor) && num(a.patch) == num(b.patch)
  }

  /** The whole comparison flips unless the cores are equal and the prereleases tie. */
  lemma WebCompareFlipsExactly(num: string -> real, left: string, right: string)
    requires ParseWeb(left).Some? && ParseWeb(right).Some?
    ensures WebCompare(num, left, right).Some? && WebCompare(num, right, left).Some?
    ensures var a, b := ParseWeb(left).value, ParseWeb(right).value;
      WebCompare(num, left, right).value == -WebCompare(num, right, left).value <==>
        !(SameCore(num, a, b) && Tied(num, a.prerelease, b.prerelease))
  {
    var a, b := ParseWeb(left).value, ParseWeb(right).value;
    WebFieldsFlipExactly(num, a.prerelease, b.prerelease);
    hide ParseWeb, WebFields;
  }

  /** A tie needs a number that is not below 2^53 or a text that is not well-formed. */
  lemma SmallFieldsDoNotTie(num: string -> real, xs: seq<string>, ys: seq<string>)
    requires Exact(num) && Identifiers(xs) && Identifiers(ys) && SmallFields(xs) && SmallFields(ys)
    ensures !Tied(num, xs, ys)
  {
    forall k: nat | k < |xs| && k < |ys| && AllDigits(xs[k]) && AllDigits(ys[k]) && num(xs[k]) == num(ys[k])
      ensures xs[k] == ys[k]
    {
      assert Value(xs[k]) as real == Value(ys[k]) as real;
      NumericIsUnique(xs[k], ys[k]);
    }
  }

  lemma ParseOneIdentifier(major: string, minor: string, patch: string, x: string)
    requires AllDigits(major) && AllDigits(minor) && AllDigits(patch) && AllDigits(x)
    ensures ParseWeb(Assemble(major, minor, patch, Some(x), None)) == Some(WebVersion(major, minor, patch, [x]))
  {
    var m := Match(false, major, minor, patch, Some(x), None);
    var text := Assemble(major, minor, patch, Some(x), None);
    AssembledText(major, minor, patch, Some(x), None);
    VersionTextIsTrimmed(text);
    assert '.' !in x;
    assert Split(x, '.') == [x];
    assert IsSuffix(x) && IsMatch(m);
    FindsEveryMatch(m);
    hide Assemble, FindMatch, TrimSpace, Split;
    assert "" + text == text;
  }

  /** Versions that differ only in two digit texts of the same number are each newer than the other,
      be it for a leading zero or for rounding at 2^53 and above. */
  lemma TiedIdentifiers(num: string -> real, major: string, minor: string, patch: string, x: string, y: string)
    requires AllDigits(major) && AllDigits(minor) && AllDigits(patch)
    requires AllDigits(x) && AllDigits(y) && x != y && num(x) == num(y)
    ensures var a, b := Assemble(major, minor, patch, Some(x), None), Assemble(major, minor, patch, Some(y), None);
      WebCompare(num, a, b) == Some(1) && WebCompare(num, b, a) == Some(1)
  {
    ParseOneIdentifier(major, minor, patch, x);
    ParseOneIdentifier(major, minor, patch, y);
    hide ParseWeb, Assemble, AllDigits;
  }

  lemma DigitsAreText(x: string)
    requires AllDigits(x)
    ensures IsVersionText(x) && '+' !in x && '.' !in x && Split(x, '.') == [x] && x != ""
    ensures Value(x) < INT64_LIMIT ==> Atoi(x) == Some(Value(x)) && CoreNumber(x) == Some(Value(x))
  {
  }

  lemma ServerParses(major: string, minor: string, patch: string, x: string)
    requires AllDigits(major) && AllDigits(minor) && AllDigits(patch) && AllDigits(x)
    requires Value(major) < INT64_LIMIT && Value(minor) < INT64_LIMIT && Value(patch) < INT64_LIMIT
    ensures Parse(Assemble(major, minor, patch, Some(x), None)) == Some(Parsed([Value(major), Value(minor), Value(patch)], x))
  {
    hide Assemble, Before, After, Split, TrimSpace, Value, AllDigits, IsVersionText, CoreNumber, Atoi;
    DigitsAreText(major);
    DigitsAreText(minor);
    DigitsAreText(patch);
    DigitsAreText(x);
    AssembledText(major, minor, patch, Some(x), None);
    VersionTextIsTrimmed(Assemble(major, minor, patch, Some(x), None));
    AssembleCuts(major, minor, patch, Some(x), None);
  }

  lemma SameNumberSameField(x: string, y: string)
    requires AllDigits(x) && AllDigits(y) && Value(x) == Value(y) < INT64_LIMIT
    ensures CompareFields([x], [y]) == 0
  {
    hide Value, AllDigits, Atoi;
    DigitsAreText(x);
    DigitsAreText(y);
    assert [x][1..] == [] && [y][1..] == [];
  }

  /** The server sees no difference between two such versions when it can read their numbers. */
  lemma ServerSeesNoDifference(major: string, minor: string, patch: string, x: string, y: string)
    requires AllDigits(major) && AllDigits(minor) && AllDigits(patch) && AllDigits(x) && AllDigits(y)
    requires Value(major) < INT64_LIMIT && Value(minor) < INT64_LIMIT && Value(patch) < INT64_LIMIT
    requires Value(x) == Value(y) < INT64_LIMIT
    ensures Compare(Assemble(major, minor, patch, Some(x), None), Assemble(major, minor, patch, Some(y), None)) == 0
  {
    hide Parse, Assemble, Compare, AllDigits, Value, Atoi, CoreNumber, Split, CompareFields;
    ServerParses(major, minor, patch, x);
    ServerParses(major, minor, patch, y);
    DigitsAreText(x);
    DigitsAreText(y);
    SameNumberSameField(x, y);
    var left, right := Assemble(major, minor, patch, Some(x), None), Assemble(major, minor, patch, Some(y), None);
    SameCoreCompares(left, right, Parse(left).value.core, x, y);
  }

  lemma SameCoreCompares(left: string, right: string, core: seq<int>, x: string, y: string)
    requires Parse(left) == Some(Parsed(core, x)) && Parse(right) == Some(Parsed(core, y)) && x != "" && y != ""
    ensures Compare(left, right) == CompareFields(Split(x, '.'), Split(y, '.'))
  {
    hide Parse, CompareFields, Split, CompareCore;
    CoreFlips(core, core);
  }

  lemma OneIsOne()
    ensures AllDigits("0") && AllDigits("1") && AllDigits("01") && "01" != "1"
    ensures Value("0") == 0 && Value("1") == 1 && Value("01") == 1
  {
    assert "01"[..1] == "0" && "0"[..0] == "" && "1"[..0] == "";
    assert Value("0") == 0 && Value("1") == 1;
    assert |"01"| != |"1"|;
  }

  /** With a leading zero, for instance. */
  lemma LeadingZero(num: string -> real)
    requires num("01") == num("1")
    ensures var a, b := Assemble("1", "0", "0", Some("01"), None), Assemble("1", "0", "0", Some("1"), None);
      WebCompare(num, a, b) == Some(1) && WebCompare(num, b, a) == Some(1) && Compare(a, b) == 0
  {
    hide WebCompare, Compare, Assemble, AllDigits, Value;
    OneIsOne();
    TiedIdentifiers(num, "1", "0", "0", "01", "1");
    ServerSeesNoDifference("1", "0", "0", "01", "1");
  }
}
