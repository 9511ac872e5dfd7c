/**
 The server's comparison follows section 11 of Semantic Versioning 2.0.0 on well-formed
 versions, except where `Atoi` reads an identifier differently; the exact condition is `Plain`.
 */
module SemVerPrecedence {
  import opened Text
  import opened VersionText
  import opened SemVer

  /** A hyphen followed by digits, which `Atoi` takes for a negative number. */
  predicate HyphenNumber(s: string) {
    s != "" && s[0] == '-' && AllDigits(s[1..]) && Value(s[1..]) <= INT64_LIMIT
  }

  predicate PlainField(s: string) {
    (AllDigits(s) ==> Value(s) < INT64_LIMIT) && !HyphenNumber(s)
  }

  predicate PlainFields(ids: seq<string>) {
    forall i :: 0 <= i < |ids| ==> PlainField(ids[i])
  }

  predicate PlainCore(v: Version)
    requires WellFormed(v)
  {
    Value(v.major) < INT64_LIMIT && Value(v.minor) < INT64_LIMIT && Value(v.patch) < INT64_LIMIT
  }

  /** The numbers fit 64 bits and no identifier is a hyphen followed by digits that do. */
  predicate Plain(v: Version)
    requires WellFormed(v)
  {
    PlainCore(v) && PlainFields(v.prerelease)
  }

  // ---------- Parsing what was rendered ----------

  lemma AssembleCuts(major: string, minor: string, patch: string, pre: Option<string>, build: Option<string>)
    requires AllDigits(major) && AllDigits(minor) && AllDigits(patch)
    requires pre.Some? ==> '+' !in pre.value
    ensures var text := Assemble(major, minor, patch, pre, build);
      var head := Assemble(major, minor, patch, pre, None);
      Before(text, '+') == head
      && ('+' in text <==> build.Some?) && (build.Some? ==> After(text, '+') == build.value)
      && ('-' in head <==> pre.Some?) && After(head, '-') == (if pre.Some? then pre.value else "")
      && Split(Before(head, '-'), '.') == [major, minor, patch]
  {
    hide Join, Split, Before, After, AllDigits;
    CoreCuts(major, minor, patch);
    var core := Join([major, minor, patch], '.');
    var text := Assemble(major, minor, patch, pre, build);
    var head := Assemble(major, minor, patch, pre, None);
    if pre.Some? {
      assert head == core + ['-'] + pre.value;
      CutJoined(core, '-', pre.value);
    } else {
      assert head == core;
      CutWhole(core, '-');
    }
    assert '+' !in head;
    if build.Some? {
      assert text == head + ['+'] + build.value;
      CutJoined(head, '+', build.value);
    } else {
      assert text == head;
      CutWhole(head, '+');
    }
  }

  lemma CoreCuts(major: string, minor: string, patch: string)
    requires AllDigits(major) && AllDigits(minor) && AllDigits(patch)
    ensures var core := Join([major, minor, patch], '.'); '+' !in core && '-' !in core && Split(core, '.') == [major, minor, patch]
  {
    var parts := [major, minor, patch];
    JoinIsMadeOf(parts, '.', '+');
    JoinIsMadeOf(parts, '.', '-');
    SplitJoined(parts, '.');
  }

  /** Made of digits, letters, hyphens, dots and pluses. */
  ghost predicate IsVersionText(s: string) {
    forall i :: 0 <= i < |s| ==> IsWordChar(s[i]) || s[i] == '.' || s[i] == '+'
  }

  lemma AssembledText(major: string, minor: string, patch: string, pre: Option<string>, build: Option<string>)
    requires IsVersionText(major) && IsVersionText(minor) && IsVersionText(patch)
    requires (pre.Some? ==> IsVersionText(pre.value)) && (build.Some? ==> IsVersionText(build.value))
    ensures IsVersionText(Assemble(major, minor, patch, pre, build))
  {
    var parts := [major, minor, patch];
    assert parts[1..] == [minor, patch] && parts[1..][1..] == [patch];
    assert Join([minor, patch], '.') == minor + ['.'] + patch;
    assert Join(parts, '.') == major + ['.'] + (minor + ['.'] + patch);
  }

  lemma VersionTextIsTrimmed(s: string)
    requires IsVersionText(s)
    ensures TrimSpace(s) == s
  {
    TrimKeeps(s);
  }

  lemma {:induction false} JoinedFields(ids: seq<string>)
    requires ids != [] && Identifiers(ids)
    ensures IsSuffix(Join(ids, '.')) && Split(Join(ids, '.'), '.') == ids
  {
    SplitJoined(ids, '.');
    if |ids| > 1 { JoinedFields(ids[1..]); }
  }

  /** A rendered version survives trimming, and its parts cut apart again. */
  lemma RenderedCuts(v: Version)
    requires WellFormed(v)
    ensures var text := Render(v);
      TrimSpace(text) == text && Split(Before(Before(text, '+'), '-'), '.') == [v.major, v.minor, v.patch]
      && After(Before(text, '+'), '-') == (if v.prerelease == [] then "" else Join(v.prerelease, '.'))
  {
    hide Assemble, Split, Before, After, TrimSpace, Join, Numeric;
    PartsAreTexts(v);
    AssembledText(v.major, v.minor, v.patch, Suffix(v.prerelease), v.build);
    VersionTextIsTrimmed(Render(v));
    AssembleCuts(v.major, v.minor, v.patch, Suffix(v.prerelease), v.build);
  }

  lemma PartsAreTexts(v: Version)
    requires WellFormed(v)
    ensures AllDigits(v.major) && AllDigits(v.minor) && AllDigits(v.patch)
    ensures IsVersionText(v.major) && IsVersionText(v.minor) && IsVersionText(v.patch)
    ensures v.build.Some? ==> IsVersionText(v.build.value)
    ensures v.prerelease != [] ==> IsVersionText(Join(v.prerelease, '.')) && '+' !in Join(v.prerelease, '.')
  {
    if v.prerelease != [] { JoinedFields(v.prerelease); }
  }

  /** Rendered versions read back; the server refuses exactly those with a core number above 64 bits. */
  lemma ParseRendered(v: Version)
    requires WellFormed(v)
    ensures Parse(Render(v)) ==
      if PlainCore(v) then
        Some(Parsed([Value(v.major), Value(v.minor), Value(v.patch)], if v.prerelease == [] then "" else Join(v.prerelease, '.')))
      else None
  {
    RenderedCuts(v);
    hide Render, Value, Split, Before, After, TrimSpace, Identifiers, Join, IsSuffix;
  }

  // ---------- Fields ----------

  lemma BelowDigitsApart(x: string)
    requires AllDigits(x)
    ensures !AllDigits("-") && Below("-", x) && !Below(x, "-")
  {
    assert !IsDigit("-"[0]) && IsDigit(x[0]);
  }

  lemma PlainAtoi(x: string)
    requires Identifier(x) && PlainField(x)
    ensures Atoi(x) == if AllDigits(x) then Some(Value(x)) else None
  {
    assert IsWordChar(x[0]);
  }

  lemma FieldMeetsRule(x: string, y: string)
    requires Identifier(x) && Identifier(y) && PlainField(x) && PlainField(y)
    ensures CompareField(x, y) == -1 <==> IdentifierLower(x, y)
    ensures CompareField(x, y) == 1 <==> IdentifierLower(y, x)
    ensures CompareField(x, y) == 0 <==> x == y
  {
    PlainAtoi(x);
    PlainAtoi(y);
    BelowIsTrichotomous(x, y);
    if AllDigits(x) && AllDigits(y) && Value(x) == Value(y) { NumericIsUnique(x, y); }
  }

  lemma LowerAtStep(xs: seq<string>, ys: seq<string>, k: nat)
    requires xs != [] && ys != []
    ensures LowerAt(xs, ys, k + 1) <==> xs[0] == ys[0] && LowerAt(xs[1..], ys[1..], k)
  {
    hide IdentifierLower;
    if k < |xs| && k + 1 < |ys| {
      assert xs[..k + 1] == [xs[0]] + xs[1..][..k] && ys[..k + 1] == [ys[0]] + ys[1..][..k];
      if xs[..k + 1] == ys[..k + 1] {
        assert xs[..k + 1][0] == ys[..k + 1][0] && xs[..k + 1][1..] == xs[1..][..k] && ys[..k + 1][1..] == ys[1..][..k];
      }
    }
  }

  lemma FieldsLowerStep(xs: seq<string>, ys: seq<string>)
    ensures FieldsLower(xs, ys) <==>
      ys != [] && (xs == [] || IdentifierLower(xs[0], ys[0]) || (xs[0] == ys[0] && FieldsLower(xs[1..], ys[1..])))
  {
    hide IdentifierLower;
    if ys != [] {
      assert LowerAt(xs, ys, 0) <==> xs == [] || IdentifierLower(xs[0], ys[0]);
      if xs != [] {
        hide LowerAt;
        if k: nat :| LowerAt(xs, ys, k) {
          if k > 0 { LowerAtStep(xs, ys, k - 1); }
        }
        if k: nat :| LowerAt(xs[1..], ys[1..], k) {
          LowerAtStep(xs, ys, k);
        }
      }
    }
  }

  lemma {:induction false} FieldsMeetRule(xs: seq<string>, ys: seq<string>)
    requires Identifiers(xs) && Identifiers(ys) && PlainFields(xs) && PlainFields(ys)
    ensures CompareFields(xs, ys) == -1 <==> FieldsLower(xs, ys)
    ensures CompareFields(xs, ys) == 1 <==> FieldsLower(ys, xs)
    ensures CompareFields(xs, ys) in {-1, 0, 1}
  {
    FieldsLowerStep(xs, ys);
    FieldsLowerStep(ys, xs);
    if xs != [] && ys != [] {
      FieldMeetsRule(xs[0], ys[0]);
      FieldsMeetRule(xs[1..], ys[1..]);
    }
  }

  // ---------- Versions ----------

  lemma CoreNumbers(a: Version, b: Version)
    requires WellFormed(a) && WellFormed(b)
    ensures Value(a.major) == Value(b.major) <==> a.major == b.major
    ensures Value(a.minor) == Value(b.minor) <==> a.minor == b.minor
    ensures Value(a.patch) == Value(b.patch) <==> a.patch == b.patch
  {
    if Value(a.major) == Value(b.major) { NumericIsUnique(a.major, b.major); }
    if Value(a.minor) == Value(b.minor) { NumericIsUnique(a.minor, b.minor); }
    if Value(a.patch) == Value(b.patch) { NumericIsUnique(a.patch, b.patch); }
  }

  lemma CompareCoreOf(a: seq<int>, b: seq<int>)
    requires |a| == |b| == 3
    ensures CompareCore(a, b) ==
      if a[0] != b[0] then Sign(a[0], b[0]) else if a[1] != b[1] then Sign(a[1], b[1]) else Sign(a[2], b[2])
  {
    assert a[1..][1..] == a[2..] && b[1..][1..] == b[2..];
    assert a[2..][1..] == [] && b[2..][1..] == [];
    assert CompareCore(a[2..], b[2..]) == Sign(a[2], b[2]);
    assert CompareCore(a[1..], b[1..]) == if a[1] != b[1] then Sign(a[1], b[1]) else Sign(a[2], b[2]);
  }

  /** What the server answers on two rendered versions whose cores it can read. */
  lemma CompareRendered(a: Version, b: Version)
    requires WellFormed(a) && WellFormed(b) && PlainCore(a) && PlainCore(b)
    ensures Compare(Render(a), Render(b)) ==
      if a.major != b.major then Sign(Value(a.major), Value(b.major))
      else if a.minor != b.minor then Sign(Value(a.minor), Value(b.minor))
      else if a.patch != b.patch then Sign(Value(a.patch), Value(b.patch))
      else if a.prerelease == [] then (if b.prerelease == [] then 0 else 1)
      else if b.prerelease == [] then -1
      else CompareFields(a.prerelease, b.prerelease)
  {
    hide Parse, Render, Join, Split, CompareFields, CompareCore, PlainCore, CompareSuffix;
    ParseRendered(a);
    ParseRendered(b);
    CoreNumbers(a, b);
    CompareCoreOf([Value(a.major), Value(a.minor), Value(a.patch)], [Value(b.major), Value(b.minor), Value(b.patch)]);
    SuffixesCompare(a.prerelease, b.prerelease);
    hide Value, WellFormed;
  }

  lemma SuffixesCompare(xs: seq<string>, ys: seq<string>)
    requires Identifiers(xs) && Identifiers(ys)
    ensures CompareSuffix(if xs == [] then "" else Join(xs, '.'), if ys == [] then "" else Join(ys, '.')) ==
      if xs == [] then (if ys == [] then 0 else 1) else if ys == [] then -1 else CompareFields(xs, ys)
  {
    if xs != [] { JoinedFields(xs); }
    if ys != [] { JoinedFields(ys); }
    FieldFlips("", "");
    assert Split("", '.') == [""];
    hide Join, Identifiers;
  }

  /** On plain well-formed versions the server's answer is the precedence of section 11. */
  lemma CompareMeetsRule(a: Version, b: Version)
    requires WellFormed(a) && WellFormed(b) && Plain(a) && Plain(b)
    ensures Compare(Render(a), Render(b)) == Precedence(a, b)
  {
    CompareRendered(a, b);
    CoreNumbers(a, b);
    FieldsMeetRule(a.prerelease, b.prerelease);
    hide Compare, Render, Value, CompareFields, FieldsLower;
  }

  // ---------- The condition is exact ----------

  lemma {:induction false} SharedFields(p: seq<string>, xs: seq<string>, ys: seq<string>)
    ensures CompareFields(p + xs, p + ys) == CompareFields(xs, ys)
    ensures FieldsLower(p + xs, p + ys) <==> FieldsLower(xs, ys)
  {
    if p == [] {
      assert p + xs == xs && p + ys == ys;
    } else {
      FieldFlips(p[0], p[0]);
      BelowIsTrichotomous(p[0], p[0]);
      SharedFields(p[1..], xs, ys);
      assert (p + xs)[1..] == p[1..] + xs && (p + ys)[1..] == p[1..] + ys;
      FieldsLowerStep(p + xs, p + ys);
    }
  }

  /** For an identifier that is not plain: a plain one that the server and the rule order differently against it. */
  function Witness(x: string): string {
    if HyphenNumber(x) then "1" else "-"
  }

  lemma WitnessIsPlain(x: string)
    ensures Identifier(Witness(x)) && PlainField(Witness(x))
  {
    assert Value("1"[..0]) == 0;
  }

  lemma WitnessTellsApart(x: string)
    requires Identifier(x) && !PlainField(x)
    ensures var y := Witness(x);
      (CompareField(y, x) == 1 && IdentifierLower(y, x) && !IdentifierLower(x, y))
      || (CompareField(y, x) == -1 && IdentifierLower(x, y) && !IdentifierLower(y, x))
  {
    if HyphenNumber(x) {
      assert !IsDigit(x[0]);
      assert AllDigits("1") && Value("1"[..0]) == 0;
      assert Value("1") == 1;
      assert Atoi("1") == Some(1);
    } else {
      assert IsDigit(x[0]);
      BelowDigitsApart(x);
      assert Atoi("-") == None;
    }
  }

  lemma TellsApart(p: seq<string>, x: string, rest: seq<string>)
    requires Identifier(x) && !PlainField(x)
    ensures var xs, ys := p + [x] + rest, p + [Witness(x)];
      (CompareFields(ys, xs) == 1 && FieldsLower(ys, xs))
      || (CompareFields(ys, xs) == -1 && !FieldsLower(ys, xs))
  {
    var y := Witness(x);
    WitnessTellsApart(x);
    SharedFields(p, [y], [x] + rest);
    assert p + [x] + rest == p + ([x] + rest);
    FieldsLowerStep([y], [x] + rest);
    hide FieldsLower, IdentifierLower, CompareField;
    assert x != y;
  }

  /** Against a version with a field that is not plain, some plain version is ordered against the rule. */
  lemma OddFieldIsMisplaced(a: Version, k: nat)
    requires WellFormed(a) && PlainCore(a) && k < |a.prerelease| && !PlainField(a.prerelease[k])
    requires PlainFields(a.prerelease[..k])
    ensures var b := a.(prerelease := a.prerelease[..k] + [Witness(a.prerelease[k])]);
      WellFormed(b) && Plain(b) && Compare(Render(b), Render(a)) != Precedence(b, a)
  {
    var x := a.prerelease[k];
    var p := a.prerelease[..k];
    var b := a.(prerelease := p + [Witness(x)]);
    WitnessIsPlain(x);
    TellsApart(p, x, a.prerelease[k + 1..]);
    assert a.prerelease == p + [x] + a.prerelease[k + 1..];
    CompareRendered(b, a);
    hide Compare, Render, Value, CompareFields, FieldsLower, Identifier, PlainField, Witness;
  }

  const ZERO := Version("0", "0", "0", [], None)

  lemma ZeroIsPlain()
    ensures WellFormed(ZERO) && Plain(ZERO) && Value("0") == 0
  {
    assert Value("0"[..0]) == 0;
    assert Value("0") == 0;
  }

  lemma ZeroPrecedesWide(a: Version)
    requires WellFormed(a) && !PlainCore(a) && WellFormed(ZERO)
    ensures Precedes(ZERO, a)
  {
    ZeroIsPlain();
    CoreNumbers(ZERO, a);
  }

  lemma {:induction false} FirstOdd(ids: seq<string>) returns (k: nat)
    requires !PlainFields(ids)
    ensures k < |ids| && !PlainField(ids[k]) && PlainFields(ids[..k])
  {
    var n :| 0 <= n < |ids| && !PlainField(ids[n]);
    if PlainFields(ids[..n]) {
      k := n;
    } else {
      k := FirstOdd(ids[..n]);
      assert ids[..n][..k] == ids[..k];
    }
  }

  ghost predicate OrderedByRule(a: Version)
    requires WellFormed(a)
  {
    forall b :: WellFormed(b) && Plain(b) ==> Compare(Render(b), Render(a)) == Precedence(b, a)
  }

  /** The server orders a version by the rule among all plain versions exactly when it is plain itself. */
  lemma RuleHoldsExactly(a: Version)
    requires WellFormed(a)
    ensures Plain(a) <==> OrderedByRule(a)
  {
    if Plain(a) {
      forall b | WellFormed(b) && Plain(b) ensures Compare(Render(b), Render(a)) == Precedence(b, a) {
        CompareMeetsRule(b, a);
      }
    } else if !PlainCore(a) {
      ZeroIsPlain();
      ParseRendered(a);
      ZeroPrecedesWide(a);
      assert Compare(Render(ZERO), Render(a)) != Precedence(ZERO, a);
    } else {
      var k := FirstOdd(a.prerelease);
      OddFieldIsMisplaced(a, k);
    }
  }

  // ---------- Pair by pair ----------

  predicate Wide(s: string) { AllDigits(s) && Value(s) >= INT64_LIMIT }

  predicate Worded(s: string) { !AllDigits(s) && !HyphenNumber(s) }

  /** One field is read otherwise than the rule means it, and that puts the two in another order: a hyphen and
      digits beside a number; two of them whose numbers do not go the other way than their texts; one
      of them, or a number too wide, above a word; or two such numbers whose texts go the other way. */
  predicate WrongPair(x: string, y: string) {
    || (HyphenNumber(x) && AllDigits(y)) || (AllDigits(x) && HyphenNumber(y))
    || (HyphenNumber(x) && HyphenNumber(y) && if Below(x, y) then Value(x[1..]) <= Value(y[1..]) else Value(x[1..]) >= Value(y[1..]))
    || ((HyphenNumber(x) || Wide(x)) && Worded(y) && Below(y, x)) || (Worded(x) && (HyphenNumber(y) || Wide(y)) && Below(x, y))
    || (Wide(x) && Wide(y) && (Below(x, y) <==> Value(x) > Value(y)))
  }

  function RuleOrder(x: string, y: string): int {
    if AllDigits(x) && AllDigits(y) then Sign(Value(x), Value(y))
    else if AllDigits(x) then -1
    else if AllDigits(y) then 1
    else if Below(x, y) then -1 else 1
  }

  predicate ReadAlike(x: string, y: string) {
    Atoi(x).Some? && Atoi(x) == Atoi(y)
  }

  lemma AtoiKinds(x: string)
    requires Identifier(x)
    ensures Atoi(x) == if AllDigits(x) then (if Wide(x) then None else Some(Value(x)))
                       else if HyphenNumber(x) then Some(0 - Value(x[1..])) else None
    ensures !(AllDigits(x) && HyphenNumber(x))
  {
    assert IsWordChar(x[0]);
  }

  /** The server puts two different identifiers in the order of the rule exactly when they are not a wrong pair. */
  lemma FieldIsRightExactly(x: string, y: string)
    requires Identifier(x) && Identifier(y) && x != y
    ensures CompareField(x, y) == RuleOrder(x, y) <==> !WrongPair(x, y)
    ensures CompareField(x, y) == 0 <==> ReadAlike(x, y)
    ensures RuleOrder(x, y) != 0
    ensures RuleOrder(x, y) == -1 <==> IdentifierLower(x, y)
    ensures RuleOrder(x, y) == 1 <==> IdentifierLower(y, x)
  {
    AtoiKinds(x);
    AtoiKinds(y);
    BelowIsTrichotomous(x, y);
    if AllDigits(x) && AllDigits(y) && Value(x) == Value(y) { NumericIsUnique(x, y); }
    hide Atoi, Below, Value, Identifier;
  }

  /** The first difference of the fields is a wrong pair, and no later field makes up for it: a later field
      counts only where the server reads the pair as the same number. */
  ghost predicate MisorderedAt(xs: seq<string>, ys: seq<string>, k: nat) {
    && k < |xs| && k < |ys| && xs[..k] == ys[..k] && xs[k] != ys[k] && WrongPair(xs[k], ys[k])
    && !(ReadAlike(xs[k], ys[k]) && CompareFields(xs[k + 1..], ys[k + 1..]) == RuleOrder(xs[k], ys[k]))
  }

  ghost predicate MisorderedFields(xs: seq<string>, ys: seq<string>) {
    exists k: nat :: MisorderedAt(xs, ys, k)
  }

  lemma MisorderedAtStep(xs: seq<string>, ys: seq<string>, k: nat)
    requires xs != [] && ys != []
    ensures MisorderedAt(xs, ys, k + 1) <==> xs[0] == ys[0] && MisorderedAt(xs[1..], ys[1..], k)
  {
    hide WrongPair, ReadAlike, CompareFields, RuleOrder;
    if k + 1 < |xs| && k + 1 < |ys| {
      assert xs[..k + 1] == [xs[0]] + xs[1..][..k] && ys[..k + 1] == [ys[0]] + ys[1..][..k];
      if xs[..k + 1] == ys[..k + 1] {
        assert xs[..k + 1][0] == ys[..k + 1][0] && xs[..k + 1][1..] == xs[1..][..k] && ys[..k + 1][1..] == ys[1..][..k];
      }
      assert xs[1..][k + 1..] == xs[k + 2..] && ys[1..][k + 1..] == ys[k + 2..];
    }
  }

  lemma MisorderedStep(xs: seq<string>, ys: seq<string>)
    requires xs != [] && ys != []
    ensures MisorderedFields(xs, ys) <==>
      if xs[0] == ys[0] then MisorderedFields(xs[1..], ys[1..])
      else WrongPair(xs[0], ys[0]) && !(ReadAlike(xs[0], ys[0]) && CompareFields(xs[1..], ys[1..]) == RuleOrder(xs[0], ys[0]))
  {
    hide WrongPair, ReadAlike, CompareFields, RuleOrder;
    assert MisorderedAt(xs, ys, 0) <==>
      && xs[0] != ys[0] && WrongPair(xs[0], ys[0])
      && !(ReadAlike(xs[0], ys[0]) && CompareFields(xs[1..], ys[1..]) == RuleOrder(xs[0], ys[0]));
    hide MisorderedAt;
    if k: nat :| MisorderedAt(xs, ys, k) {
      if k > 0 { MisorderedAtStep(xs, ys, k - 1); }
    }
    if k: nat :| MisorderedAt(xs[1..], ys[1..], k) {
      MisorderedAtStep(xs, ys, k);
    }
  }

  ghost function FieldsOrder(xs: seq<string>, ys: seq<string>): int {
    if FieldsLower(xs, ys) then -1 else if FieldsLower(ys, xs) then 1 else 0
  }

  lemma FieldsOrderStep(xs: seq<string>, ys: seq<string>)
    requires xs != [] && ys != [] && Identifier(xs[0]) && Identifier(ys[0])
    ensures FieldsOrder(xs, ys) == if xs[0] == ys[0] then FieldsOrder(xs[1..], ys[1..]) else RuleOrder(xs[0], ys[0])
  {
    FieldsLowerStep(xs, ys);
    FieldsLowerStep(ys, xs);
    BelowIsTrichotomous(xs[0], xs[0]);
    if xs[0] != ys[0] {
      FieldIsRightExactly(xs[0], ys[0]);
    }
    hide FieldsLower, WrongPair, CompareField, ReadAlike, Identifier;
  }

  lemma {:induction false} FieldsAreRightExactly(xs: seq<string>, ys: seq<string>)
    requires Identifiers(xs) && Identifiers(ys)
    ensures CompareFields(xs, ys) == FieldsOrder(xs, ys) <==> !MisorderedFields(xs, ys)
  {
    if xs == [] || ys == [] {
      FieldsLowerStep(xs, ys);
      FieldsLowerStep(ys, xs);
    } else {
      FieldsOrderStep(xs, ys);
      MisorderedStep(xs, ys);
      FieldFlips(xs[0], xs[0]);
      FieldsAreRightExactly(xs[1..], ys[1..]);
      if xs[0] != ys[0] { FieldIsRightExactly(xs[0], ys[0]); }
      hide FieldsOrder, MisorderedFields, WrongPair, ReadAlike, RuleOrder, CompareField, IdentifierLower, Identifier;
    }
  }

  ghost predicate SameNumbers(a: Version, b: Version) {
    a.major == b.major && a.minor == b.minor && a.patch == b.patch
  }

  /** The server orders two well-formed versions whose cores it can read by section 11 exactly when their cores
      differ or the first difference of their prereleases is not a wrong pair that stands. */
  lemma PairIsRightExactly(a: Version, b: Version)
    requires WellFormed(a) && WellFormed(b) && PlainCore(a) && PlainCore(b)
    ensures Compare(Render(a), Render(b)) == Precedence(a, b) <==>
      !(SameNumbers(a, b) && MisorderedFields(a.prerelease, b.prerelease))
  {
    CompareRendered(a, b);
    CoreNumbers(a, b);
    FieldsAreRightExactly(a.prerelease, b.prerelease);
    if a.prerelease == [] || b.prerelease == [] { EmptyIsNotMisordered(a.prerelease, b.prerelease); }
    hide Compare, Render, Value, CompareFields, FieldsLower, MisorderedFields, WellFormed, PlainCore;
  }

  lemma EmptyIsNotMisordered(xs: seq<string>, ys: seq<string>)
    requires xs == [] || ys == []
    ensures !MisorderedFields(xs, ys)
  {
  }
}
