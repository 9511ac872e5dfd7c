/** Texts of versions: cutting, splitting, digits, and what `Atoi` makes of them. */
module VersionText {
  import opened Text

  // ---------- Cutting and splitting ----------

  function Before(s: string, c: char): string {
    if s == "" || s[0] == c then "" else [s[0]] + Before(s[1..], c)
  }

  function After(s: string, c: char): (r: string)
    ensures c in s ==> |r| < |s|
  {
    if s == "" then "" else if s[0] == c then s[1..] else After(s[1..], c)
  }

  function Split(s: string, c: char): (r: seq<string>)
    ensures r != []
    decreases |s|
  {
    if c in s then [Before(s, c)] + Split(After(s, c), c) else [s]
  }

  function Join(parts: seq<string>, c: char): string
    requires parts != []
  {
    if |parts| == 1 then parts[0] else parts[0] + [c] + Join(parts[1..], c)
  }

  lemma {:induction false} CutWhole(s: string, c: char)
    requires c !in s
    ensures Before(s, c) == s && After(s, c) == ""
  {
    if s != "" { CutWhole(s[1..], c); }
  }

  lemma {:induction false} CutJoined(s: string, c: char, rest: string)
    requires c !in s
    ensures Before(s + [c] + rest, c) == s && After(s + [c] + rest, c) == rest
  {
    var whole := s + [c] + rest;
    if s == "" {
      assert whole == [c] + rest;
    } else {
      CutJoined(s[1..], c, rest);
      assert whole[1..] == s[1..] + [c] + rest;
    }
  }

  lemma {:induction false} CutAgain(s: string, c: char)
    requires c in s
    ensures s == Before(s, c) + [c] + After(s, c) && c !in Before(s, c)
    ensures forall d :: d in Before(s, c) || d in After(s, c) ==> d in s
  {
    if s[0] != c {
      CutAgain(s[1..], c);
    }
  }

  lemma {:induction false} SplitJoined(parts: seq<string>, c: char)
    requires parts != [] && forall i :: 0 <= i < |parts| ==> c !in parts[i]
    ensures Split(Join(parts, c), c) == parts
  {
    if |parts| > 1 {
      CutJoined(parts[0], c, Join(parts[1..], c));
      SplitJoined(parts[1..], c);
    }
  }

  lemma {:induction false} JoinSplit(s: string, c: char)
    ensures Join(Split(s, c), c) == s
    ensures forall i :: 0 <= i < |Split(s, c)| ==> c !in Split(s, c)[i]
    decreases |s|
  {
    if c in s {
      CutAgain(s, c);
      JoinSplit(After(s, c), c);
    }
  }

  lemma {:induction false} JoinIsMadeOf(parts: seq<string>, c: char, x: char)
    requires parts != [] && x != c && forall i :: 0 <= i < |parts| ==> x !in parts[i]
    ensures x !in Join(parts, c)
  {
    if |parts| > 1 { JoinIsMadeOf(parts[1..], c, x); }
  }

  lemma {:induction false} TrimKeeps(s: string)
    requires forall i :: 0 <= i < |s| ==> !IsSpace(s[i])
    ensures TrimSpace(s) == s
  {
  }

  // ---------- Digits ----------

  predicate IsDigit(c: char) { '0' <= c <= '9' }

  predicate AllDigits(s: string) {
    s != "" && forall i :: 0 <= i < |s| ==> IsDigit(s[i])
  }

  /** The number a digit text spells. */
  function Value(s: string): nat
    requires forall i :: 0 <= i < |s| ==> IsDigit(s[i])
  {
    if s == "" then 0
    else
      assert IsDigit(s[|s| - 1]);
      Value(s[..|s| - 1]) * 10 + (s[|s| - 1] as int - '0' as int)
  }

  /** A numeric identifier without leading zeros. */
  predicate Numeric(s: string) {
    AllDigits(s) && (s == "0" || s[0] != '0')
  }

  lemma {:induction false} NumericIsPositive(s: string)
    requires AllDigits(s) && s[0] != '0'
    ensures Value(s) > 0
  {
    if |s| > 1 { NumericIsPositive(s[..|s| - 1]); }
  }

  /** Without leading zeros equal numbers have equal texts. */
  lemma {:induction false} NumericIsUnique(a: string, b: string)
    requires Numeric(a) && Numeric(b) && Value(a) == Value(b)
    ensures a == b
  {
    if |a| > 1 { NumericIsPositive(a[..|a| - 1]); }
    if |b| > 1 { NumericIsPositive(b[..|b| - 1]); }
    var x, y := a[..|a| - 1], b[..|b| - 1];
    assert a == x + [a[|a| - 1]] && b == y + [b[|b| - 1]];
    assert Value(x) == Value(y) && a[|a| - 1] == b[|b| - 1];
    if |a| > 1 && |b| > 1 {
      NumericIsUnique(x, y);
    }
  }

  // ---------- Atoi ----------

  const INT64_LIMIT: nat := 0x8000_0000_0000_0000

  /** Go's `strconv.Atoi` with a 64-bit int: an optional sign, digits, and a range. */
  function Atoi(s: string): Option<int> {
    if AllDigits(s) then
      if Value(s) < INT64_LIMIT then Some(Value(s)) else None
    else if s != "" && s[0] == '+' && AllDigits(s[1..]) then
      if Value(s[1..]) < INT64_LIMIT then Some(Value(s[1..])) else None
    else if s != "" && s[0] == '-' && AllDigits(s[1..]) then
      if Value(s[1..]) <= INT64_LIMIT then Some(0 - Value(s[1..])) else None
    else None
  }
}
