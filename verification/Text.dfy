/** Options and the few string operations shared by the other modules. */
module Text {

  datatype Option<+T> = None | Some(value: T)

  predicate IsSpace(c: char) {
    c == ' ' || '\t' <= c <= '\r'
  }

  /** Go's `strings.TrimSpace` on ASCII text. */
  function TrimSpace(s: string): string {
    if s != "" && IsSpace(s[0]) then TrimSpace(s[1..])
    else if s != "" && IsSpace(s[|s| - 1]) then TrimSpace(s[..|s| - 1])
    else s
  }

  /** Byte order on strings, as `<` compares them in Go and in JavaScript for ASCII. */
  predicate Below(a: string, b: string) {
    if b == "" then false
    else if a == "" then true
    else a[0] < b[0] || (a[0] == b[0] && Below(a[1..], b[1..]))
  }

  lemma {:induction false} BelowIsTransitive(a: string, b: string, c: string)
    requires Below(a, b) && Below(b, c)
    ensures Below(a, c)
  {
    if a != "" && a[0] == b[0] && b[0] == c[0] {
      BelowIsTransitive(a[1..], b[1..], c[1..]);
    }
  }

  /** The order is strict and total: exactly one of below, equal, above holds. */
  lemma {:induction false} BelowIsTrichotomous(a: string, b: string)
    ensures a == b ==> !Below(a, b) && !Below(b, a)
    ensures a != b ==> (Below(a, b) <==> !Below(b, a))
  {
    if a != "" && b != "" {
      BelowIsTrichotomous(a[1..], b[1..]);
      assert a == [a[0]] + a[1..] && b == [b[0]] + b[1..];
    }
  }

  /** Strictly increasing, hence free of duplicates. */
  ghost predicate Increasing(ids: seq<string>) {
    forall i, j :: 0 <= i < j < |ids| ==> Below(ids[i], ids[j])
  }

  function Insert(id: string, ids: seq<string>): seq<string> {
    if ids == [] then [id]
    else if id == ids[0] then ids
    else if Below(id, ids[0]) then [id] + ids
    else [ids[0]] + Insert(id, ids[1..])
  }

  /** Go's `slices.Sort` followed by `slices.Compact`. */
  function SortUnique(ids: seq<string>): seq<string> {
    if ids == [] then [] else Insert(ids[0], SortUnique(ids[1..]))
  }

  lemma {:induction false} InsertKeepsOrder(id: string, ids: seq<string>)
    requires Increasing(ids)
    ensures Increasing(Insert(id, ids))
    ensures forall x :: x in Insert(id, ids) <==> x == id || x in ids
  {
    if ids == [] || id == ids[0] {
    } else if Below(id, ids[0]) {
      forall j | 0 <= j < |ids| ensures Below(id, ids[j]) {
        if j > 0 { BelowIsTransitive(id, ids[0], ids[j]); }
      }
    } else {
      BelowIsTrichotomous(id, ids[0]);
      var tail := ids[1..];
      InsertKeepsOrder(id, tail);
      var rest := Insert(id, tail);
      forall j | 0 <= j < |rest| ensures Below(ids[0], rest[j]) {
        assert rest[j] in rest;
        if rest[j] != id {
          assert rest[j] in tail;
        }
      }
      assert ids == [ids[0]] + tail;
    }
  }

  /** Strictly increasing sequences with the same elements are equal. */
  lemma {:induction false} IncreasingIsUnique(a: seq<string>, b: seq<string>)
    requires Increasing(a) && Increasing(b) && forall x :: x in a <==> x in b
    ensures a == b
  {
    assert (a != [] ==> a[0] in a) && (b != [] ==> b[0] in b);
    if a != [] && b != [] {
      assert a[0] in b && b[0] in a;
      var i :| 0 <= i < |b| && b[i] == a[0];
      var j :| 0 <= j < |a| && a[j] == b[0];
      BelowIsTrichotomous(a[0], b[0]);
      assert a[0] == b[0];
      var x, y := a[1..], b[1..];
      forall z ensures z in x <==> z in y {
        TailElements(a, z);
        TailElements(b, z);
      }
      IncreasingIsUnique(x, y);
      assert a == [a[0]] + x && b == [b[0]] + y;
    }
  }

  lemma TailElements(a: seq<string>, z: string)
    requires a != [] && Increasing(a)
    ensures z in a[1..] <==> z in a && z != a[0]
  {
    BelowIsTrichotomous(a[0], a[0]);
    assert a == [a[0]] + a[1..];
    if z in a[1..] {
      var i :| 0 <= i < |a[1..]| && a[1..][i] == z;
      assert Below(a[0], a[i + 1]);
    }
  }

  /** The result depends only on which ids are given. */
  lemma SortUniqueIsCanonical(a: seq<string>, b: seq<string>)
    requires forall x :: x in a <==> x in b
    ensures SortUnique(a) == SortUnique(b)
  {
    SortUniqueSorts(a);
    SortUniqueSorts(b);
    IncreasingIsUnique(SortUnique(a), SortUnique(b));
  }

  /** Sorting and compacting keeps exactly the given ids, each once, in order. */
  lemma {:induction false} SortUniqueSorts(ids: seq<string>)
    ensures Increasing(SortUnique(ids))
    ensures forall x :: x in SortUnique(ids) <==> x in ids
  {
    if ids != [] {
      SortUniqueSorts(ids[1..]);
      InsertKeepsOrder(ids[0], SortUnique(ids[1..]));
      assert ids == [ids[0]] + ids[1..];
    }
  }
}
