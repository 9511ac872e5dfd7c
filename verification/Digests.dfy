/**
 The byte streams that the database migration hashes to compare two databases. A
 digest can only tell databases apart as far as its input stream does, so what is
 proved here is that the stream determines the rows: each encoding decodes back.
 */
module Digests {
  import opened Text

  type Byte = b: int | 0 <= b < 256

  /** A text or binary column value. A Go slice is shorter than 2^63 bytes. */
  type Bytes = s: seq<Byte> | |s| < 0x8000_0000_0000_0000

  /** A scanned column: NULL, text or bytes, or a value of some other type. */
  datatype Cell = Null | Value(data: Bytes) | Other

  // ---------- Rows ----------

  /** Eight bytes, least significant first. */
  function LittleEndian(n: nat, width: nat): seq<Byte> {
    if width == 0 then [] else [n % 256] + LittleEndian(n / 256, width - 1)
  }

  function FromLittleEndian(s: seq<Byte>): nat {
    if s == [] then 0 else s[0] + 256 * FromLittleEndian(s[1..])
  }

  function Power256(width: nat): nat {
    if width == 0 then 1 else 256 * Power256(width - 1)
  }

  const NULL_MARK: nat := 0xFFFF_FFFF_FFFF_FFFF

  function EncodeCell(c: Cell): seq<Byte> {
    match c
    case Null => LittleEndian(NULL_MARK, 8)
    case Value(data) => LittleEndian(|data|, 8) + data
    case Other => []
  }

  predicate Hashable(cells: seq<Cell>) {
    Other !in cells
  }

  function EncodeCells(cells: seq<Cell>): seq<Byte> {
    if cells == [] then [] else EncodeCell(cells[0]) + EncodeCells(cells[1..])
  }

  function EncodeRows(rows: seq<seq<Cell>>): seq<Byte> {
    if rows == [] then [] else EncodeCells(rows[0]) + EncodeRows(rows[1..])
  }

  lemma Reassociate(a: seq<Byte>, b: seq<Byte>, c: seq<Byte>)
    ensures a + (b + c) == a + b + c
  {
  }

  /** Feeds the cells of one row to the hash, after what it was fed before. */
  method FeedRow(fed: seq<Byte>, cells: seq<Cell>) returns (ok: bool, stream: seq<Byte>)
    ensures ok == Hashable(cells)
    ensures ok ==> stream == fed + EncodeCells(cells)
  {
    hide LittleEndian;
    ok, stream := true, fed;
    for j := 0 to |cells|
      invariant ok && Other !in cells[..j]
      invariant fed + EncodeCells(cells) == stream + EncodeCells(cells[j..])
    {
      assert cells[j..][1..] == cells[j + 1..] && cells[..j + 1] == cells[..j] + [cells[j]];
      Reassociate(stream, EncodeCell(cells[j]), EncodeCells(cells[j + 1..]));
      match cells[j] {
        case Null => stream := stream + LittleEndian(NULL_MARK, 8);
        case Value(data) => stream := stream + (LittleEndian(|data|, 8) + data);
        case Other => return false, stream;
      }
    }
    assert cells[|cells|..] == [] && cells[..|cells|] == cells;
  }

  /** What `rowDigest` feeds to the hash; it fails exactly on a value that is neither NULL, text nor bytes. */
  method RowStream(rows: seq<seq<Cell>>) returns (ok: bool, stream: seq<Byte>)
    ensures ok <==> forall i :: 0 <= i < |rows| ==> Hashable(rows[i])
    ensures ok ==> stream == EncodeRows(rows)
  {
    ok, stream := true, [];
    for i := 0 to |rows|
      invariant ok && forall k :: 0 <= k < i ==> Hashable(rows[k])
      invariant EncodeRows(rows) == stream + EncodeRows(rows[i..])
    {
      assert rows[i..][1..] == rows[i + 1..];
      Reassociate(stream, EncodeCells(rows[i]), EncodeRows(rows[i + 1..]));
      ok, stream := FeedRow(stream, rows[i]);
      if !ok { return false, stream; }
    }
  }

  lemma {:induction false} LittleEndianRoundTrip(n: nat, width: nat)
    requires n < Power256(width)
    ensures |LittleEndian(n, width)| == width && FromLittleEndian(LittleEndian(n, width)) == n
  {
    if width > 0 {
      LittleEndianRoundTrip(n / 256, width - 1);
      var s := LittleEndian(n, width);
      assert s[1..] == LittleEndian(n / 256, width - 1);
    }
  }

  lemma EightBytes(n: nat)
    requires n <= NULL_MARK
    ensures |LittleEndian(n, 8)| == 8 && FromLittleEndian(LittleEndian(n, 8)) == n
  {
    assert Power256(2) == 65536;
    assert Power256(4) == 0x1_0000_0000;
    assert Power256(6) == 0x1_0000_0000_0000;
    assert Power256(8) == 0x1_0000_0000_0000_0000;
    LittleEndianRoundTrip(n, 8);
  }

  lemma OnesUnfold(n: nat, width: nat)
    requires width > 0 && n % 256 == 255
    ensures LittleEndian(n, width) == [255] + LittleEndian(n / 256, width - 1)
  {
  }

  /** NULL is written as eight bytes of ones. */
  lemma NullIsAllOnes()
    ensures EncodeCell(Null) == [255, 255, 255, 255, 255, 255, 255, 255]
  {
    OnesUnfold(0xFFFF_FFFF_FFFF_FFFF, 8);
    OnesUnfold(0xFF_FFFF_FFFF_FFFF, 7);
    OnesUnfold(0xFFFF_FFFF_FFFF, 6);
    OnesUnfold(0xFF_FFFF_FFFF, 5);
    OnesUnfold(0xFFFF_FFFF, 4);
    OnesUnfold(0xFF_FFFF, 3);
    OnesUnfold(0xFFFF, 2);
    OnesUnfold(0xFF, 1);
    assert LittleEndian(0, 0) == [];
    hide LittleEndian;
  }

  /** Reads one cell off the front of a stream. */
  function DecodeCell(s: seq<Byte>): Option<(Cell, seq<Byte>)> {
    if |s| < 8 then None
    else
      var n := FromLittleEndian(s[..8]);
      if n == NULL_MARK then Some((Null, s[8..]))
      else if n > |s| - 8 || n >= 0x8000_0000_0000_0000 then None
      else Some((Value(s[8..8 + n]), s[8 + n..]))
  }

  lemma DecodeCellRoundTrip(c: Cell, rest: seq<Byte>)
    requires !c.Other?
    ensures DecodeCell(EncodeCell(c) + rest) == Some((c, rest))
    ensures |EncodeCell(c)| > 0
  {
    var n := if c.Null? then NULL_MARK else |c.data|;
    EightBytes(n);
    var s := EncodeCell(c) + rest;
    assert s[..8] == LittleEndian(n, 8);
    if c.Null? {
      assert s[8..] == rest;
    } else {
      assert s[8..8 + n] == c.data && s[8 + n..] == rest;
    }
  }

  function DecodeCells(s: seq<Byte>): Option<seq<Cell>>
    decreases |s|
  {
    if s == [] then Some([])
    else
      var r := DecodeCell(s);
      if r.None? then None
      else
        var rest := DecodeCells(r.value.1);
        if rest.None? then None else Some([r.value.0] + rest.value)
  }

  lemma {:induction false} DecodeCellsRoundTrip(cells: seq<Cell>)
    requires Hashable(cells)
    ensures DecodeCells(EncodeCells(cells)) == Some(cells)
  {
    if cells != [] {
      DecodeCellRoundTrip(cells[0], EncodeCells(cells[1..]));
      DecodeCellsRoundTrip(cells[1..]);
      assert cells == [cells[0]] + cells[1..];
    }
  }

  function Flatten(rows: seq<seq<Cell>>): seq<Cell> {
    if rows == [] then [] else rows[0] + Flatten(rows[1..])
  }

  lemma {:induction false} EncodeCellsOfMore(a: seq<Cell>, b: seq<Cell>)
    ensures EncodeCells(a + b) == EncodeCells(a) + EncodeCells(b)
  {
    hide EncodeCell;
    if a == [] {
      assert a + b == b;
    } else {
      EncodeCellsOfMore(a[1..], b);
      assert (a + b)[1..] == a[1..] + b && (a + b)[0] == a[0];
      Reassociate(EncodeCell(a[0]), EncodeCells(a[1..]), EncodeCells(b));
    }
  }

  ghost predicate Table(rows: seq<seq<Cell>>, columns: nat) {
    forall i :: 0 <= i < |rows| ==> |rows[i]| == columns && Hashable(rows[i])
  }

  lemma {:induction false} RowsAreFlat(rows: seq<seq<Cell>>, columns: nat)
    requires Table(rows, columns)
    ensures Hashable(Flatten(rows))
    ensures EncodeRows(rows) == EncodeCells(Flatten(rows))
  {
    if rows != [] {
      RowsAreFlat(rows[1..], columns);
      EncodeCellsOfMore(rows[0], Flatten(rows[1..]));
    }
  }

  /** Cuts a stream of cells into rows of `columns` cells. */
  function Group(cells: seq<Cell>, columns: nat): Option<seq<seq<Cell>>>
    requires columns > 0
    decreases |cells|
  {
    if cells == [] then Some([])
    else if |cells| < columns then None
    else
      var rest := Group(cells[columns..], columns);
      if rest.None? then None else Some([cells[..columns]] + rest.value)
  }

  lemma {:induction false} GroupRoundTrip(rows: seq<seq<Cell>>, columns: nat)
    requires columns > 0 && Table(rows, columns)
    ensures Group(Flatten(rows), columns) == Some(rows)
  {
    if rows != [] {
      GroupRoundTrip(rows[1..], columns);
      var cells := Flatten(rows);
      assert cells[..columns] == rows[0] && cells[columns..] == Flatten(rows[1..]);
      assert rows == [rows[0]] + rows[1..];
    }
  }

  function DecodeRows(s: seq<Byte>, columns: nat): Option<seq<seq<Cell>>>
    requires columns > 0
  {
    var cells := DecodeCells(s);
    if cells.None? then None else Group(cells.value, columns)
  }

  /** For a fixed positive number of columns the hashed stream decodes back to the rows. */
  lemma RowsRoundTrip(rows: seq<seq<Cell>>, columns: nat)
    requires columns > 0 && Table(rows, columns)
    ensures DecodeRows(EncodeRows(rows), columns) == Some(rows)
  {
    RowsAreFlat(rows, columns);
    DecodeCellsRoundTrip(Flatten(rows));
    GroupRoundTrip(rows, columns);
  }

  /** Two tables of the same width feed the same stream to the hash exactly when they are equal. */
  lemma RowStreamIsInjective(a: seq<seq<Cell>>, b: seq<seq<Cell>>, columns: nat)
    requires columns > 0 && Table(a, columns) && Table(b, columns)
    ensures EncodeRows(a) == EncodeRows(b) <==> a == b
  {
    RowsRoundTrip(a, columns);
    RowsRoundTrip(b, columns);
  }

  /** Without columns the stream says nothing: it is empty for any number of rows. */
  lemma {:induction false} NoColumnsNoStream(rows: seq<seq<Cell>>)
    requires forall i :: 0 <= i < |rows| ==> rows[i] == []
    ensures EncodeRows(rows) == []
  {
    if rows != [] { NoColumnsNoStream(rows[1..]); }
  }

  // ---------- Metadata ----------

  const COLON: Byte := 58

  function Decimal(n: nat): seq<Byte> {
    if n < 10 then [48 + n] else Decimal(n / 10) + [48 + n % 10]
  }

  function EncodeField(s: seq<Byte>): seq<Byte> {
    Decimal(|s|) + [COLON] + s
  }

  function EncodeMetadata(pairs: seq<(seq<Byte>, seq<Byte>)>): seq<Byte> {
    if pairs == [] then [] else EncodeField(pairs[0].0) + EncodeField(pairs[0].1) + EncodeMetadata(pairs[1..])
  }

  /** What `metadataHash` feeds to the hash. */
  method MetadataStream(pairs: seq<(seq<Byte>, seq<Byte>)>) returns (stream: seq<Byte>)
    ensures stream == EncodeMetadata(pairs)
  {
    stream := [];
    for i := 0 to |pairs|
      invariant EncodeMetadata(pairs) == stream + EncodeMetadata(pairs[i..])
    {
      assert pairs[i..][1..] == pairs[i + 1..];
      stream := stream + (Decimal(|pairs[i].0|) + [COLON] + pairs[i].0) + (Decimal(|pairs[i].1|) + [COLON] + pairs[i].1);
    }
  }

  /** Reads a decimal number up to its colon, with `acc` read so far. */
  function ReadNumber(s: seq<Byte>, acc: nat): Option<(nat, seq<Byte>)>
    ensures ReadNumber(s, acc).Some? ==> |ReadNumber(s, acc).value.1| < |s|
  {
    if s == [] then None
    else if s[0] == COLON then Some((acc, s[1..]))
    else if 48 <= s[0] <= 57 then ReadNumber(s[1..], acc * 10 + (s[0] - 48))
    else None
  }

  lemma {:induction false} ReadNumberRoundTrip(n: nat, rest: seq<Byte>)
    ensures ReadNumber(Decimal(n) + rest, 0) == ReadNumber(rest, n)
  {
    if n < 10 {
      assert (Decimal(n) + rest)[1..] == rest;
    } else {
      var digit: Byte := 48 + n % 10;
      assert Decimal(n) + rest == Decimal(n / 10) + ([digit] + rest);
      ReadNumberRoundTrip(n / 10, [digit] + rest);
      assert ([digit] + rest)[1..] == rest;
    }
  }

  function DecodeField(s: seq<Byte>): Option<(seq<Byte>, seq<Byte>)>
    ensures DecodeField(s).Some? ==> |DecodeField(s).value.1| < |s|
  {
    var r := ReadNumber(s, 0);
    if r.None? || r.value.0 > |r.value.1| then None
    else Some((r.value.1[..r.value.0], r.value.1[r.value.0..]))
  }

  lemma DecodeFieldRoundTrip(s: seq<Byte>, rest: seq<Byte>)
    ensures DecodeField(EncodeField(s) + rest) == Some((s, rest))
    ensures EncodeField(s) != []
  {
    var tail := [COLON] + (s + rest);
    assert EncodeField(s) + rest == Decimal(|s|) + tail;
    ReadNumberRoundTrip(|s|, tail);
    assert tail[1..] == s + rest;
  }

  function DecodeMetadata(s: seq<Byte>): Option<seq<(seq<Byte>, seq<Byte>)>>
    decreases |s|
  {
    if s == [] then Some([])
    else
      var name := DecodeField(s);
      if name.None? then None
      else
        var value := DecodeField(name.value.1);
        if value.None? then None
        else
          var rest := DecodeMetadata(value.value.1);
          if rest.None? then None else Some([(name.value.0, value.value.0)] + rest.value)
  }

  /** The decimal-length stream decodes back to the names and values, whatever bytes they hold. */
  lemma {:induction false} MetadataRoundTrip(pairs: seq<(seq<Byte>, seq<Byte>)>)
    ensures DecodeMetadata(EncodeMetadata(pairs)) == Some(pairs)
  {
    if pairs != [] {
      var rest := EncodeMetadata(pairs[1..]);
      var s := EncodeMetadata(pairs);
      assert s == EncodeField(pairs[0].0) + (EncodeField(pairs[0].1) + rest);
      DecodeFieldRoundTrip(pairs[0].0, EncodeField(pairs[0].1) + rest);
      DecodeFieldRoundTrip(pairs[0].1, rest);
      MetadataRoundTrip(pairs[1..]);
      assert pairs == [pairs[0]] + pairs[1..];
    }
  }

  /** Two metadata tables feed the same stream to the hash exactly when they are equal. */
  lemma MetadataStreamIsInjective(a: seq<(seq<Byte>, seq<Byte>)>, b: seq<(seq<Byte>, seq<Byte>)>)
    ensures EncodeMetadata(a) == EncodeMetadata(b) <==> a == b
  {
    MetadataRoundTrip(a);
    MetadataRoundTrip(b);
  }
}
