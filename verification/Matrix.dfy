/** bulk/npy.go: matrices written as .npy files, and read back. */
module Matrix {
  import opened Half

  type Byte = n: nat | n < 0x100
  datatype Dtype = Float32 | Float16 | Int64

  /** A file's header and what follows it. */
  datatype Npy = Npy(dtype: Dtype, shape: seq<nat>, data: seq<Byte>)

  datatype Error = RowLength(row: nat) | NotAMatrix | ShortRow(row: nat)
  datatype Result<T> = Ok(value: T) | Err(error: Error)

  function Size(half: bool): nat { if half then 2 else 4 }

  function Low(n: nat): Byte { n % 0x100 }

  function Word(low: Byte, high: Byte): Bits16 {
    var a: nat, b: nat := low, high;
    a + 0x100 * b
  }

  function Encode(v: Bits32, half: bool): (b: seq<Byte>)
    ensures |b| == Size(half)
  {
    if half then
      [Low(Float32ToHalf(v)), Low(Float32ToHalf(v) / 0x100)]
    else
      [Low(v), Low(v / 0x100), Low(v / 0x1_0000), Low(v / 0x100_0000)]
  }

  function Decode(b: seq<Byte>, half: bool): Bits32
    requires |b| == Size(half)
  {
    if half then Widened(Word(b[0], b[1])) else Word(b[0], b[1]) + 0x1_0000 * Word(b[2], b[3])
  }

  function RowBytes(row: seq<Bits32>, half: bool): (b: seq<Byte>)
    ensures |b| == |row| * Size(half)
  {
    if row == [] then [] else Encode(row[0], half) + RowBytes(row[1..], half)
  }

  function AllBytes(rows: seq<seq<Bits32>>, half: bool): seq<Byte> {
    if rows == [] then [] else RowBytes(rows[0], half) + AllBytes(rows[1..], half)
  }

  function Written(rows: seq<seq<Bits32>>, dim: nat, half: bool): Npy {
    Npy(if half then Float16 else Float32, [|rows|, dim], AllBytes(rows, half))
  }

  method WriteMatrix(rows: seq<seq<Bits32>>, dim: nat, half: bool) returns (r: Result<Npy>)
    ensures r.Ok? <==> forall i :: 0 <= i < |rows| ==> |rows[i]| == dim
    ensures r.Ok? ==> r.value == Written(rows, dim, half)
    ensures r.Ok? ==> r.value.dtype == (if half then Float16 else Float32) && r.value.shape == [|rows|, dim]
    ensures r.Ok? ==> AllStored(rows, dim, half, r.value.data)
    ensures r.Err? ==> r.error.RowLength? && r.error.row < |rows| && |rows[r.error.row]| != dim
    ensures r.Err? ==> forall i :: 0 <= i < r.error.row ==> |rows[i]| == dim
  {
    hide Encode, AllStored, RowBytes;
    var size := if half then 2 else 4;
    var buf := new Byte[dim * size];
    var data: seq<Byte> := [];
    for i := 0 to |rows|
      invariant data + AllBytes(rows[i..], half) == AllBytes(rows, half)
      invariant forall k :: 0 <= k < i ==> |rows[k]| == dim
    {
      if |rows[i]| != dim { return Err(RowLength(i)); }
      FillRow(buf, rows[i], half);
      Grown(data, rows, i, half);
      data := data + buf[..];
    }
    assert rows[|rows|..] == [];
    WrittenStored(rows, dim, half);
    r := Ok(Npy(if half then Float16 else Float32, [|rows|, dim], data));
  }

  lemma Grown(data: seq<Byte>, rows: seq<seq<Bits32>>, i: nat, half: bool)
    requires i < |rows|
    ensures data + AllBytes(rows[i..], half) == data + RowBytes(rows[i], half) + AllBytes(rows[i + 1..], half)
  {
    assert rows[i..][1..] == rows[i + 1..];
  }

  /** binary.LittleEndian.PutUint16 of the binary16, or PutUint32. */
  method Put(buf: array<Byte>, at: nat, v: Bits32, half: bool)
    requires at + Size(half) <= buf.Length
    modifies buf
    ensures buf[..at] == old(buf[..at]) && buf[at..at + Size(half)] == Encode(v, half)
  {
    hide Float32ToHalf, Low;
    if half {
      var bits := Float32ToHalf(v);
      buf[at], buf[at + 1] := Low(bits), Low(bits / 0x100);
    } else {
      buf[at], buf[at + 1] := Low(v), Low(v / 0x100);
      buf[at + 2], buf[at + 3] := Low(v / 0x1_0000), Low(v / 0x100_0000);
    }
  }

  /** One row's values, put one after the other over whatever the buffer held. */
  method FillRow(buf: array<Byte>, row: seq<Bits32>, half: bool)
    requires buf.Length == |row| * Size(half)
    modifies buf
    ensures buf[..] == RowBytes(row, half)
  {
    hide Encode, RowBytes;
    assert row[0..] == row;
    for j := 0 to |row|
      invariant buf[..j * Size(half)] + RowBytes(row[j..], half) == RowBytes(row, half)
    {
      var v := row[j];
      var at := j * Size(half);
      assert at + Size(half) <= buf.Length;
      RowStep(row, j, half);
      ghost var before := buf[..at];
      Put(buf, at, v, half);
      assert buf[..at + Size(half)] == before + Encode(v, half);
      assert (j + 1) * Size(half) == at + Size(half);
    }
    assert buf[..|row| * Size(half)] == buf[..];
    NoBytes(row[|row|..], half);
  }

  lemma NoBytes(row: seq<Bits32>, half: bool)
    requires row == []
    ensures RowBytes(row, half) == []
  {}

  lemma RowStep(row: seq<Bits32>, j: nat, half: bool)
    requires j < |row|
    ensures RowBytes(row[j..], half) == Encode(row[j], half) + RowBytes(row[j + 1..], half)
  {
    assert row[j..][1..] == row[j + 1..];
  }

  /** The values of a row's bytes. */
  function RowOf(b: seq<Byte>, half: bool): seq<Bits32> {
    if |b| < Size(half) then [] else [Decode(b[..Size(half)], half)] + RowOf(b[Size(half)..], half)
  }

  /** Rows i to n, read one after the other from what is left of a file. */
  function RowsFrom(rest: seq<Byte>, i: nat, n: nat, cols: nat, half: bool): Result<seq<seq<Bits32>>>
    requires i <= n
    decreases n - i
  {
    if i == n then Ok([])
    else if |rest| < cols * Size(half) then Err(ShortRow(i))
    else After([RowOf(rest[..cols * Size(half)], half)], RowsFrom(rest[cols * Size(half)..], i + 1, n, cols, half))
  }

  function After(rows: seq<seq<Bits32>>, r: Result<seq<seq<Bits32>>>): Result<seq<seq<Bits32>>> {
    match r
    case Ok(more) => Ok(rows + more)
    case Err(e) => Err(e)
  }

  function MatrixOf(f: Npy): Result<seq<seq<Bits32>>> {
    if |f.shape| != 2 || f.dtype == Int64 then Err(NotAMatrix)
    else RowsFrom(f.data, 0, f.shape[0], f.shape[1], f.dtype == Float16)
  }

  method ReadMatrix(f: Npy) returns (r: Result<seq<seq<Bits32>>>)
    ensures r == MatrixOf(f)
    ensures ReadRight(f, r)
  {
    ReadMeant(f);
    hide RowOf, ReadRight;
    if |f.shape| != 2 || (f.dtype != Float16 && f.dtype != Float32) { return Err(NotAMatrix); }
    var half := f.dtype == Float16;
    var rest, out := f.data, [];
    var cols := f.shape[1];
    var width := cols * Size(half);
    AfterNone(RowsFrom(rest, 0, f.shape[0], cols, half));
    for i := 0 to f.shape[0]
      invariant After(out, RowsFrom(rest, i, f.shape[0], cols, half)) == MatrixOf(f)
    {
      if |rest| < width { return Err(ShortRow(i)); }
      var row := ReadRow(rest[..width], cols, half);
      AfterBoth(out, [row], RowsFrom(rest[width..], i + 1, f.shape[0], cols, half));
      out, rest := out + [row], rest[width..];
    }
    assert out + [] == out;
    r := Ok(out);
  }

  lemma AfterNone(r: Result<seq<seq<Bits32>>>)
    ensures After([], r) == r
  {
    if r.Ok? { assert [] + r.value == r.value; }
  }

  lemma AfterBoth(a: seq<seq<Bits32>>, b: seq<seq<Bits32>>, r: Result<seq<seq<Bits32>>>)
    ensures After(a, After(b, r)) == After(a + b, r)
  {
    if r.Ok? { assert a + (b + r.value) == a + b + r.value; }
  }

  method ReadRow(buf: seq<Byte>, cols: nat, half: bool) returns (row: seq<Bits32>)
    requires |buf| == cols * Size(half)
    ensures row == RowOf(buf, half)
  {
    hide Widened, RowOf;
    row := [];
    for j := 0 to cols
      invariant row + RowOf(buf[j * Size(half)..], half) == RowOf(buf, half)
    {
      var at := j * Size(half);
      assert at + Size(half) <= |buf|;
      OneValue(buf, at, half);
      var v: Bits32;
      if half {
        v := HalfToFloat32(Word(buf[at], buf[at + 1]));
      } else {
        v := Word(buf[at], buf[at + 1]) + 0x1_0000 * Word(buf[at + 2], buf[at + 3]);
      }
      assert v == Decode(buf[at..at + Size(half)], half);
      assert (j + 1) * Size(half) == at + Size(half);
      row := row + [v];
    }
    assert buf[cols * Size(half)..] == [];
    NoValues(half);
    assert row + [] == row;
  }

  lemma NoValues(half: bool)
    ensures RowOf([], half) == []
  {}

  lemma OneValue(buf: seq<Byte>, at: nat, half: bool)
    requires at + Size(half) <= |buf|
    ensures RowOf(buf[at..], half) == [Decode(buf[at..at + Size(half)], half)] + RowOf(buf[at + Size(half)..], half)
  {
    assert buf[at..][..Size(half)] == buf[at..at + Size(half)];
    assert buf[at..][Size(half)..] == buf[at + Size(half)..];
  }

  // ---------------------------------------------------------------------------- byte by byte

  /** The bytes from `at` are the two of the binary16 nearest to v, or the four of v, the lowest first. */
  ghost predicate Stored(data: seq<Byte>, at: nat, v: Bits32, half: bool) {
    if half then at + 2 <= |data| && (data[at] as nat) + 0x100 * (data[at + 1] as nat) == Float32ToHalf(v)
    else FourBytes(data, at, v)
  }

  /** v is what the two bytes from `at` widen to, or what the four make, the lowest first. */
  ghost predicate Meant(data: seq<Byte>, at: nat, v: Bits32, half: bool) {
    if half then at + 2 <= |data| && Widened((data[at] as nat) + 0x100 * (data[at + 1] as nat)) == v
    else FourBytes(data, at, v)
  }

  ghost predicate FourBytes(data: seq<Byte>, at: nat, v: Bits32) {
    && at + 4 <= |data|
    && v == (data[at] as nat) + 0x100 * (data[at + 1] as nat) + 0x1_0000 * (data[at + 2] as nat)
            + 0x100_0000 * (data[at + 3] as nat)
  }

  /** Where value j of row i starts, in rows of cols values of 2 or 4 bytes. */
  function Start(i: nat, j: nat, cols: nat, half: bool): nat { (i * cols + j) * if half then 2 else 4 }

  /** Each row's values follow each other, row after row, and nothing else. */
  ghost predicate AllStored(rows: seq<seq<Bits32>>, cols: nat, half: bool, data: seq<Byte>) {
    && |data| == Start(|rows|, 0, cols, half)
    && forall i, j :: 0 <= i < |rows| && 0 <= j < |rows[i]| ==> Stored(data, Start(i, j, cols, half), rows[i][j], half)
  }

  ghost predicate AllMeant(data: seq<Byte>, n: nat, cols: nat, half: bool, rows: seq<seq<Bits32>>) {
    && |rows| == n && (forall i :: 0 <= i < n ==> |rows[i]| == cols)
    && forall i, j :: 0 <= i < n && 0 <= j < |rows[i]| ==> Meant(data, Start(i, j, cols, half), rows[i][j], half)
  }

  lemma EncodeStored(v: Bits32, half: bool)
    ensures Stored(Encode(v, half), 0, v, half)
  {
    hide Float32ToHalf;
    assert v / 0x1_0000 / 0x100 == v / 0x100_0000;
  }

  lemma DecodeMeant(b: seq<Byte>, half: bool)
    requires |b| == Size(half)
    ensures Meant(b, 0, Decode(b, half), half)
  {
    hide Widened;
  }

  /** What is stored stays stored when bytes come before it and after it. */
  lemma StoredWithin(a: seq<Byte>, b: seq<Byte>, c: seq<Byte>, at: nat, v: Bits32, half: bool)
    ensures Stored(b, at, v, half) ==> Stored(a + b + c, |a| + at, v, half)
    ensures Meant(b, at, v, half) ==> Meant(a + b + c, |a| + at, v, half)
  {
    hide Float32ToHalf, Widened;
  }

  lemma {:induction false} RowStored(row: seq<Bits32>, half: bool, j: nat)
    requires j < |row|
    ensures Stored(RowBytes(row, half), j * Size(half), row[j], half)
  {
    hide Encode, Stored, Float32ToHalf;
    var e, rest := Encode(row[0], half), RowBytes(row[1..], half);
    assert RowBytes(row, half) == e + rest;
    if j == 0 {
      EncodeStored(row[0], half);
      StoredWithin([], e, rest, 0, row[0], half);
      assert [] + e + rest == e + rest;
    } else {
      RowStored(row[1..], half, j - 1);
      StoredWithin(e, rest, [], (j - 1) * Size(half), row[j], half);
      assert e + rest + [] == e + rest;
    }
  }

  lemma StartNext(i: nat, j: nat, cols: nat, half: bool)
    ensures Start(i + 1, j, cols, half) == cols * Size(half) + Start(i, j, cols, half)
    ensures Start(0, j, cols, half) == j * Size(half)
  {
    assert (i + 1) * cols + j == cols + (i * cols + j);
  }

  lemma {:induction false} RowsStored(rows: seq<seq<Bits32>>, cols: nat, half: bool, i: nat, j: nat)
    requires (forall k :: 0 <= k < |rows| ==> |rows[k]| == cols) && i < |rows| && j < |rows[i]|
    ensures Stored(AllBytes(rows, half), Start(i, j, cols, half), rows[i][j], half)
  {
    hide RowBytes, Stored, Start;
    var b, rest := RowBytes(rows[0], half), AllBytes(rows[1..], half);
    if i == 0 {
      StartNext(0, j, cols, half);
      RowStored(rows[0], half, j);
      StoredWithin([], b, rest, j * Size(half), rows[0][j], half);
      assert [] + b + rest == b + rest;
    } else {
      StartNext(i - 1, j, cols, half);
      RowsStored(rows[1..], cols, half, i - 1, j);
      StoredWithin(b, rest, [], Start(i - 1, j, cols, half), rows[i][j], half);
      assert b + rest + [] == b + rest;
    }
  }

  lemma {:induction false} AllBytesLength(rows: seq<seq<Bits32>>, cols: nat, half: bool)
    requires forall k :: 0 <= k < |rows| ==> |rows[k]| == cols
    ensures |AllBytes(rows, half)| == Start(|rows|, 0, cols, half)
  {
    hide RowBytes, Start;
    StartNext(0, 0, cols, half);
    if rows != [] {
      AllBytesLength(rows[1..], cols, half);
      StartNext(|rows| - 1, 0, cols, half);
    }
  }

  lemma WrittenStored(rows: seq<seq<Bits32>>, cols: nat, half: bool)
    requires forall k :: 0 <= k < |rows| ==> |rows[k]| == cols
    ensures AllStored(rows, cols, half, AllBytes(rows, half))
  {
    AllBytesLength(rows, cols, half);
    hide AllBytes, Stored, Start;
    forall i, j | 0 <= i < |rows| && 0 <= j < |rows[i]|
      ensures Stored(AllBytes(rows, half), Start(i, j, cols, half), rows[i][j], half)
    {
      RowsStored(rows, cols, half, i, j);
    }
  }

  lemma {:induction false} RowMeant(b: seq<Byte>, half: bool, n: nat)
    requires |b| == n * Size(half)
    ensures |RowOf(b, half)| == n
    ensures forall j :: 0 <= j < n ==> Meant(b, j * Size(half), RowOf(b, half)[j], half)
    decreases n
  {
    if n > 0 {
      var size := Size(half);
      assert |b| >= size;
      var e, rest := b[..size], b[size..];
      assert b == e + rest;
      RowMeant(rest, half, n - 1);
      DecodeMeant(e, half);
      assert RowOf(b, half) == [Decode(e, half)] + RowOf(rest, half);
      hide RowOf, Decode, Meant, Widened;
      forall j | 0 <= j < n
        ensures Meant(b, j * size, RowOf(b, half)[j], half)
      {
        if j == 0 {
          StoredWithin([], e, rest, 0, Decode(e, half), half);
          assert [] + e + rest == b;
        } else {
          StoredWithin(e, rest, [], (j - 1) * size, RowOf(rest, half)[j - 1], half);
          assert e + rest + [] == b;
          assert size + (j - 1) * size == j * size;
        }
      }
    }
  }

  lemma {:induction false} RowsMeant(data: seq<Byte>, i: nat, n: nat, cols: nat, half: bool)
    requires i <= n
    ensures RowsFrom(data, i, n, cols, half).Ok? ==>
      AllMeant(data, n - i, cols, half, RowsFrom(data, i, n, cols, half).value)
    ensures RowsFrom(data, i, n, cols, half).Ok? <==> |data| >= Start(n - i, 0, cols, half)
    ensures RowsFrom(data, i, n, cols, half).Err? ==>
      exists k: nat :: RowsFrom(data, i, n, cols, half) == Err(ShortRow(i + k)) &&
        Start(k, 0, cols, half) <= |data| < Start(k + 1, 0, cols, half)
    decreases n - i
  {
    hide RowOf, Meant, Start;
    StartNext(0, 0, cols, half);
    if i < n {
      var width := cols * Size(half);
      StartNext(n - i - 1, 0, cols, half);
      if |data| < width {
        ShortStart(n - i, cols, half);
        assert RowsFrom(data, i, n, cols, half) == Err(ShortRow(i + 0));
      } else {
        var b, rest := data[..width], data[width..];
        assert data == b + rest;
        RowsMeant(rest, i + 1, n, cols, half);
        RowMeant(b, half, cols);
        var r := RowsFrom(rest, i + 1, n, cols, half);
        if r.Ok? {
          MoreMeant(b, rest, n - i - 1, cols, half, r.value);
        } else {
          var k: nat :| r == Err(ShortRow(i + 1 + k)) &&
            Start(k, 0, cols, half) <= |rest| < Start(k + 1, 0, cols, half);
          StartNext(k, 0, cols, half);
          StartNext(k + 1, 0, cols, half);
          var l := k + 1;
          assert RowsFrom(data, i, n, cols, half) == Err(ShortRow(i + l));
        }
      }
    }
  }

  /** A file of another shape or type is refused; otherwise its rows are read, each value from its place, unless
    * the file is too short, and then the error names the first row it is too short for. */
  ghost predicate ReadRight(f: Npy, r: Result<seq<seq<Bits32>>>) {
    if |f.shape| != 2 || f.dtype == Int64 then r == Err(NotAMatrix)
    else
      var half := f.dtype == Float16;
      match r {
        case Ok(rows) => AllMeant(f.data, f.shape[0], f.shape[1], half, rows)
        case Err(e) => e.ShortRow? && e.row < f.shape[0] && Start(e.row, 0, f.shape[1], half) <= |f.data| &&
          |f.data| < Start(e.row + 1, 0, f.shape[1], half)
      }
  }

  lemma ReadMeant(f: Npy)
    ensures ReadRight(f, MatrixOf(f))
  {
    hide RowsFrom, AllMeant;
    if |f.shape| == 2 && f.dtype != Int64 {
      var half := f.dtype == Float16;
      RowsMeant(f.data, 0, f.shape[0], f.shape[1], half);
      var r := RowsFrom(f.data, 0, f.shape[0], f.shape[1], half);
      if r.Err? {
        var k: nat :| r == Err(ShortRow(0 + k)) &&
          Start(k, 0, f.shape[1], half) <= |f.data| < Start(k + 1, 0, f.shape[1], half);
        if k >= f.shape[0] { StartGrows(f.shape[0], k, f.shape[1], half); }
      }
    }
  }

  lemma StartGrows(i: nat, k: nat, cols: nat, half: bool)
    requires i <= k
    ensures Start(i, 0, cols, half) <= Start(k, 0, cols, half)
  {
    assert i * cols <= k * cols;
  }

  lemma ShortStart(n: nat, cols: nat, half: bool)
    requires n > 0
    ensures Start(n, 0, cols, half) >= cols * Size(half)
  {
    StartNext(n - 1, 0, cols, half);
  }

  lemma MoreMeant(b: seq<Byte>, rest: seq<Byte>, n: nat, cols: nat, half: bool, rows: seq<seq<Bits32>>)
    requires |b| == cols * Size(half) && AllMeant(rest, n, cols, half, rows) && |RowOf(b, half)| == cols
    requires forall j :: 0 <= j < cols ==> Meant(b, j * Size(half), RowOf(b, half)[j], half)
    ensures AllMeant(b + rest, n + 1, cols, half, [RowOf(b, half)] + rows)
  {
    hide RowOf, Meant, Start;
    var data, all := b + rest, [RowOf(b, half)] + rows;
    forall i, j | 0 <= i < n + 1 && 0 <= j < |all[i]|
      ensures Meant(data, Start(i, j, cols, half), all[i][j], half)
    {
      if i == 0 {
        StartNext(0, j, cols, half);
        StoredWithin([], b, rest, j * Size(half), all[0][j], half);
        assert [] + b + rest == data;
      } else {
        StartNext(i - 1, j, cols, half);
        StoredWithin(b, rest, [], Start(i - 1, j, cols, half), rows[i - 1][j], half);
        assert b + rest + [] == data;
      }
    }
  }

  // --------------------------------------------------------------------------- there and back

  /** What a value becomes once stored. */
  function Kept(v: Bits32, half: bool): Bits32 { if half then Widened(Float32ToHalf(v)) else v }

  function KeptRow(row: seq<Bits32>, half: bool): (r: seq<Bits32>)
    ensures |r| == |row| && forall j :: 0 <= j < |row| ==> r[j] == Kept(row[j], half)
  {
    seq(|row|, j requires 0 <= j < |row| => Kept(row[j], half))
  }

  function KeptRows(rows: seq<seq<Bits32>>, half: bool): (r: seq<seq<Bits32>>)
    ensures |r| == |rows| && forall i :: 0 <= i < |rows| ==> r[i] == KeptRow(rows[i], half)
  {
    seq(|rows|, i requires 0 <= i < |rows| => KeptRow(rows[i], half))
  }

  lemma EntryBack(v: Bits32, half: bool)
    ensures Decode(Encode(v, half), half) == Kept(v, half)
  {
    hide Float32ToHalf, Widened;
    if half { TwoBytes(Float32ToHalf(v)); } else { FourLow(v); }
  }

  lemma TwoBytes(h: Bits16)
    ensures Word(Low(h), Low(h / 0x100)) == h
  {}

  lemma FourLow(v: Bits32)
    ensures Word(Low(v), Low(v / 0x100)) + 0x1_0000 * Word(Low(v / 0x1_0000), Low(v / 0x100_0000)) == v
  {
    var low: nat, high: nat := v % 0x1_0000, v / 0x1_0000;
    TwoBytes(low);
    TwoBytes(high);
    LowBytes(v);
    hide Low, Word;
  }

  lemma LowBytes(v: Bits32)
    ensures Low(v) == Low(v % 0x1_0000) && Low(v / 0x100) == Low(v % 0x1_0000 / 0x100)
    ensures Low(v / 0x100_0000) == Low(v / 0x1_0000 / 0x100)
  {}

  lemma {:induction false} RowBack(row: seq<Bits32>, half: bool)
    ensures RowOf(RowBytes(row, half), half) == KeptRow(row, half)
  {
    hide Decode, Encode, Kept;
    if row != [] {
      EntryBack(row[0], half);
      RowBack(row[1..], half);
      var e, rest := Encode(row[0], half), RowBytes(row[1..], half);
      assert (e + rest)[..Size(half)] == e && (e + rest)[Size(half)..] == rest;
    }
  }

  lemma {:induction false} RowsBack(rows: seq<seq<Bits32>>, i: nat, cols: nat, half: bool)
    requires forall k :: 0 <= k < |rows| ==> |rows[k]| == cols
    ensures RowsFrom(AllBytes(rows, half), i, i + |rows|, cols, half)
            == Ok(KeptRows(rows, half))
    decreases rows
  {
    hide RowOf, RowBytes, KeptRow;
    if rows != [] {
      RowBack(rows[0], half);
      RowsBack(rows[1..], i + 1, cols, half);
      var b, rest := RowBytes(rows[0], half), AllBytes(rows[1..], half);
      assert (b + rest)[..|b|] == b && (b + rest)[|b|..] == rest;
      assert [KeptRow(rows[0], half)] + KeptRows(rows[1..], half) == KeptRows(rows, half);
    }
  }

  /** Reading a written matrix gives the same shape back, and in every place the nearest value of the
    * file's type: the value itself, or the binary16 nearest to it with ties to even. */
  lemma MatrixBack(rows: seq<seq<Bits32>>, dim: nat, half: bool)
    requires forall k :: 0 <= k < |rows| ==> |rows[k]| == dim
    ensures var r := MatrixOf(Written(rows, dim, half)); r.Ok? && RowsNear(rows, r.value, half)
  {
    RowsBack(rows, 0, dim, half);
    assert MatrixOf(Written(rows, dim, half)) == Ok(KeptRows(rows, half)) by {
      hide RowsFrom, AllBytes, KeptRow;
    }
    hide MatrixOf, Written, Near, Kept;
    forall i | 0 <= i < |rows|
      ensures RowNear(rows[i], KeptRow(rows[i], half), half)
    {
      RowKeptNear(rows[i], half);
    }
  }

  lemma RowKeptNear(row: seq<Bits32>, half: bool)
    ensures RowNear(row, KeptRow(row, half), half)
  {
    hide Kept, Near;
    forall j | 0 <= j < |row|
      ensures Near(row[j], Kept(row[j], half), half)
    {
      KeptNear(row[j], half);
    }
  }

  ghost predicate RowsNear(rows: seq<seq<Bits32>>, got: seq<seq<Bits32>>, half: bool) {
    |got| == |rows| && forall i :: 0 <= i < |rows| ==> RowNear(rows[i], got[i], half)
  }

  ghost predicate RowNear(row: seq<Bits32>, got: seq<Bits32>, half: bool) {
    |got| == |row| && forall j :: 0 <= j < |row| ==> Near(row[j], got[j], half)
  }

  /** got is v as the file's type has it. */
  ghost predicate Near(v: Bits32, got: Bits32, half: bool) {
    if !half then got == v
    else
      && got / 0x8000_0000 == v / 0x8000_0000
      && (Nan32(got) <==> Nan32(v))
      && (Finite32(got) ==> Finite32(v) && Nearest(v, got))
      && (!Finite32(got) && Finite32(v) ==> FloatUnits(v) >= 65520 * Pow2(149))
  }

  /** got is a binary16 value, and none is nearer to v. */
  ghost predicate Nearest(v: Bits32, got: Bits32) {
    exists m: nat :: m < 0x7c00 && FloatUnits(got) == HalfUnits(m) && NearestEven(FloatUnits(v), m)
  }

  lemma KeptNear(v: Bits32, half: bool)
    ensures Near(v, Kept(v, half), half)
  {
    hide Float32ToHalf, Widened, FloatUnits, HalfUnits, NearestEven, Pow2;
    if half {
      var h := Float32ToHalf(v);
      StoresNearest(v);
      WidensExactly(h);
      assert h / 0x400 % 0x20 == 0x1f <==> h % 0x8000 >= 0x7c00;
      if Finite32(v) {
        OverflowExactly(v);
        FiniteStays(v);
      }
    }
  }

  /** Writing the rows read back writes the same bytes. */
  lemma {:induction false} WrittenAgain(rows: seq<seq<Bits32>>, half: bool)
    ensures AllBytes(KeptRows(rows, half), half) == AllBytes(rows, half)
  {
    hide RowBytes, KeptRow;
    if rows != [] {
      RowAgain(rows[0], half);
      WrittenAgain(rows[1..], half);
      assert KeptRows(rows, half)[1..] == KeptRows(rows[1..], half);
    }
  }

  lemma {:induction false} RowAgain(row: seq<Bits32>, half: bool)
    ensures RowBytes(KeptRow(row, half), half) == RowBytes(row, half)
  {
    hide Float32ToHalf, Widened;
    if row != [] {
      StoredTwice(row[0]);
      RowAgain(row[1..], half);
      assert KeptRow(row, half)[1..] == KeptRow(row[1..], half);
    }
  }
}
