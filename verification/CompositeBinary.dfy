/**
 The binary form of a composite value: a field count, then for each field its type OID, a length and
 that many bytes.  The length is written as -1 first and patched once the value is behind it.
 */
module CompositeBinary {
  import opened Wrappers

  const U32: int := 0x1_0000_0000
  const I32_LIMIT: int := 0x8000_0000

  type Byte = b: int | 0 <= b < 256
  type Word = w: int | 0 <= w < U32

  /** `put_u32`: four bytes, most significant first. */
  function Be32(w: Word): (r: seq<Byte>)
    ensures |r| == 4
  {
    [w / 256 / 256 / 256, w / 256 / 256 % 256, w / 256 % 256, w % 256]
  }

  function Read32(b: seq<Byte>): Word
    requires |b| >= 4
  {
    ((b[0] as int * 256 + b[1]) * 256 + b[2]) * 256 + b[3]
  }

  lemma Read32Be32(w: Word, rest: seq<Byte>)
    ensures Read32(Be32(w) + rest) == w
  {
  }

  /** `n as i32`, written by `put_i32`: the low 32 bits. */
  function AsWord(n: int): Word {
    n % U32
  }

  const NULL_LENGTH: Word := 0xFFFF_FFFF  // -1 as i32

  datatype Datum = Null | Bytes(bytes: seq<Byte>)
  datatype Field = Field(oid: Word, datum: Datum)

  function FieldBytes(f: Field): seq<Byte> {
    Be32(f.oid) +
    match f.datum
    case Null => Be32(NULL_LENGTH)
    case Bytes(b) => Be32(AsWord(|b|)) + b
  }

  function FieldsBytes(fs: seq<Field>): seq<Byte> {
    if fs == [] then [] else FieldBytes(fs[0]) + FieldsBytes(fs[1..])
  }

  /** The count is written with the first field, so no field means no bytes at all. */
  function Encoded(fs: seq<Field>): seq<Byte> {
    if fs == [] then [] else Be32(AsWord(|fs|)) + FieldsBytes(fs)
  }

  // ---------- The bytes on the wire ----------

  /** The number the four bytes from `i` on stand for, most significant first. */
  function Big(b: seq<Byte>, i: nat): int
    requires i + 4 <= |b|
  {
    b[i] as int * 0x100_0000 + b[i + 1] as int * 0x1_0000 + b[i + 2] as int * 0x100 + b[i + 3]
  }

  lemma BigBe32(before: seq<Byte>, w: Word, after: seq<Byte>)
    ensures Big(before + Be32(w) + after, |before|) == w
  {
  }

  /** A field is its OID, then for NULL four bytes 255 and nothing else, otherwise the length and the bytes. */
  lemma FieldWire(f: Field)
    ensures var b := FieldBytes(f);
            |b| >= 8 && Big(b, 0) == f.oid &&
            match f.datum
            case Null => b[4..] == [255, 255, 255, 255]
            case Bytes(bytes) => b[8..] == bytes && Big(b, 4) == |bytes| % 0x1_0000_0000
  {
    var b := FieldBytes(f);
    BigBe32([], f.oid, b[4..]);
    assert [] + Be32(f.oid) + b[4..] == b;
    if f.datum.Bytes? {
      BigBe32(Be32(f.oid), AsWord(|f.datum.bytes|), f.datum.bytes);
      assert b[8..] == f.datum.bytes;
    }
    hide Big;
  }

  lemma EncodedIs(fs: seq<Field>)
    requires fs != []
    ensures Encoded(fs) == Be32(AsWord(|fs|)) + FieldsBytes(fs) && AsWord(|fs|) == |fs| % 0x1_0000_0000
  {
    hide Be32, FieldsBytes;
  }

  /** A record is its number of fields, then each field in order. */
  lemma RecordWire(fs: seq<Field>)
    requires fs != []
    ensures |Encoded(fs)| >= 4 && Big(Encoded(fs), 0) == |fs| % 0x1_0000_0000 && Encoded(fs)[4..] == FieldsBytes(fs)
  {
    hide *;
    EncodedIs(fs);
    BigBe32([], AsWord(|fs|), FieldsBytes(fs));
    assert [] + Be32(AsWord(|fs|)) + FieldsBytes(fs) == Encoded(fs);
  }

  // ---------- The encoder ----------

  class StructEncoder {
    var numCols: nat
    var currCol: nat
    var rowBuffer: seq<Byte>

    constructor (n: nat)
      ensures numCols == n && currCol == 0 && rowBuffer == []
    {
      numCols, currCol, rowBuffer := n, 0, [];
    }

    /** Appends the field; the bytes already there stay as they are. */
    method EncodeField(f: Field)
      modifies this`currCol, this`rowBuffer
      ensures currCol == old(currCol) + 1
      ensures rowBuffer == old(rowBuffer) + (if old(currCol) == 0 then Be32(AsWord(numCols)) else []) + FieldBytes(f)
    {
      if currCol == 0 {
        rowBuffer := rowBuffer + Be32(AsWord(numCols));
      }
      rowBuffer := rowBuffer + Be32(f.oid);
      ghost var before := rowBuffer;
      var prevIndex := |rowBuffer|;
      rowBuffer := rowBuffer + Be32(NULL_LENGTH);
      match f.datum {
        case Null =>
        case Bytes(b) =>
          rowBuffer := rowBuffer + b;
          var valueLength := |rowBuffer| - prevIndex - 4;
          rowBuffer := rowBuffer[..prevIndex] + Be32(AsWord(valueLength)) + rowBuffer[prevIndex + 4..];
          assert rowBuffer == before + Be32(AsWord(|b|)) + b;
      }
      currCol := currCol + 1;
    }
  }

  /** One composite value: an encoder for its fields, fed each in turn. */
  method EncodeStruct(fs: seq<Field>) returns (buffer: seq<Byte>)
    ensures buffer == Encoded(fs)
  {
    hide Be32, FieldBytes;
    var encoder := new StructEncoder(|fs|);
    for i := 0 to |fs|
      invariant encoder.numCols == |fs| && encoder.currCol == i
      invariant encoder.rowBuffer == if i == 0 then [] else Be32(AsWord(|fs|)) + FieldsBytes(fs[..i])
    {
      FieldsBytesAppend(fs[..i], fs[i]);
      assert fs[..i + 1] == fs[..i] + [fs[i]];
      encoder.EncodeField(fs[i]);
    }
    assert fs[..|fs|] == fs;
    buffer := encoder.rowBuffer;
  }

  lemma {:induction false} FieldsBytesAppend(fs: seq<Field>, f: Field)
    ensures FieldsBytes(fs + [f]) == FieldsBytes(fs) + FieldBytes(f)
  {
    if fs == [] {
      assert fs + [f] == [f] && [f][1..] == [];
    } else {
      assert (fs + [f])[1..] == fs[1..] + [f];
      FieldsBytesAppend(fs[1..], f);
    }
  }

  // ---------- The decoder a client runs ----------

  /** A length of -1 is NULL; any other negative length, or too few bytes, is an error. */
  function ReadField(b: seq<Byte>): Option<(Field, seq<Byte>)> {
    if |b| < 8 then None
    else
      var oid, length, rest := Read32(b), Read32(b[4..]), b[8..];
      if length == NULL_LENGTH then Some((Field(oid, Null), rest))
      else if length >= I32_LIMIT || length > |rest| then None
      else Some((Field(oid, Bytes(rest[..length])), rest[length..]))
  }

  function ReadFields(n: nat, b: seq<Byte>): (r: Option<seq<Field>>)
    ensures r.Some? ==> |r.value| == n
  {
    if n == 0 then if b == [] then Some([]) else None
    else
      match ReadField(b)
      case None => None
      case Some((f, rest)) =>
        match ReadFields(n - 1, rest)
        case None => None
        case Some(fs) => Some([f] + fs)
  }

  function Decode(b: seq<Byte>): Option<seq<Field>> {
    if |b| < 4 || Read32(b) >= I32_LIMIT then None else ReadFields(Read32(b), b[4..])
  }

  // ---------- Round trip, exactly ----------

  predicate Fits(f: Field) {
    f.datum.Bytes? ==> |f.datum.bytes| < I32_LIMIT
  }

  lemma ReadFieldBack(f: Field, rest: seq<Byte>)
    requires Fits(f)
    ensures ReadField(FieldBytes(f) + rest) == Some((f, rest))
  {
    var b := FieldBytes(f) + rest;
    Read32Be32(f.oid, b[4..]);
    assert b == Be32(f.oid) + b[4..];
    match f.datum {
      case Null =>
        Read32Be32(NULL_LENGTH, rest);
        assert b[4..] == Be32(NULL_LENGTH) + rest;
        assert b[8..] == rest;
      case Bytes(v) =>
        Read32Be32(AsWord(|v|), v + rest);
        assert b[4..] == Be32(AsWord(|v|)) + (v + rest);
        assert b[8..] == v + rest;
    }
  }

  /** A value of 2^31 bytes or more is never read back: its length was cut to 32 bits. */
  lemma ReadFieldCut(f: Field, rest: seq<Byte>)
    requires !Fits(f)
    ensures var r := ReadField(FieldBytes(f) + rest); r.Some? ==> r.value.0 != f
  {
    var b, v := FieldBytes(f) + rest, f.datum.bytes;
    Read32Be32(AsWord(|v|), v + rest);
    assert b[4..] == Be32(AsWord(|v|)) + (v + rest);
  }

  lemma {:induction false} ReadFieldsExactly(fs: seq<Field>)
    ensures ReadFields(|fs|, FieldsBytes(fs)) == Some(fs) <==> forall f :: f in fs ==> Fits(f)
  {
    hide ReadField, FieldBytes, Fits;
    if fs != [] {
      var f, more := fs[0], fs[1..];
      ReadFieldsExactly(more);
      assert forall g :: g in fs <==> g == f || g in more;
      assert fs == [f] + more;
      if Fits(f) {
        ReadFieldBack(f, FieldsBytes(more));
        var rest := ReadFields(|more|, FieldsBytes(more));
        if rest.Some? { assert ([f] + rest.value)[1..] == rest.value && fs[1..] == more; }
      } else {
        ReadFieldCut(f, FieldsBytes(more));
        var r := ReadFields(|fs|, FieldsBytes(fs));
        if r.Some? { assert r.value[0] != fs[0]; }
      }
    }
  }

  lemma FitsIs(fs: seq<Field>)
    ensures (forall f :: f in fs ==> Fits(f)) <==>
            forall f :: f in fs && f.datum.Bytes? ==> |f.datum.bytes| < 0x8000_0000
  {
  }

  lemma DecodeStarts(fs: seq<Field>)
    requires fs != []
    ensures Decode(Encoded(fs)) ==
            if AsWord(|fs|) >= 0x8000_0000 then None else ReadFields(AsWord(|fs|), FieldsBytes(fs))
  {
    Read32Be32(AsWord(|fs|), FieldsBytes(fs));
    assert Encoded(fs)[4..] == FieldsBytes(fs);
    hide Read32, Be32, ReadFields, FieldsBytes;
  }

  /** Decoding gives back the fields for exactly the records of at least one and fewer than 2^31 fields,
      each NULL or shorter than 2^31 bytes. */
  lemma RoundTripExactly(fs: seq<Field>)
    ensures Decode(Encoded(fs)) == Some(fs) <==>
            1 <= |fs| < 0x8000_0000 && forall f :: f in fs && f.datum.Bytes? ==> |f.datum.bytes| < 0x8000_0000
  {
    hide *;
    FitsIs(fs);
    if fs == [] {
      NothingDecodes();
    } else {
      DecodeStarts(fs);
      ReadCount(AsWord(|fs|), FieldsBytes(fs));
      ReadFieldsExactly(fs);
      Remainder(|fs|);
    }
  }

  lemma NothingDecodes()
    ensures Decode(Encoded([])) == None
  {
  }

  lemma ReadCount(n: nat, b: seq<Byte>)
    ensures ReadFields(n, b).Some? ==> |ReadFields(n, b).value| == n
  {
  }

  lemma Remainder(n: nat)
    ensures 0 <= AsWord(n) <= n && (AsWord(n) == n && AsWord(n) < 0x8000_0000 <==> n < 0x8000_0000)
  {
  }

  // ---------- Composites inside composites ----------

  /** A typed value; `oid` is the OID of its type. */
  datatype Tree = Missing(oid: Word) | Plain(oid: Word, bytes: seq<Byte>) | Composite(oid: Word, columns: seq<Tree>)

  /** What a client knows from the type: which columns are composites. */
  datatype Shape = Atom(oid: Word) | Record(oid: Word, columns: seq<Shape>)

  function DatumOf(t: Tree): Datum
    decreases t, 1
  {
    match t
    case Missing(_) => Null
    case Plain(_, bytes) => Bytes(bytes)
    case Composite(_, columns) => Bytes(Encoded(FieldsOf(columns)))
  }

  function FieldsOf(ts: seq<Tree>): (r: seq<Field>)
    ensures |r| == |ts|
    decreases ts, 0
  {
    if ts == [] then [] else [Field(ts[0].oid, DatumOf(ts[0]))] + FieldsOf(ts[1..])
  }

  /** Struct columns recurse through an encoder of their own; the result becomes one field. */
  method EncodeTree(t: Tree) returns (d: Datum)
    ensures d == DatumOf(t)
    decreases t
  {
    match t {
      case Missing(_) => d := Null;
      case Plain(_, bytes) => d := Bytes(bytes);
      case Composite(_, columns) =>
        var fields: seq<Field> := [];
        assert columns[0..] == columns;
        for i := 0 to |columns|
          invariant fields + FieldsOf(columns[i..]) == FieldsOf(columns)
        {
          var value := EncodeTree(columns[i]);
          assert columns[i..][1..] == columns[i + 1..];
          fields := fields + [Field(columns[i].oid, value)];
        }
        assert fields == FieldsOf(columns);
        var buffer := EncodeStruct(fields);
        d := Bytes(buffer);
    }
  }

  /** The value has the type's OIDs, every composite in it has a column, and every count and column length fits. */
  predicate Readable(t: Tree, shape: Shape) {
    t.oid == shape.oid &&
    match t
    case Missing(_) => true
    case Plain(_, _) => shape.Atom?
    case Composite(_, columns) =>
      shape.Record? && 1 <= |columns| == |shape.columns| && |columns| < I32_LIMIT &&
      forall i :: 0 <= i < |columns| ==>
          Fits(Field(columns[i].oid, DatumOf(columns[i]))) && Readable(columns[i], shape.columns[i])
  }

  function DecodeDatum(d: Datum, shape: Shape): Option<Tree>
    decreases shape, 1
  {
    match d
    case Null => Some(Missing(shape.oid))
    case Bytes(bytes) =>
      if shape.Atom? then Some(Plain(shape.oid, bytes))
      else
        match Decode(bytes)
        case None => None
        case Some(fs) =>
          if |fs| != |shape.columns| then None
          else (match DecodeColumns(fs,
            shape.columns) case None => None case Some(ts) => Some(Composite(shape.oid, ts)))
  }

  /** Each column must carry the OID its type announces. */
  function DecodeColumns(fs: seq<Field>, shapes: seq<Shape>): Option<seq<Tree>>
    requires |fs| == |shapes|
    decreases shapes, 0
  {
    if fs == [] then Some([])
    else if fs[0].oid != shapes[0].oid then None
    else
      match (DecodeDatum(fs[0].datum, shapes[0]), DecodeColumns(fs[1..], shapes[1..]))
      case (Some(t), Some(ts)) => Some([t] + ts)
      case _ => None
  }

  lemma FieldsOfAt(ts: seq<Tree>, i: nat)
    requires i < |ts|
    ensures FieldsOf(ts)[i] == Field(ts[i].oid, DatumOf(ts[i]))
  {
    if i > 0 { FieldsOfAt(ts[1..], i - 1); }
  }

  // ---------- What reading can tell of the lengths ----------

  function DatumSize(d: Datum): nat {
    match d case Null => 0 case Bytes(b) => |b|
  }

  lemma ReadFieldSize(b: seq<Byte>)
    requires ReadField(b).Some?
    ensures var (f, rest) := ReadField(b).value; |FieldBytes(f)| + |rest| == |b| && Fits(f)
  {
  }

  lemma {:induction false} ReadFieldsSize(n: nat, b: seq<Byte>)
    requires ReadFields(n, b).Some?
    ensures |FieldsBytes(ReadFields(n, b).value)| == |b| && forall f :: f in ReadFields(n, b).value ==> Fits(f)
  {
    hide ReadField, FieldBytes, Fits;
    if n > 0 {
      ReadFieldSize(b);
      var (f, rest) := ReadField(b).value;
      ReadFieldsSize(n - 1, rest);
      var fs := ReadFields(n - 1, rest).value;
      assert ([f] + fs)[1..] == fs;
    }
  }

  /** A value read back is written in no more bytes than it was read from, and is NULL when that was. */
  lemma {:induction false} NoLonger(d: Datum, shape: Shape)
    requires DecodeDatum(d, shape).Some?
    ensures var t := DecodeDatum(d, shape).value;
            t.oid == shape.oid && (DatumOf(t).Null? <==> d.Null?) && DatumSize(DatumOf(t)) <= DatumSize(d)
    decreases shape, 1
  {
    if d.Bytes? && shape.Record? {
      var fs := Decode(d.bytes).value;
      var ts := DecodeColumns(fs, shape.columns).value;
      hide ReadFields, ReadField, FieldsBytes, FieldBytes, FieldsOf;
      ReadFieldsSize(Read32(d.bytes), d.bytes[4..]);
      NoLongerColumns(fs, shape.columns);
      EncodedSize(ts);
    }
  }

  lemma EncodedSize(ts: seq<Tree>)
    ensures |Encoded(FieldsOf(ts))| <= 4 + |FieldsBytes(FieldsOf(ts))|
  {
  }

  lemma FieldSize(f: Field, g: Field)
    requires (f.datum.Null? <==> g.datum.Null?) && DatumSize(f.datum) <= DatumSize(g.datum)
    ensures |FieldBytes(f)| <= |FieldBytes(g)|
  {
  }

  lemma {:induction false} NoLongerColumns(fs: seq<Field>, shapes: seq<Shape>)
    requires |fs| == |shapes| && DecodeColumns(fs, shapes).Some?
    ensures var ts := DecodeColumns(fs, shapes).value;
            |ts| == |fs| && |FieldsBytes(FieldsOf(ts))| <= |FieldsBytes(fs)| &&
            forall i :: 0 <= i < |ts| ==>
                DecodeDatum(fs[i].datum, shapes[i]) == Some(ts[i]) && ts[i].oid == fs[i].oid &&
                                          DatumSize(DatumOf(ts[i])) <= DatumSize(fs[i].datum)
    decreases shapes, 0
  {
    if fs != [] {
      hide FieldBytes, DecodeDatum, DatumOf;
      var t, rest := DecodeDatum(fs[0].datum, shapes[0]).value, DecodeColumns(fs[1..], shapes[1..]).value;
      NoLonger(fs[0].datum, shapes[0]);
      NoLongerColumns(fs[1..], shapes[1..]);
      var ts := [t] + rest;
      assert DecodeColumns(fs, shapes).value == ts && ts[1..] == rest && ts[0] == t;
      FieldSize(Field(t.oid, DatumOf(t)), fs[0]);
      assert FieldsOf(ts) == [Field(t.oid, DatumOf(t))] + FieldsOf(rest);
      assert FieldsOf(ts)[1..] == FieldsOf(rest);
      forall i | 0 <= i < |ts|
        ensures DecodeDatum(fs[i].datum, shapes[i]) == Some(ts[i]) && ts[i].oid == fs[i].oid &&
                DatumSize(DatumOf(ts[i])) <= DatumSize(fs[i].datum)
      {
        if i > 0 { assert ts[i] == rest[i - 1] && fs[i] == fs[1..][i - 1] && shapes[i] == shapes[1..][i - 1]; }
      }
    }
  }

  // ---------- Nested values ----------

  /** Composites nested to any depth are read back, column by column, to the tree that was written, exactly when they
      are of the type and everything in them fits. */
  lemma {:induction false} NestedRoundTripExactly(t: Tree, shape: Shape)
    ensures DecodeDatum(DatumOf(t), shape) == Some(t) <==> Readable(t, shape)
    decreases t, 1
  {
    if t.Composite? && shape.Record? {
      var fs := FieldsOf(t.columns);
      forall i | 0 <= i < |t.columns| ensures fs[i] == Field(t.columns[i].oid, DatumOf(t.columns[i])) {
        FieldsOfAt(t.columns, i);
      }
      if Readable(t, shape) {
        ReadBack(t, shape);
      }
      if DecodeDatum(DatumOf(t), shape) == Some(t) {
        WrittenFits(t, shape);
      }
    }
  }

  lemma {:induction false} ReadBack(t: Tree, shape: Shape)
    requires t.Composite? && Readable(t, shape)
    ensures DecodeDatum(DatumOf(t), shape) == Some(t)
    decreases t, 0
  {
    var fs := FieldsOf(t.columns);
    forall f | f in fs ensures Fits(f) {
      var i :| 0 <= i < |fs| && fs[i] == f;
      FieldsOfAt(t.columns, i);
    }
    RoundTripExactly(fs);
    hide Encoded, Decode, Fits;
    forall i | 0 <= i < |t.columns| ensures DecodeDatum(DatumOf(t.columns[i]), shape.columns[i]) == Some(t.columns[i]) {
      NestedRoundTripExactly(t.columns[i], shape.columns[i]);
    }
    ColumnsRoundTrip(t.columns, shape.columns);
  }

  lemma {:induction false} ColumnsRoundTrip(ts: seq<Tree>, shapes: seq<Shape>)
    requires |ts| == |shapes|
    requires forall i :: 0 <= i < |ts| ==>
               ts[i].oid == shapes[i].oid && DecodeDatum(DatumOf(ts[i]), shapes[i]) == Some(ts[i])
    ensures DecodeColumns(FieldsOf(ts), shapes) == Some(ts)
  {
    hide DatumOf, DecodeDatum;
    if ts != [] {
      ColumnsRoundTrip(ts[1..], shapes[1..]);
      assert FieldsOf(ts)[0] == Field(ts[0].oid, DatumOf(ts[0])) && FieldsOf(ts)[1..] == FieldsOf(ts[1..]);
      assert [ts[0]] + ts[1..] == ts;
    }
  }

  lemma {:induction false} WrittenFits(t: Tree, shape: Shape)
    requires t.Composite? && shape.Record? && DecodeDatum(DatumOf(t), shape) == Some(t)
    ensures Readable(t, shape)
    decreases t, 0
  {
    var fs := FieldsOf(t.columns);
    var read := Decode(Encoded(fs)).value;
    DecodedFits(Encoded(fs));
    NoLongerColumns(read, shape.columns);
    forall f | f in fs ensures Fits(f) {
      var i :| 0 <= i < |fs| && fs[i] == f;
      FieldsOfAt(t.columns, i);
      assert read[i] in read;
    }
    RoundTripExactly(fs);
    CountRead(fs);
    hide Encoded, Decode, DatumOf, DecodeDatum, DecodeColumns;
    assert read == fs;
    forall i | 0 <= i < |t.columns|
      ensures Fits(Field(t.columns[i].oid, DatumOf(t.columns[i]))) && Readable(t.columns[i], shape.columns[i])
    {
      FieldsOfAt(t.columns, i);
      assert fs[i] in fs;
      NestedRoundTripExactly(t.columns[i], shape.columns[i]);
    }
  }

  lemma DecodedFits(b: seq<Byte>)
    requires Decode(b).Some?
    ensures forall f :: f in Decode(b).value ==> Fits(f)
  {
    hide ReadFields;
    ReadFieldsSize(Read32(b), b[4..]);
  }

  lemma CountRead(fs: seq<Field>)
    requires Decode(Encoded(fs)).Some? && |Decode(Encoded(fs)).value| == |fs|
    ensures 1 <= |fs| < I32_LIMIT
  {
  }
}
