/**
 The binary partition table of components/arduino/tools/gen_esp32part.py: 32-byte
 records, an optional MD5 row, and 0xFF padding that ends the table.

 Names are byte strings (the UTF-8 step is left to Python). The MD5 digest is an
 arbitrary function from bytes to 16 bytes.
 */
module PartitionCodec {
  import opened Wrappers

  type byte = x: int | 0 <= x < 256

  type Bytes = seq<byte>

  type Digest16 = s: Bytes | |s| == 16 witness [0, 0, 0, 0, 0, 0, 0, 0, 0, 0, 0, 0, 0, 0, 0, 0]

  type DigestFunction = Bytes -> Digest16

  const RECORD := 32
  const MAX_LENGTH := 0xC00
  const NAME_WIDTH := 16

  datatype Partition = Partition(
    name: Bytes, kind: int, subtype: int, offset: int, size: int, encrypted: bool, readonly: bool)

  datatype CodecError = FieldTooWide | TooLong | BadLength | BadMagic | BadDigest | NoEndMarker

  // ----- Fields -----

  predicate IsByte(x: int) {
    0 <= x < 0x100
  }

  predicate IsWord(x: int) {
    0 <= x < 0x1_0000_0000
  }

  /** struct's little-endian `L`. */
  function Word(x: int): (r: Bytes)
    requires IsWord(x)
    ensures |r| == 4
  {
    [x % 0x100, x / 0x100 % 0x100, x / 0x1_0000 % 0x100, x / 0x100_0000]
  }

  function FromWord(b: Bytes): int
    requires |b| == 4
  {
    (b[0] as int) + 0x100 * (b[1] as int) + 0x1_0000 * (b[2] as int) + 0x100_0000 * (b[3] as int)
  }

  lemma WordRoundTrip(x: int)
    requires IsWord(x)
    ensures FromWord(Word(x)) == x
  {
    var a := x / 0x100;
    var b := a / 0x100;
    assert x / 0x1_0000 == b && x / 0x100_0000 == b / 0x100;
    assert x == 0x100 * a + x % 0x100 && a == 0x100 * b + a % 0x100 && b == 0x100 * (b / 0x100) + b % 0x100;
  }

  function Fill(n: nat, b: byte): (r: Bytes)
    ensures |r| == n && forall i | 0 <= i < n :: r[i] == b
  {
    if n == 0 then [] else [b] + Fill(n - 1, b)
  }

  /** struct's `16s`: cut to 16 bytes, or padded with zero bytes. */
  function NameField(name: Bytes): (r: Bytes)
    ensures |r| == NAME_WIDTH
  {
    if |name| >= NAME_WIDTH then name[..NAME_WIDTH] else name + Fill(NAME_WIDTH - |name|, 0)
  }

  /** The name up to its first zero byte. */
  function CutName(field: Bytes): (r: Bytes)
    ensures 0 !in r && |r| <= |field|
  {
    if field == [] || field[0] == 0 then [] else [field[0]] + CutName(field[1..])
  }

  predicate NameFits(name: Bytes) {
    |name| <= NAME_WIDTH && 0 !in name
  }

  lemma {:induction false} CutOfPadded(name: Bytes, pad: Bytes)
    requires 0 !in name && (pad == [] || pad[0] == 0)
    ensures CutName(name + pad) == name
    decreases |name|
  {
    if name == [] {
      assert name + pad == pad;
    } else {
      assert (name + pad)[1..] == name[1..] + pad;
      CutOfPadded(name[1..], pad);
    }
  }

  /** A name survives its field exactly when it is at most 16 bytes long and holds no zero byte. */
  lemma NameRoundTrip(name: Bytes)
    ensures CutName(NameField(name)) == name <==> NameFits(name)
  {
    if NameFits(name) {
      if |name| == NAME_WIDTH {
        CutOfPadded(name, []);
        assert name[..NAME_WIDTH] == name && name + [] == name;
      } else {
        CutOfPadded(name, Fill(NAME_WIDTH - |name|, 0));
      }
    }
  }

  // ----- Records -----

  function Bit(b: bool): int {
    if b then 1 else 0
  }

  function Flags(p: Partition): int {
    Bit(p.encrypted) + 2 * Bit(p.readonly)
  }

  predicate FieldsFit(p: Partition) {
    IsByte(p.kind) && IsByte(p.subtype) && IsWord(p.offset) && IsWord(p.size)
  }

  /** PartitionDefinition.to_binary for a record whose fields struct can pack. */
  function Record(p: Partition): (r: Bytes)
    requires FieldsFit(p)
    ensures |r| == RECORD && r[0] == 0xAA && r[1] == 0x50
  {
    [0xAA, 0x50, p.kind, p.subtype] + Word(p.offset) + Word(p.size) + NameField(p.name) + Word(Flags(p))
  }

  /** PartitionDefinition.from_binary; unknown flag bits only cause a warning. */
  function ParseRecord(b: Bytes): Result<Partition, CodecError> {
    if |b| != RECORD then Failure(BadLength)
    else if b[0] != 0xAA || b[1] != 0x50 then Failure(BadMagic)
    else
      var flags := FromWord(b[28..32]);
      Success(Partition(CutName(b[12..28]), b[2], b[3], FromWord(b[4..8]), FromWord(b[8..12]),
                        flags % 2 == 1, flags / 2 % 2 == 1))
  }

  lemma RecordFields(p: Partition)
    requires FieldsFit(p)
    ensures var b := Record(p);
            && b[2] == p.kind && b[3] == p.subtype
            && b[4..8] == Word(p.offset) && b[8..12] == Word(p.size)
            && b[12..28] == NameField(p.name) && b[28..32] == Word(Flags(p))
  {
    hide Word, NameField;
  }

  /** What the record of a partition is read back as: only the name can differ. */
  function ReadBack(p: Partition): Partition {
    p.(name := CutName(NameField(p.name)))
  }

  /** A record reads back as itself, flags included, exactly when its name fits. */
  lemma RecordRoundTrip(p: Partition)
    requires FieldsFit(p)
    ensures ParseRecord(Record(p)) == Success(ReadBack(p))
    ensures ParseRecord(Record(p)) == Success(p) <==> NameFits(p.name)
  {
    RecordFields(p);
    WordRoundTrip(p.offset);
    WordRoundTrip(p.size);
    WordRoundTrip(Flags(p));
    NameRoundTrip(p.name);
    hide Record, Word, NameField, CutName, FromWord;
  }

  /** The widths of a record's fields. */
  lemma FieldWidths(p: Partition)
    ensures FieldsFit(p) <==>
            && 0 <= p.kind <= 255 && 0 <= p.subtype <= 255
            && 0 <= p.offset <= 0xFFFF_FFFF && 0 <= p.size <= 0xFFFF_FFFF
  {}

  /** Where a record keeps its fields: type and subtype in bytes 2 and 3, offset from 4, size from 8, name from 12, flags from 28. */
  lemma RecordLayout(p: Partition)
    requires FieldsFit(p)
    ensures var b := Record(p);
            && b[0] == 0xAA && b[1] == 0x50 && b[2] == p.kind && b[3] == p.subtype
            && p.offset == (b[4] as int) + 0x100 * (b[5] as int) + 0x1_0000 * (b[6] as int) + 0x100_0000 * (b[7] as int)
            && p.size == (b[8] as int) + 0x100 * (b[9] as int) + 0x1_0000 * (b[10] as int) + 0x100_0000 * (b[11] as int)
            && (forall i | 0 <= i < 16 :: b[12 + i] == if i < |p.name| then p.name[i] else 0)
            && b[28] == (if p.encrypted then 1 else 0) + (if p.readonly then 2 else 0) && b[29] == b[30] == b[31] == 0
  {
    RecordFields(p);
    WordRoundTrip(p.offset);
    WordRoundTrip(p.size);
    var b := Record(p);
    assert b[4..8] == [b[4], b[5], b[6], b[7]] && b[8..12] == [b[8], b[9], b[10], b[11]];
    assert b[28..32] == [b[28], b[29], b[30], b[31]];
    forall i | 0 <= i < 16
      ensures b[12 + i] == NameField(p.name)[i]
    {
      assert b[12..28][i] == b[12 + i];
    }
    hide Record, CutName;
  }

  /** A record with a wrong magic byte is rejected, and of the flags only the lowest two bits matter. */
  lemma RecordsAreChecked(b: Bytes)
    requires |b| == RECORD
    ensures ParseRecord(b).Success? <==> b[0] == 0xAA && b[1] == 0x50
    ensures ParseRecord(b).Failure? ==> ParseRecord(b).error == BadMagic
    ensures ParseRecord(b).Success? ==>
              var p := ParseRecord(b).value;
              && (p.encrypted <==> b[28] % 2 == 1)
              && (p.readonly <==> b[28] % 4 >= 2)
  {
    assert b[28..32][0] == b[28];
    hide CutName;
  }

  // ----- Tables -----

  function Records(table: seq<Partition>): (r: Bytes)
    requires AllFit(table)
    ensures |r| == RECORD * |table|
  {
    if table == [] then [] else Record(table[0]) + Records(table[1..])
  }

  const DIGEST_MARK: Bytes := [0xEB, 0xEB, 0xFF, 0xFF, 0xFF, 0xFF, 0xFF, 0xFF, 0xFF, 0xFF, 0xFF, 0xFF, 0xFF, 0xFF, 0xFF, 0xFF]

  function DigestRow(digest: Digest16): (r: Bytes)
    ensures |r| == RECORD && r[0] == 0xEB && r[1] == 0xEB && r[16..] == digest
  {
    DIGEST_MARK + digest
  }

  predicate AllFit(table: seq<Partition>) {
    forall i | 0 <= i < |table| :: FieldsFit(table[i])
  }

  /** The records, and the MD5 row over them if wanted. */
  function Body(table: seq<Partition>, withDigest: bool, md5: DigestFunction): (r: Bytes)
    requires AllFit(table)
    ensures |r| == RECORD * (|table| + Bit(withDigest))
  {
    if withDigest then Records(table) + DigestRow(md5(Records(table))) else Records(table)
  }

  /** PartitionTable.to_binary */
  function ToBinary(table: seq<Partition>, withDigest: bool, md5: DigestFunction): (r: Result<Bytes, CodecError>)
    ensures r.Success? ==> |r.value| == MAX_LENGTH
  {
    if !AllFit(table) then Failure(FieldTooWide)
    else
      var body := Body(table, withDigest, md5);
      if |body| >= MAX_LENGTH then Failure(TooLong)
      else Success(body + Fill(MAX_LENGTH - |body|, 0xFF))
  }

  predicate IsEndMarker(b: Bytes) {
    |b| == RECORD && forall i | 0 <= i < RECORD :: b[i] == 0xFF
  }

  /** PartitionTable.from_binary on the bytes not yet read; `hashed` are the records read so far. */
  function ParseFrom(rest: Bytes, hashed: Bytes, table: seq<Partition>, checkDigest: bool, md5: DigestFunction)
    : Result<seq<Partition>, CodecError>
    decreases |rest|
  {
    if rest == [] then Failure(NoEndMarker)
    else if |rest| < RECORD then Failure(BadLength)
    else
      var row := rest[..RECORD];
      if IsEndMarker(row) then Success(table)
      else if checkDigest && row[0] == 0xEB && row[1] == 0xEB then
        if row[16..] == md5(hashed) then ParseFrom(rest[RECORD..], hashed, table, checkDigest, md5) else Failure(BadDigest)
      else
        match ParseRecord(row)
        case Failure(e) => Failure(e)
        case Success(p) => ParseFrom(rest[RECORD..], hashed + row, table + [p], checkDigest, md5)
  }

  /** The end marker is 32 bytes of 0xFF. */
  lemma EndMarkerIsAllOnes(b: Bytes)
    ensures IsEndMarker(b) <==> |b| == 32 && b == Fill(32, 0xFF)
  {}

  method FromBinary(b: Bytes, checkDigest: bool, md5: DigestFunction) returns (r: Result<seq<Partition>, CodecError>)
    ensures r == ParseFrom(b, [], [], checkDigest, md5)
  {
    hide ParseRecord, IsEndMarker;
    var hashed: Bytes, table := [], [];
    var o := 0;
    assert b[0..] == b;
    while o < |b|
      invariant 0 <= o <= |b|
      invariant ParseFrom(b[o..], hashed, table, checkDigest, md5) == ParseFrom(b, [], [], checkDigest, md5)
      decreases |b| - o
    {
      if |b| - o < RECORD {
        return Failure(BadLength);
      }
      var row := b[o..o + RECORD];
      assert b[o..][..RECORD] == row && b[o..][RECORD..] == b[o + RECORD..];
      if IsEndMarker(row) {
        return Success(table);
      }
      if checkDigest && row[0] == 0xEB && row[1] == 0xEB {
        if row[16..] != md5(hashed) {
          return Failure(BadDigest);
        }
      } else {
        var p := ParseRecord(row);
        if p.Failure? {
          return Failure(p.error);
        }
        hashed := hashed + row;
        table := table + [p.value];
      }
      o := o + RECORD;
    }
    return Failure(NoEndMarker);
  }

  predicate Storable(table: seq<Partition>) {
    AllFit(table) && forall i | 0 <= i < |table| :: NameFits(table[i].name)
  }

  lemma RowOf(row: Bytes, rest: Bytes)
    requires |row| == RECORD
    ensures (row + rest)[..RECORD] == row && (row + rest)[RECORD..] == rest && row + rest != []
  {}

  /** A record is never mistaken for an end marker or an MD5 row. */
  lemma RecordStep(
    p: Partition, rest: Bytes, hashed: Bytes, done: seq<Partition>, checkDigest: bool, md5: DigestFunction)
    requires FieldsFit(p)
    ensures ParseFrom(Record(p) + rest, hashed, done, checkDigest, md5)
         == ParseFrom(rest, hashed + Record(p), done + [ReadBack(p)], checkDigest, md5)
  {
    var row := Record(p);
    RowOf(row, rest);
    RecordRoundTrip(p);
    assert !IsEndMarker(row);
    hide Record, ParseRecord, IsEndMarker, ReadBack;
  }

  function ReadBacks(table: seq<Partition>): (r: seq<Partition>)
    ensures |r| == |table| && forall i | 0 <= i < |table| :: r[i] == ReadBack(table[i])
  {
    seq(|table|, i requires 0 <= i < |table| => ReadBack(table[i]))
  }

  lemma ReadBacksCons(table: seq<Partition>)
    requires table != []
    ensures ReadBacks(table) == [ReadBack(table[0])] + ReadBacks(table[1..])
  {
    hide ReadBack;
  }

  lemma Append<T>(done: seq<T>, x: T, more: seq<T>)
    ensures (done + [x]) + more == done + ([x] + more)
  {}

  /** Reading through a prefix of records yields one partition for each. */
  lemma {:induction false} RecordsParse(
    todo: seq<Partition>, tail: Bytes, hashed: Bytes, done: seq<Partition>, checkDigest: bool, md5: DigestFunction)
    requires AllFit(todo)
    ensures ParseFrom(Records(todo) + tail, hashed, done, checkDigest, md5)
         == ParseFrom(tail, hashed + Records(todo), done + ReadBacks(todo), checkDigest, md5)
    decreases |todo|
  {
    hide Record, ParseFrom, FieldsFit, NameFits, ReadBack;
    if todo == [] {
      assert Records(todo) + tail == tail && hashed + Records(todo) == hashed && done + ReadBacks(todo) == done;
    } else {
      hide ReadBacks;
      var p, more := todo[0], todo[1..];
      var row, rest := Record(p), Records(more) + tail;
      assert Records(todo) == row + Records(more);
      hide Records;
      assert Records(todo) + tail == row + rest;
      RecordStep(p, rest, hashed, done, checkDigest, md5);
      RecordsParse(more, tail, hashed + row, done + [ReadBack(p)], checkDigest, md5);
      assert (hashed + row) + Records(more) == hashed + Records(todo);
      ReadBacksCons(todo);
      Append(done, ReadBack(p), ReadBacks(more));
    }
  }

  lemma PaddingEnds(n: nat, hashed: Bytes, table: seq<Partition>, checkDigest: bool, md5: DigestFunction)
    requires n >= RECORD
    ensures ParseFrom(Fill(n, 0xFF), hashed, table, checkDigest, md5) == Success(table)
  {
    assert IsEndMarker(Fill(n, 0xFF)[..RECORD]);
  }

  lemma DigestRowPasses(rest: Bytes, hashed: Bytes, table: seq<Partition>, md5: DigestFunction)
    ensures ParseFrom(DigestRow(md5(hashed)) + rest, hashed, table, true, md5) == ParseFrom(rest, hashed, table, true, md5)
  {
    var row := DigestRow(md5(hashed));
    RowOf(row, rest);
    assert !IsEndMarker(row);
    hide DigestRow, IsEndMarker;
  }

  /** What follows the records: the MD5 row if wanted, and padding. */
  function Tail(table: seq<Partition>, withDigest: bool, md5: DigestFunction, padding: nat): Bytes
    requires AllFit(table)
  {
    if withDigest then DigestRow(md5(Records(table))) + Fill(padding, 0xFF) else Fill(padding, 0xFF)
  }

  lemma BinaryIsBody(table: seq<Partition>, withDigest: bool, md5: DigestFunction, padding: nat)
    requires AllFit(table)
    requires padding > 0 && padding == MAX_LENGTH - RECORD * (|table| + Bit(withDigest))
    ensures ToBinary(table, withDigest, md5) == Success(Body(table, withDigest, md5) + Fill(padding, 0xFF))
  {
    hide Body, Fill, AllFit, Bit;
  }

  lemma BinaryIsRecordsAndTail(table: seq<Partition>, withDigest: bool, md5: DigestFunction, padding: nat)
    requires AllFit(table)
    requires padding > 0 && padding == MAX_LENGTH - RECORD * (|table| + Bit(withDigest))
    ensures ToBinary(table, withDigest, md5).Success?
    ensures ToBinary(table, withDigest, md5).value == Records(table) + Tail(table, withDigest, md5, padding)
  {
    BinaryIsBody(table, withDigest, md5, padding);
    BodyAndPadding(table, withDigest, md5, padding);
    hide *;
  }

  /** Room left for padding is room for a whole record. */
  lemma PaddingIsWhole(rows: int, padding: int)
    requires padding > 0 && padding == MAX_LENGTH - RECORD * rows
    ensures padding >= RECORD
  {}

  lemma Associates(a: Bytes, b: Bytes, c: Bytes)
    ensures (a + b) + c == a + (b + c)
  {}

  lemma BodyAndPadding(table: seq<Partition>, withDigest: bool, md5: DigestFunction, padding: nat)
    requires AllFit(table)
    ensures Body(table, withDigest, md5) + Fill(padding, 0xFF) == Records(table) + Tail(table, withDigest, md5, padding)
  {
    hide Records, DigestRow, Fill, FieldsFit, NameFits;
    if withDigest {
      Associates(Records(table), DigestRow(md5(Records(table))), Fill(padding, 0xFF));
    }
  }

  lemma TailParses(table: seq<Partition>, done: seq<Partition>, withDigest: bool, md5: DigestFunction, padding: nat)
    requires AllFit(table) && padding >= RECORD
    ensures ParseFrom(Tail(table, withDigest, md5, padding), Records(table), done, withDigest, md5) == Success(done)
  {
    hide ParseFrom, Records, Fill, DigestRow, FieldsFit, NameFits;
    if withDigest {
      DigestRowPasses(Fill(padding, 0xFF), Records(table), done, md5);
    }
    PaddingEnds(padding, Records(table), done, withDigest, md5);
  }

  /** Every table that can be packed is read back, with or without the MD5 row, with its names cut to their fields. */
  lemma TableReadsBack(table: seq<Partition>, withDigest: bool, md5: DigestFunction)
    requires AllFit(table)
    requires RECORD * (|table| + Bit(withDigest)) < MAX_LENGTH
    ensures var b := ToBinary(table, withDigest, md5);
            b.Success? && ParseFrom(b.value, [], [], withDigest, md5) == Success(ReadBacks(table))
  {
    hide ParseFrom, Records, Tail, ToBinary, FieldsFit, NameFits, Bit;
    var padding := MAX_LENGTH - RECORD * (|table| + Bit(withDigest));
    BinaryIsRecordsAndTail(table, withDigest, md5, padding);
    PaddingIsWhole(|table| + Bit(withDigest), padding);
    var tail := Tail(table, withDigest, md5, padding);
    RecordsParse(table, tail, [], [], withDigest, md5);
    assert [] + Records(table) == Records(table) && [] + ReadBacks(table) == ReadBacks(table);
    TailParses(table, ReadBacks(table), withDigest, md5, padding);
  }

  /** How many rows a table image holds besides its end marker. */
  const MAX_ROWS := 95

  /**
   A table survives packing and reading back if and only if every field fits its width,
   every name has at most 16 bytes and no zero byte, and there is room for an end marker.
   */
  lemma TableRoundTripIff(table: seq<Partition>, withDigest: bool, md5: DigestFunction)
    ensures (var b := ToBinary(table, withDigest, md5);
             b.Success? && ParseFrom(b.value, [], [], withDigest, md5) == Success(table)) <==>
            Storable(table) && |table| + Bit(withDigest) <= MAX_ROWS
  {
    if AllFit(table) && |table| + Bit(withDigest) <= MAX_ROWS {
      TableReadsBack(table, withDigest, md5);
      forall i | 0 <= i < |table|
        ensures ReadBacks(table)[i] == table[i] <==> NameFits(table[i].name)
      {
        NameRoundTrip(table[i].name);
      }
      hide *;
      assert ReadBacks(table) == table <==> forall i | 0 <= i < |table| :: ReadBacks(table)[i] == table[i];
    } else {
      ToBinaryFailsIff(table, withDigest, md5);
    }
    hide ParseFrom, ToBinary, FieldsFit, NameFits, Bit;
  }

  /** Every storable table that fits is read back unchanged, with or without the MD5 row. */
  lemma TableRoundTrip(table: seq<Partition>, withDigest: bool, md5: DigestFunction)
    requires Storable(table)
    requires RECORD * (|table| + Bit(withDigest)) < MAX_LENGTH
    ensures var b := ToBinary(table, withDigest, md5);
            b.Success? && ParseFrom(b.value, [], [], withDigest, md5) == Success(table)
  {
    TableRoundTripIff(table, withDigest, md5);
    hide ParseFrom, ToBinary, Storable, Bit;
  }

  /** Whatever is packed, the last record slot of the image is an end marker. */
  lemma EndMarkerRemains(table: seq<Partition>, withDigest: bool, md5: DigestFunction)
    requires ToBinary(table, withDigest, md5).Success?
    ensures IsEndMarker(ToBinary(table, withDigest, md5).value[MAX_LENGTH - RECORD..])
  {
    hide Records, DigestRow, Body, Fill, FieldsFit;
    var body := Body(table, withDigest, md5);
    var padding := Fill(MAX_LENGTH - |body|, 0xFF);
    assert |padding| >= RECORD;
    assert (body + padding)[MAX_LENGTH - RECORD..] == padding[|padding| - RECORD..];
  }

  /** A table is refused exactly when a field is too wide or no room is left for the end marker. */
  lemma ToBinaryFailsIff(table: seq<Partition>, withDigest: bool, md5: DigestFunction)
    ensures ToBinary(table, withDigest, md5).Failure? <==>
            || !AllFit(table)
            || RECORD * (|table| + Bit(withDigest)) >= MAX_LENGTH
    ensures !AllFit(table) ==> ToBinary(table, withDigest, md5) == Failure(FieldTooWide)
    ensures AllFit(table) && |table| + Bit(withDigest) > MAX_ROWS ==> ToBinary(table, withDigest, md5) == Failure(TooLong)
  {}

  /** An image that ends without an end marker, or in part of a row, is rejected for that. */
  lemma CutImagesAreRejected(table: seq<Partition>, rest: Bytes, checkDigest: bool, md5: DigestFunction)
    requires AllFit(table) && |rest| < RECORD
    ensures ParseFrom(Records(table) + rest, [], [], checkDigest, md5) == Failure(if rest == [] then NoEndMarker else BadLength)
  {
    RecordsParse(table, rest, [], [], checkDigest, md5);
    hide Records, ReadBacks, FieldsFit;
  }

  /** Any change to the stored digest is caught before the table is accepted. */
  lemma WrongDigestIsCaught(table: seq<Partition>, digest: Digest16, rest: Bytes, md5: DigestFunction)
    requires AllFit(table) && digest != md5(Records(table))
    ensures ParseFrom(Records(table) + (DigestRow(digest) + rest), [], [], true, md5) == Failure(BadDigest)
  {
    var records, row := Records(table), DigestRow(digest);
    RecordsParse(table, row + rest, [], [], true, md5);
    assert [] + records == records && [] + ReadBacks(table) == ReadBacks(table);
    RowOf(row, rest);
    assert !IsEndMarker(row);
    hide DigestRow, IsEndMarker;
  }
}
