/** `concat` and `buildZip`: byte arrays laid end to end, and a "stored" (method 0) ZIP
    archive in the layout of PKWARE's APPNOTE: one local file header plus data per entry
    (section 4.3.7), a central directory header per entry (section 4.3.12), and the
    end-of-central-directory record (section 4.3.16). */
module Zip {
  import opened LittleEndian
  import Crc32
  import Utf8

  /** The parts laid end to end. */
  function Flatten(parts: seq<seq<bv8>>): seq<bv8>
    decreases |parts|
  {
    if parts == [] then [] else Flatten(parts[..|parts| - 1]) + parts[|parts| - 1]
  }

  /** `arrays.reduce((s, a) => s + a.length, 0)`. */
  function TotalLength(parts: seq<seq<bv8>>): nat
    decreases |parts|
  {
    if parts == [] then 0 else TotalLength(parts[..|parts| - 1]) + |parts[|parts| - 1]|
  }

  /** Where part `k` starts: the summed length of the parts before it. */
  function Offset(parts: seq<seq<bv8>>, k: nat): nat
    requires k <= |parts|
  {
    TotalLength(parts[..k])
  }

  lemma {:induction false} FlattenLength(parts: seq<seq<bv8>>)
    ensures |Flatten(parts)| == TotalLength(parts)
    decreases |parts|
  {
    if parts != [] {
      FlattenLength(parts[..|parts| - 1]);
    }
  }

  lemma {:induction false} FlattenAppend(a: seq<seq<bv8>>, b: seq<seq<bv8>>)
    ensures Flatten(a + b) == Flatten(a) + Flatten(b)
    decreases |b|
  {
    if b == [] {
      assert a + b == a;
    } else {
      var c := a + b;
      assert c[..|c| - 1] == a + b[..|b| - 1];
      FlattenAppend(a, b[..|b| - 1]);
    }
  }

  /** `r` occurs in `z` at position `k`. */
  predicate At(z: seq<bv8>, k: nat, r: seq<bv8>) {
    k + |r| <= |z| && z[k..k + |r|] == r
  }

  /** Part `k` sits at `Offset(parts, k)`. */
  lemma FlattenPart(parts: seq<seq<bv8>>, k: nat)
    requires k < |parts|
    ensures At(Flatten(parts), Offset(parts, k), parts[k])
  {
    var before, rest := parts[..k + 1], parts[k + 1..];
    assert parts == before + rest;
    FlattenAppend(before, rest);
    assert before[..k] == parts[..k];
    FlattenLength(parts[..k]);
  }

  lemma OffsetNext(parts: seq<seq<bv8>>, k: nat)
    requires k < |parts|
    ensures Offset(parts, k + 1) == Offset(parts, k) + |parts[k]|
  {
    assert parts[..k + 1][..k] == parts[..k];
  }

  lemma OffsetEnd(parts: seq<seq<bv8>>)
    ensures Offset(parts, |parts|) == |Flatten(parts)|
  {
    assert parts[..|parts|] == parts;
    FlattenLength(parts);
  }

  /** `concat(...arrays)`: a fresh array of the total length, each input copied in at a
      running offset. */
  method Concat(parts: seq<seq<bv8>>) returns (out: array<bv8>)
    ensures fresh(out) && out[..] == Flatten(parts)
  {
    FlattenLength(parts);
    out := new bv8[TotalLength(parts)];
    var offset := 0;
    for k := 0 to |parts|
      invariant offset == |Flatten(parts[..k])| <= out.Length
      invariant out[..offset] == Flatten(parts[..k])
    {
      assert parts[..k + 1][..k] == parts[..k];
      FlattenAppend(parts[..k + 1], parts[k + 1..]);
      assert parts[..k + 1] + parts[k + 1..] == parts;
      forall j | 0 <= j < |parts[k]| {
        out[offset + j] := parts[k][j];
      }
      offset := offset + |parts[k]|;
    }
    assert parts[..|parts|] == parts;
  }

  /** `{ name, data }`. */
  datatype ZipEntry = ZipEntry(name: string, data: seq<bv8>)

  const LocalSignature: seq<bv8> := [0x50, 0x4B, 0x03, 0x04]
  const CentralSignature: seq<bv8> := [0x50, 0x4B, 0x01, 0x02]
  const EndSignature: seq<bv8> := [0x50, 0x4B, 0x05, 0x06]

  /** The fields of a local file header followed by the name and the stored data: version
      needed 20, no flags, method 0, zero time and date, CRC, both sizes the data length,
      name length, no extra field. */
  function LocalFields(name: seq<bv8>, data: seq<bv8>, crc: bv32): seq<seq<bv8>> {
    [LocalSignature, LE(20, 2), LE(0, 2), LE(0, 2), LE(0, 2), LE(0, 2),
     LE(crc as nat, 4), LE(|data|, 4), LE(|data|, 4), LE(|name|, 2), LE(0, 2),
     name, data]
  }

  /** The fields of a central directory header: made by and needed 20, no flags, method 0,
      zero time and date, CRC, sizes, name length, no extra field or comment, disk 0, no
      attributes, the offset of the local header, then the name. */
  function CentralFields(name: seq<bv8>, data: seq<bv8>, crc: bv32, offset: nat): seq<seq<bv8>> {
    [CentralSignature, LE(20, 2), LE(20, 2), LE(0, 2), LE(0, 2), LE(0, 2), LE(0, 2),
     LE(crc as nat, 4), LE(|data|, 4), LE(|data|, 4), LE(|name|, 2), LE(0, 2), LE(0, 2),
     LE(0, 2), LE(0, 2), LE(0, 4), LE(offset, 4), name]
  }

  /** The fields of the end-of-central-directory record: disk 0, the entry count twice, the
      size and start of the central directory, no comment. */
  function EndFields(count: nat, centralSize: nat, centralStart: nat): seq<seq<bv8>> {
    [EndSignature, LE(0, 2), LE(0, 2), LE(count, 2), LE(count, 2), LE(centralSize, 4),
     LE(centralStart, 4), LE(0, 2)]
  }

  /** The local header and data of an entry. */
  function LocalRecord(e: ZipEntry): seq<bv8> {
    Flatten(LocalFields(Utf8.Encode(e.name), e.data, Crc32.Checksum(e.data)))
  }

  /** The central directory header of an entry whose local header starts at `offset`. */
  function CentralRecord(e: ZipEntry, offset: nat): seq<bv8> {
    Flatten(CentralFields(Utf8.Encode(e.name), e.data, Crc32.Checksum(e.data), offset))
  }

  /** `localHeaders` after the entries. */
  function Locals(entries: seq<ZipEntry>): (r: seq<seq<bv8>>)
    ensures |r| == |entries|
    decreases |entries|
  {
    if entries == [] then []
    else Locals(entries[..|entries| - 1]) + [LocalRecord(entries[|entries| - 1])]
  }

  /** `centralHeaders` after the entries: each records where its local header starts. */
  function Centrals(entries: seq<ZipEntry>): (r: seq<seq<bv8>>)
    ensures |r| == |entries|
    decreases |entries|
  {
    if entries == [] then []
    else
      var before := entries[..|entries| - 1];
      Centrals(before) + [CentralRecord(entries[|entries| - 1], TotalLength(Locals(before)))]
  }

  /** The end-of-central-directory record. */
  function EndRecord(entries: seq<ZipEntry>): seq<bv8> {
    Flatten(EndFields(|entries|, |Flatten(Centrals(entries))|, TotalLength(Locals(entries))))
  }

  /** The archive `buildZip(entries)` returns: the local records, the central directory and
      the end record. */
  function ZipBytes(entries: seq<ZipEntry>): seq<bv8> {
    Flatten(Locals(entries) + [Flatten(Centrals(entries)), EndRecord(entries)])
  }

  /** `new Uint8Array([...])`: a fresh array holding the listed bytes. */
  method NewBytes(bytes: seq<bv8>) returns (a: array<bv8>)
    ensures fresh(a) && a[..] == bytes
  {
    a := new bv8[|bytes|](i requires 0 <= i < |bytes| => bytes[i]);
  }

  /** The local header and data of one entry, as `buildZip` assembles them. */
  method LocalHeader(nameBytes: seq<bv8>, data: seq<bv8>, crc: bv32) returns (local: array<bv8>)
    ensures fresh(local) && local[..] == Flatten(LocalFields(nameBytes, data, crc))
  {
    var signature := NewBytes([0x50, 0x4B, 0x03, 0x04]);
    var f0 := signature[..];
    var version := Uint16LE(20);
    var f1 := version[..];
    var flags := Uint16LE(0);
    var f2 := flags[..];
    var compression := Uint16LE(0);
    var f3 := compression[..];
    var time := Uint16LE(0);
    var f4 := time[..];
    var date := Uint16LE(0);
    var f5 := date[..];
    var checksum := Uint32LE(crc as nat);
    var f6 := checksum[..];
    var compressed := Uint32LE(|data|);
    var f7 := compressed[..];
    var uncompressed := Uint32LE(|data|);
    var f8 := uncompressed[..];
    var nameLength := Uint16LE(|nameBytes|);
    var f9 := nameLength[..];
    var extra := Uint16LE(0);
    var f10 := extra[..];
    LocalParts(f0, f1, f2, f3, f4, f5, f6, f7, f8, f9, f10, nameBytes, data, crc);
    local := Concat([f0, f1, f2, f3, f4, f5, f6, f7, f8, f9, f10, nameBytes, data]);
  }

  lemma LocalParts(f0: seq<bv8>, f1: seq<bv8>, f2: seq<bv8>, f3: seq<bv8>, f4: seq<bv8>,
                   f5: seq<bv8>, f6: seq<bv8>, f7: seq<bv8>, f8: seq<bv8>, f9: seq<bv8>,
                   f10: seq<bv8>, nameBytes: seq<bv8>, data: seq<bv8>, crc: bv32)
    requires f0 == LocalSignature && f1 == LE(20, 2) && f2 == LE(0, 2) && f3 == LE(0, 2)
    requires f4 == LE(0, 2) && f5 == LE(0, 2) && f6 == LE(crc as nat, 4)
    requires f7 == LE(|data|, 4) && f8 == LE(|data|, 4) && f9 == LE(|nameBytes|, 2)
    requires f10 == LE(0, 2)
    ensures [f0, f1, f2, f3, f4, f5, f6, f7, f8, f9, f10, nameBytes, data]
         == LocalFields(nameBytes, data, crc)
  {
  }

  /** The central directory header of one entry, as `buildZip` assembles it. */
  method CentralHeader(nameBytes: seq<bv8>, data: seq<bv8>, crc: bv32, offset: nat)
    returns (central: array<bv8>)
    ensures fresh(central) && central[..] == Flatten(CentralFields(nameBytes, data, crc, offset))
  {
    var signature := NewBytes([0x50, 0x4B, 0x01, 0x02]);
    var f0 := signature[..];
    var madeBy := Uint16LE(20);
    var f1 := madeBy[..];
    var version := Uint16LE(20);
    var f2 := version[..];
    var flags := Uint16LE(0);
    var f3 := flags[..];
    var compression := Uint16LE(0);
    var f4 := compression[..];
    var time := Uint16LE(0);
    var f5 := time[..];
    var date := Uint16LE(0);
    var f6 := date[..];
    var checksum := Uint32LE(crc as nat);
    var f7 := checksum[..];
    var compressed := Uint32LE(|data|);
    var f8 := compressed[..];
    var uncompressed := Uint32LE(|data|);
    var f9 := uncompressed[..];
    var nameLength := Uint16LE(|nameBytes|);
    var f10 := nameLength[..];
    var extra := Uint16LE(0);
    var f11 := extra[..];
    var comment := Uint16LE(0);
    var f12 := comment[..];
    var diskStart := Uint16LE(0);
    var f13 := diskStart[..];
    var internalAttributes := Uint16LE(0);
    var f14 := internalAttributes[..];
    var externalAttributes := Uint32LE(0);
    var f15 := externalAttributes[..];
    var localOffset := Uint32LE(offset);
    var f16 := localOffset[..];
    CentralParts(f0, f1, f2, f3, f4, f5, f6, f7, f8, f9, f10, f11, f12, f13, f14, f15, f16,
                 nameBytes, data, crc, offset);
    central := Concat([f0, f1, f2, f3, f4, f5, f6, f7, f8, f9, f10, f11, f12, f13, f14, f15, f16,
                       nameBytes]);
  }

  lemma CentralParts(f0: seq<bv8>, f1: seq<bv8>, f2: seq<bv8>, f3: seq<bv8>, f4: seq<bv8>,
                     f5: seq<bv8>, f6: seq<bv8>, f7: seq<bv8>, f8: seq<bv8>, f9: seq<bv8>,
                     f10: seq<bv8>, f11: seq<bv8>, f12: seq<bv8>, f13: seq<bv8>, f14: seq<bv8>,
                     f15: seq<bv8>, f16: seq<bv8>, nameBytes: seq<bv8>, data: seq<bv8>,
                     crc: bv32, offset: nat)
    requires f0 == CentralSignature && f1 == LE(20, 2) && f2 == LE(20, 2) && f3 == LE(0, 2)
    requires f4 == LE(0, 2) && f5 == LE(0, 2) && f6 == LE(0, 2) && f7 == LE(crc as nat, 4)
    requires f8 == LE(|data|, 4) && f9 == LE(|data|, 4) && f10 == LE(|nameBytes|, 2)
    requires f11 == LE(0, 2) && f12 == LE(0, 2) && f13 == LE(0, 2) && f14 == LE(0, 2)
    requires f15 == LE(0, 4) && f16 == LE(offset, 4)
    ensures [f0, f1, f2, f3, f4, f5, f6, f7, f8, f9, f10, f11, f12, f13, f14, f15, f16, nameBytes]
         == CentralFields(nameBytes, data, crc, offset)
  {
  }

  /** The end-of-central-directory record, as `buildZip` assembles it. */
  method EndOfCentralDirectory(count: nat, centralSize: nat, centralStart: nat)
    returns (eocd: array<bv8>)
    ensures fresh(eocd) && eocd[..] == Flatten(EndFields(count, centralSize, centralStart))
  {
    var signature := NewBytes([0x50, 0x4B, 0x05, 0x06]);
    var f0 := signature[..];
    var disk := Uint16LE(0);
    var f1 := disk[..];
    var centralDisk := Uint16LE(0);
    var f2 := centralDisk[..];
    var diskEntries := Uint16LE(count);
    var f3 := diskEntries[..];
    var totalEntries := Uint16LE(count);
    var f4 := totalEntries[..];
    var size := Uint32LE(centralSize);
    var f5 := size[..];
    var start := Uint32LE(centralStart);
    var f6 := start[..];
    var comment := Uint16LE(0);
    var f7 := comment[..];
    assert [f0, f1, f2, f3, f4, f5, f6, f7] == EndFields(count, centralSize, centralStart);
    eocd := Concat([f0, f1, f2, f3, f4, f5, f6, f7]);
  }

  /** `buildZip(entries)`: a local record and a central header per entry, the running offset
      of the local records, then the central directory and the end record. */
  method BuildZip(entries: seq<ZipEntry>) returns (result: array<bv8>)
    ensures fresh(result) && result[..] == ZipBytes(entries)
  {
    var localHeaders: seq<seq<bv8>> := [];
    var centralHeaders: seq<seq<bv8>> := [];
    var offset := 0;
    for i := 0 to |entries|
      invariant localHeaders == Locals(entries[..i])
      invariant centralHeaders == Centrals(entries[..i])
      invariant offset == TotalLength(localHeaders)
    {
      var entry := entries[i];
      var nameBytes := Utf8.Encode(entry.name);
      var crc := Crc32.Crc32(entry.data);
      var local := LocalHeader(nameBytes, entry.data, crc);
      var central := CentralHeader(nameBytes, entry.data, crc, offset);
      ZipStep(entries, i, localHeaders, centralHeaders, local[..], central[..]);
      localHeaders := localHeaders + [local[..]];
      centralHeaders := centralHeaders + [central[..]];
      offset := offset + local.Length;
    }
    assert entries[..|entries|] == entries;
    var centralStart := offset;
    var centralData := Concat(centralHeaders);
    var centralSize := centralData.Length;
    var eocd := EndOfCentralDirectory(|entries|, centralSize, centralStart);
    result := Concat(localHeaders + [centralData[..], eocd[..]]);
  }

  /** One turn of `buildZip`'s loop appends the entry's local record and central header. */
  lemma ZipStep(entries: seq<ZipEntry>, i: nat, locals: seq<seq<bv8>>, centrals: seq<seq<bv8>>,
                local: seq<bv8>, central: seq<bv8>)
    requires i < |entries|
    requires locals == Locals(entries[..i]) && centrals == Centrals(entries[..i])
    requires local == LocalRecord(entries[i])
    requires central == CentralRecord(entries[i], TotalLength(locals))
    ensures locals + [local] == Locals(entries[..i + 1])
    ensures centrals + [central] == Centrals(entries[..i + 1])
    ensures TotalLength(locals + [local]) == TotalLength(locals) + |local|
  {
    assert entries[..i + 1][..i] == entries[..i];
    assert (locals + [local])[..|locals|] == locals;
  }

  lemma OffsetStart(parts: seq<seq<bv8>>)
    ensures Offset(parts, 0) == 0
  {
    assert parts[..0] == [];
  }

  /** Where each field of a local record starts. */
  lemma LocalOffsets(f: seq<seq<bv8>>, name: seq<bv8>, data: seq<bv8>, crc: bv32)
    requires f == LocalFields(name, data, crc)
    ensures Offset(f, 1) == 4 && Offset(f, 3) == 8 && Offset(f, 6) == 14 && Offset(f, 7) == 18
    ensures Offset(f, 8) == 22 && Offset(f, 9) == 26 && Offset(f, 11) == 30
    ensures Offset(f, 12) == 30 + |name| && Offset(f, 13) == 30 + |name| + |data|
  {
    LocalOffsetsFront(f, name, data, crc);
    OffsetNext(f, 6);
    OffsetNext(f, 7);
    OffsetNext(f, 8);
    OffsetNext(f, 9);
    OffsetNext(f, 10);
    OffsetNext(f, 11);
    OffsetNext(f, 12);
  }

  lemma LocalOffsetsFront(f: seq<seq<bv8>>, name: seq<bv8>, data: seq<bv8>, crc: bv32)
    requires f == LocalFields(name, data, crc)
    ensures Offset(f, 1) == 4 && Offset(f, 3) == 8 && Offset(f, 6) == 14
  {
    OffsetStart(f);
    OffsetNext(f, 0);
    OffsetNext(f, 1);
    OffsetNext(f, 2);
    OffsetNext(f, 3);
    OffsetNext(f, 4);
    OffsetNext(f, 5);
  }

  /** A local record (APPNOTE section 4.3.7) is `30 + |name| + |data|` bytes: the
      signature, version 20, method 0 (stored), the CRC, the data length as both the
      compressed and the uncompressed size, the name length, then the name and the data. */
  lemma LocalLayout(name: seq<bv8>, data: seq<bv8>, crc: bv32, r: seq<bv8>)
    requires r == Flatten(LocalFields(name, data, crc))
    ensures |r| == 30 + |name| + |data|
    ensures At(r, 0, LocalSignature) && At(r, 4, LE(20, 2)) && At(r, 8, LE(0, 2))
    ensures At(r, 14, LE(crc as nat, 4)) && At(r, 18, LE(|data|, 4)) && At(r, 22, LE(|data|, 4))
    ensures At(r, 26, LE(|name|, 2)) && At(r, 30, name) && At(r, 30 + |name|, data)
  {
    var f := LocalFields(name, data, crc);
    LocalOffsets(f, name, data, crc);
    OffsetStart(f);
    OffsetEnd(f);
    FlattenPart(f, 0);
    FlattenPart(f, 1);
    FlattenPart(f, 3);
    FlattenPart(f, 6);
    FlattenPart(f, 7);
    FlattenPart(f, 8);
    FlattenPart(f, 9);
    FlattenPart(f, 11);
    FlattenPart(f, 12);
  }

  /** Where each field of a central directory header starts. */
  lemma CentralOffsets(f: seq<seq<bv8>>, name: seq<bv8>, data: seq<bv8>, crc: bv32, offset: nat)
    requires f == CentralFields(name, data, crc, offset)
    ensures Offset(f, 1) == 4 && Offset(f, 2) == 6 && Offset(f, 4) == 10 && Offset(f, 7) == 16
    ensures Offset(f, 8) == 20 && Offset(f, 9) == 24 && Offset(f, 10) == 28
    ensures Offset(f, 16) == 42 && Offset(f, 17) == 46 && Offset(f, 18) == 46 + |name|
  {
    CentralOffsetsFront(f, name, data, crc, offset);
    OffsetNext(f, 10);
    OffsetNext(f, 11);
    OffsetNext(f, 12);
    OffsetNext(f, 13);
    OffsetNext(f, 14);
    OffsetNext(f, 15);
    OffsetNext(f, 16);
    OffsetNext(f, 17);
  }

  lemma CentralOffsetsFront(f: seq<seq<bv8>>, name: seq<bv8>, data: seq<bv8>, crc: bv32, offset: nat)
    requires f == CentralFields(name, data, crc, offset)
    ensures Offset(f, 1) == 4 && Offset(f, 2) == 6 && Offset(f, 4) == 10 && Offset(f, 7) == 16
    ensures Offset(f, 8) == 20 && Offset(f, 9) == 24 && Offset(f, 10) == 28
  {
    CentralOffsetsStart(f, name, data, crc, offset);
    OffsetNext(f, 5);
    OffsetNext(f, 6);
    OffsetNext(f, 7);
    OffsetNext(f, 8);
    OffsetNext(f, 9);
  }

  lemma CentralOffsetsStart(f: seq<seq<bv8>>, name: seq<bv8>, data: seq<bv8>, crc: bv32, offset: nat)
    requires f == CentralFields(name, data, crc, offset)
    ensures Offset(f, 1) == 4 && Offset(f, 2) == 6 && Offset(f, 4) == 10 && Offset(f, 5) == 12
  {
    OffsetStart(f);
    OffsetNext(f, 0);
    OffsetNext(f, 1);
    OffsetNext(f, 2);
    OffsetNext(f, 3);
    OffsetNext(f, 4);
  }

  /** A central directory header (APPNOTE section 4.3.12) is `46 + |name|` bytes: the
      signature, versions made by and needed 20, method 0, the CRC, both sizes, the name
      length, the offset of the local header, then the name. */
  lemma CentralLayout(name: seq<bv8>, data: seq<bv8>, crc: bv32, offset: nat, r: seq<bv8>)
    requires r == Flatten(CentralFields(name, data, crc, offset))
    ensures |r| == 46 + |name|
    ensures At(r, 0, CentralSignature) && At(r, 4, LE(20, 2)) && At(r, 6, LE(20, 2))
    ensures At(r, 10, LE(0, 2)) && At(r, 16, LE(crc as nat, 4))
    ensures At(r, 20, LE(|data|, 4)) && At(r, 24, LE(|data|, 4)) && At(r, 28, LE(|name|, 2))
    ensures At(r, 42, LE(offset, 4)) && At(r, 46, name)
  {
    var f := CentralFields(name, data, crc, offset);
    CentralOffsets(f, name, data, crc, offset);
    OffsetStart(f);
    OffsetEnd(f);
    FlattenPart(f, 0);
    FlattenPart(f, 1);
    FlattenPart(f, 2);
    FlattenPart(f, 4);
    FlattenPart(f, 7);
    FlattenPart(f, 8);
    FlattenPart(f, 9);
    FlattenPart(f, 10);
    FlattenPart(f, 16);
    FlattenPart(f, 17);
  }

  /** Where each field of the end record starts. */
  lemma EndOffsets(f: seq<seq<bv8>>, count: nat, centralSize: nat, centralStart: nat)
    requires f == EndFields(count, centralSize, centralStart)
    ensures Offset(f, 3) == 8 && Offset(f, 4) == 10 && Offset(f, 5) == 12 && Offset(f, 6) == 16
    ensures Offset(f, 7) == 20 && Offset(f, 8) == 22
  {
    OffsetStart(f);
    OffsetNext(f, 0);
    OffsetNext(f, 1);
    OffsetNext(f, 2);
    OffsetNext(f, 3);
    OffsetNext(f, 4);
    OffsetNext(f, 5);
    OffsetNext(f, 6);
    OffsetNext(f, 7);
  }

  /** The end-of-central-directory record (APPNOTE section 4.3.16) is 22 bytes: the
      signature, the entry count twice, the size and the start of the central directory,
      and a zero comment length. */
  lemma EndLayout(count: nat, centralSize: nat, centralStart: nat, r: seq<bv8>)
    requires r == Flatten(EndFields(count, centralSize, centralStart))
    ensures |r| == 22
    ensures At(r, 0, EndSignature) && At(r, 8, LE(count, 2)) && At(r, 10, LE(count, 2))
    ensures At(r, 12, LE(centralSize, 4)) && At(r, 16, LE(centralStart, 4)) && At(r, 20, LE(0, 2))
  {
    var f := EndFields(count, centralSize, centralStart);
    EndOffsets(f, count, centralSize, centralStart);
    OffsetStart(f);
    OffsetEnd(f);
    FlattenPart(f, 0);
    FlattenPart(f, 3);
    FlattenPart(f, 4);
    FlattenPart(f, 5);
    FlattenPart(f, 6);
    FlattenPart(f, 7);
  }

  /** The local records of a prefix of the entries are a prefix of the local records. */
  lemma {:induction false} LocalsPrefix(entries: seq<ZipEntry>, k: nat)
    requires k <= |entries|
    ensures Locals(entries[..k]) == Locals(entries)[..k]
    decreases |entries|
  {
    if k < |entries| {
      var before := entries[..|entries| - 1];
      assert entries[..k] == before[..k];
      LocalsPrefix(before, k);
    } else {
      assert entries[..k] == entries;
    }
  }

  /** Local record `i` is the record of entry `i`. */
  lemma {:induction false} LocalsIndex(entries: seq<ZipEntry>, i: nat)
    requires i < |entries|
    ensures Locals(entries)[i] == LocalRecord(entries[i])
    decreases |entries|
  {
    if i < |entries| - 1 {
      var before := entries[..|entries| - 1];
      LocalsIndex(before, i);
    }
  }

  /** Central header `i` is the header of entry `i`, and it records where local record `i`
      starts: the summed length of the local records before it. */
  lemma {:induction false} CentralsIndex(entries: seq<ZipEntry>, i: nat)
    requires i < |entries|
    ensures Centrals(entries)[i] == CentralRecord(entries[i], Offset(Locals(entries), i))
    decreases |entries|
  {
    if i < |entries| - 1 {
      CentralsIndex(entries[..|entries| - 1], i);
      CentralsEarlier(entries, entries[..|entries| - 1], i);
    } else {
      LocalsPrefix(entries, i);
    }
  }

  lemma CentralsEarlier(entries: seq<ZipEntry>, before: seq<ZipEntry>, i: nat)
    requires |entries| >= 1 && before == entries[..|entries| - 1] && i < |before|
    requires Centrals(before)[i] == CentralRecord(before[i], Offset(Locals(before), i))
    ensures Centrals(entries)[i] == CentralRecord(entries[i], Offset(Locals(entries), i))
  {
    CentralsFront(entries, before, i);
    LocalsPrefix(entries, |entries| - 1);
    SameOffset(Locals(before), Locals(entries), i);
  }

  /** The central headers of all but the last entry come first, unchanged. */
  lemma CentralsFront(entries: seq<ZipEntry>, before: seq<ZipEntry>, i: nat)
    requires |entries| >= 1 && before == entries[..|entries| - 1] && i < |before|
    ensures Centrals(entries)[i] == Centrals(before)[i] && entries[i] == before[i]
  {
  }

  /** Offsets only depend on the parts before them. */
  lemma SameOffset(shorter: seq<seq<bv8>>, longer: seq<seq<bv8>>, i: nat)
    requires i <= |shorter| <= |longer| && shorter == longer[..|shorter|]
    ensures Offset(shorter, i) == Offset(longer, i)
  {
    assert shorter[..i] == longer[..i];
  }

  /** An offset into the parts is at most their total length. */
  lemma OffsetBound(parts: seq<seq<bv8>>, k: nat)
    requires k <= |parts|
    ensures Offset(parts, k) <= TotalLength(parts)
  {
    FlattenLength(parts);
    if k < |parts| {
      FlattenPart(parts, k);
    } else {
      OffsetEnd(parts);
    }
  }

  /** What occurs inside something that occurs in `z` occurs in `z`. */
  lemma AtWithin(z: seq<bv8>, a: nat, c: seq<bv8>, b: nat, r: seq<bv8>)
    requires At(z, a, c) && At(c, b, r)
    ensures At(z, a + b, r)
  {
    var x := z[a + b..a + b + |r|];
    forall j | 0 <= j < |r|
      ensures x[j] == r[j]
    {
      assert z[a..a + |c|][b + j] == z[a + b + j];
      assert c[b..b + |r|][j] == c[b + j];
    }
    assert x == r;
  }

  /** What starts something that occurs in `z` at `a` occurs in `z` at `a`. */
  lemma AtFront(z: seq<bv8>, a: nat, c: seq<bv8>, r: seq<bv8>)
    requires At(z, a, c) && At(c, 0, r)
    ensures At(z, a, r)
  {
    AtWithin(z, a, c, 0, r);
  }

  /** Parts followed by two more. */
  lemma FlattenThree(parts: seq<seq<bv8>>, c: seq<bv8>, e: seq<bv8>)
    ensures Flatten(parts + [c, e]) == Flatten(parts) + c + e
    ensures TotalLength(parts) + |c| + |e| == |Flatten(parts + [c, e])|
  {
    var ce := [c, e];
    FlattenAppend(parts, ce);
    assert ce[..1] == [c];
    assert Flatten([c]) == c by {
      assert [c][..0] == [];
    }
    assert Flatten(ce) == c + e;
    FlattenLength(parts);
  }

  /** The archive is the local records, the central directory and the end record, laid end
      to end. */
  lemma ZipSplit(entries: seq<ZipEntry>)
    ensures ZipBytes(entries)
      == Flatten(Locals(entries)) + Flatten(Centrals(entries)) + EndRecord(entries)
  {
    FlattenThree(Locals(entries), Flatten(Centrals(entries)), EndRecord(entries));
  }

  /** Local record `i` sits in the archive at the summed length of the records before it. */
  lemma LocalRecordAt(entries: seq<ZipEntry>, i: nat, z: seq<bv8>)
    requires i < |entries| && z == ZipBytes(entries)
    ensures At(z, Offset(Locals(entries), i), Locals(entries)[i])
  {
    var locals := Locals(entries);
    var parts := locals + [Flatten(Centrals(entries)), EndRecord(entries)];
    FlattenPart(parts, i);
    OffsetOfPrefix(locals, [Flatten(Centrals(entries)), EndRecord(entries)], i);
  }

  /** Offsets into a prefix of the parts do not depend on what follows. */
  lemma OffsetOfPrefix(parts: seq<seq<bv8>>, tail: seq<seq<bv8>>, k: nat)
    requires k < |parts|
    ensures Offset(parts + tail, k) == Offset(parts, k) && (parts + tail)[k] == parts[k]
  {
    assert (parts + tail)[..k] == parts[..k];
  }

  /** The central directory starts right after the local records. */
  lemma CentralDirectoryAt(entries: seq<ZipEntry>, z: seq<bv8>)
    requires z == ZipBytes(entries)
    ensures At(z, TotalLength(Locals(entries)), Flatten(Centrals(entries)))
  {
    MiddleAt(Locals(entries), Flatten(Centrals(entries)), EndRecord(entries), z);
  }

  lemma MiddleAt(locals: seq<seq<bv8>>, c: seq<bv8>, e: seq<bv8>, z: seq<bv8>)
    requires z == Flatten(locals + [c, e])
    ensures At(z, TotalLength(locals), c)
  {
    FlattenThree(locals, c, e);
    FlattenLength(locals);
    var a := Flatten(locals);
    assert (a + c + e)[|a|..|a| + |c|] == c;
  }

  /** Central header `i` sits at the start of the central directory plus the summed length of
      the headers before it. */
  lemma CentralRecordAt(entries: seq<ZipEntry>, i: nat, z: seq<bv8>)
    requires i < |entries| && z == ZipBytes(entries)
    ensures At(z, TotalLength(Locals(entries)) + Offset(Centrals(entries), i), Centrals(entries)[i])
  {
    DirectoryEntryAt(Locals(entries), Centrals(entries), EndRecord(entries), z, i,
                     Centrals(entries)[i]);
  }

  lemma DirectoryEntryAt(locals: seq<seq<bv8>>, centrals: seq<seq<bv8>>, e: seq<bv8>,
                         z: seq<bv8>, i: nat, r: seq<bv8>)
    requires z == Flatten(locals + [Flatten(centrals), e])
    requires i < |centrals| && centrals[i] == r
    ensures At(z, TotalLength(locals) + Offset(centrals, i), r)
  {
    MiddleAt(locals, Flatten(centrals), e, z);
    FlattenPart(centrals, i);
    AtWithin(z, TotalLength(locals), Flatten(centrals), Offset(centrals, i), r);
  }

  /** The end record `e` is the last 22 bytes, and the archive is exactly the local records,
      the central directory and those 22 bytes. */
  lemma EndRecordAt(entries: seq<ZipEntry>, z: seq<bv8>, e: seq<bv8>)
    requires z == ZipBytes(entries) && e == EndRecord(entries)
    ensures |e| == 22 && |z| == TotalLength(Locals(entries)) + TotalLength(Centrals(entries)) + 22
    ensures At(z, |z| - 22, e)
  {
    var locals, centrals := Locals(entries), Centrals(entries);
    EndLayout(|entries|, |Flatten(centrals)|, TotalLength(locals), e);
    FlattenLength(centrals);
    LastAt(locals, Flatten(centrals), e, z, |z| - 22);
  }

  lemma LastAt(locals: seq<seq<bv8>>, c: seq<bv8>, e: seq<bv8>, z: seq<bv8>, k: int)
    requires z == Flatten(locals + [c, e]) && k == |z| - |e|
    ensures |z| == TotalLength(locals) + |c| + |e| && 0 <= k && At(z, k, e)
  {
    FlattenThree(locals, c, e);
    assert z[k..] == e;
  }

  /** The local record of an entry: its name is the UTF-8 encoding of the entry's name and
      its CRC field holds the CRC-32 of the entry's data. */
  lemma LocalRecordLayout(e: ZipEntry, r: seq<bv8>)
    requires r == LocalRecord(e)
    ensures |r| == 30 + |Utf8.Encode(e.name)| + |e.data|
    ensures At(r, 0, LocalSignature) && At(r, 8, LE(0, 2))
    ensures At(r, 14, LE(Crc32.Checksum(e.data) as nat, 4))
    ensures At(r, 18, LE(|e.data|, 4)) && At(r, 22, LE(|e.data|, 4))
    ensures At(r, 30, Utf8.Encode(e.name)) && At(r, 30 + |Utf8.Encode(e.name)|, e.data)
  {
    LocalLayout(Utf8.Encode(e.name), e.data, Crc32.Checksum(e.data), r);
  }

  /** The central header of an entry whose local record starts at `offset`. */
  lemma CentralRecordLayout(e: ZipEntry, offset: nat, r: seq<bv8>)
    requires r == CentralRecord(e, offset)
    ensures |r| == 46 + |Utf8.Encode(e.name)|
    ensures At(r, 0, CentralSignature) && At(r, 10, LE(0, 2))
    ensures At(r, 16, LE(Crc32.Checksum(e.data) as nat, 4))
    ensures At(r, 20, LE(|e.data|, 4)) && At(r, 24, LE(|e.data|, 4))
    ensures At(r, 42, LE(offset, 4)) && At(r, 46, Utf8.Encode(e.name))
  {
    CentralLayout(Utf8.Encode(e.name), e.data, Crc32.Checksum(e.data), offset, r);
  }

  /** The offset field of central header `i` holds where local record `i` starts, modulo
      2^32 as `uint32LE` writes it. */
  lemma CentralOffsetField(entries: seq<ZipEntry>, i: nat, c: seq<bv8>)
    requires i < |entries| && c == Centrals(entries)[i]
    ensures |c| == 46 + |Utf8.Encode(entries[i].name)|
    ensures DecodeLE(c[42..46]) == Offset(Locals(entries), i) % 0x1_0000_0000
  {
    var off := Offset(Locals(entries), i);
    CentralsIndex(entries, i);
    CentralRecordLayout(entries[i], off, c);
    DecodeEncodeLE(off, 4);
    Pow256Values();
  }

  /** Local record `i` starts with the local header signature. */
  lemma LocalSignatureAt(entries: seq<ZipEntry>, i: nat, z: seq<bv8>)
    requires i < |entries| && z == ZipBytes(entries)
    ensures At(z, Offset(Locals(entries), i), LocalSignature)
  {
    var r := Locals(entries)[i];
    LocalRecordAt(entries, i, z);
    LocalStartsWithSignature(entries, i, r);
    AtFront(z, Offset(Locals(entries), i), r, LocalSignature);
  }

  lemma LocalStartsWithSignature(entries: seq<ZipEntry>, i: nat, r: seq<bv8>)
    requires i < |entries| && r == Locals(entries)[i]
    ensures At(r, 0, LocalSignature)
  {
    LocalsIndex(entries, i);
    LocalRecordLayout(entries[i], r);
  }

  /** While the local records total less than 4 GiB, following the offset field of central
      header `i` leads to the signature of local record `i`. */
  lemma CentralPointsToLocal(entries: seq<ZipEntry>, i: nat, z: seq<bv8>, c: seq<bv8>)
    requires i < |entries| && z == ZipBytes(entries) && c == Centrals(entries)[i]
    requires TotalLength(Locals(entries)) < 0x1_0000_0000
    ensures |c| >= 46 && DecodeLE(c[42..46]) == Offset(Locals(entries), i)
    ensures At(z, DecodeLE(c[42..46]), LocalSignature)
  {
    var off := Offset(Locals(entries), i);
    CentralOffsetField(entries, i, c);
    OffsetBound(Locals(entries), i);
    SmallMod(off, 0x1_0000_0000);
    LocalSignatureAt(entries, i, z);
    AtSame(z, off, DecodeLE(c[42..46]), LocalSignature);
  }

  lemma SmallMod(x: nat, m: nat)
    requires x < m
    ensures x % m == x
  {
  }

  lemma Bv32Bound(x: bv32)
    ensures x as nat < 0x1_0000_0000
  {
  }

  lemma AtSame(z: seq<bv8>, k: nat, k2: nat, r: seq<bv8>)
    requires At(z, k, r) && k == k2
    ensures At(z, k2, r)
  {
  }

  /** The CRC field of local record `i`. */
  lemma LocalCrcField(entries: seq<ZipEntry>, i: nat, l: seq<bv8>)
    requires i < |entries| && l == Locals(entries)[i]
    ensures |l| >= 30 && l[14..18] == LE(Crc32.Checksum(entries[i].data) as nat, 4)
  {
    LocalsIndex(entries, i);
    LocalRecordLayout(entries[i], l);
  }

  /** The CRC field of central header `i`. */
  lemma CentralCrcField(entries: seq<ZipEntry>, i: nat, c: seq<bv8>)
    requires i < |entries| && c == Centrals(entries)[i]
    ensures |c| >= 46 && c[16..20] == LE(Crc32.Checksum(entries[i].data) as nat, 4)
  {
    CentralsIndex(entries, i);
    CentralRecordLayout(entries[i], Offset(Locals(entries), i), c);
  }

  /** The local record and the central header of an entry carry the same CRC field, and it
      decodes to the CRC-32 of the entry's data. */
  lemma CrcFieldsAgree(entries: seq<ZipEntry>, i: nat, l: seq<bv8>, c: seq<bv8>)
    requires i < |entries| && l == Locals(entries)[i] && c == Centrals(entries)[i]
    ensures |l| >= 30 && |c| >= 46 && l[14..18] == c[16..20]
    ensures DecodeLE(l[14..18]) == Crc32.Checksum(entries[i].data) as nat
  {
    var crc := Crc32.Checksum(entries[i].data) as nat;
    LocalCrcField(entries, i, l);
    CentralCrcField(entries, i, c);
    Bv32Bound(Crc32.Checksum(entries[i].data));
    SmallMod(crc, 0x1_0000_0000);
    DecodeEncodeLE(crc, 4);
    Pow256Values();
  }

  /** Both size fields of a local record are the length of the stored data. */
  lemma StoredSizes(entries: seq<ZipEntry>, i: nat, l: seq<bv8>)
    requires i < |entries| && l == Locals(entries)[i]
    ensures |l| == 30 + |Utf8.Encode(entries[i].name)| + |entries[i].data|
    ensures DecodeLE(l[8..10]) == 0
    ensures DecodeLE(l[18..22]) == DecodeLE(l[22..26]) == |entries[i].data| % 0x1_0000_0000
  {
    LocalsIndex(entries, i);
    LocalRecordLayout(entries[i], l);
    DecodeEncodeLE(0, 2);
    DecodeEncodeLE(|entries[i].data|, 4);
    Pow256Values();
  }

  /** The end record holds the entry count twice (modulo 2^16), the size of the central
      directory and where it starts (modulo 2^32). */
  lemma EndRecordFields(entries: seq<ZipEntry>, e: seq<bv8>)
    requires e == EndRecord(entries)
    ensures |e| == 22 && e[..4] == EndSignature
    ensures DecodeLE(e[8..10]) == DecodeLE(e[10..12]) == |entries| % 0x1_0000
    ensures DecodeLE(e[12..16]) == TotalLength(Centrals(entries)) % 0x1_0000_0000
    ensures DecodeLE(e[16..20]) == TotalLength(Locals(entries)) % 0x1_0000_0000
  {
    var centrals := Centrals(entries);
    FlattenLength(centrals);
    EndLayout(|entries|, |Flatten(centrals)|, TotalLength(Locals(entries)), e);
    DecodeEncodeLE(|entries|, 2);
    DecodeEncodeLE(TotalLength(centrals), 4);
    DecodeEncodeLE(TotalLength(Locals(entries)), 4);
    Pow256Values();
  }

  /** The data of entry `i` is stored as is, right after its 30-byte local header and its
      name. */
  lemma DataAt(entries: seq<ZipEntry>, i: nat, z: seq<bv8>)
    requires i < |entries| && z == ZipBytes(entries)
    ensures At(z, Offset(Locals(entries), i) + 30 + |Utf8.Encode(entries[i].name)|, entries[i].data)
  {
    LocalRecordAt(entries, i, z);
    DataAtPosition(entries, i, z, Offset(Locals(entries), i) + 30 + |Utf8.Encode(entries[i].name)|,
                   entries[i].data);
  }

  /** The same from where the local record of entry `i` sits, with the position and the data
      named by the caller. */
  lemma DataAtPosition(entries: seq<ZipEntry>, i: nat, z: seq<bv8>, k: nat, d: seq<bv8>)
    requires i < |entries| && At(z, Offset(Locals(entries), i), Locals(entries)[i])
    requires k == Offset(Locals(entries), i) + 30 + |Utf8.Encode(entries[i].name)|
    requires d == entries[i].data
    ensures At(z, k, d)
  {
    LocalsIndex(entries, i);
    DataWithinRecord(z, Offset(Locals(entries), i), entries[i], Locals(entries)[i], k, d);
  }

  /** Wherever the local record of an entry sits, its data follows the header and name. */
  lemma DataWithinRecord(z: seq<bv8>, p: nat, e: ZipEntry, l: seq<bv8>, k: nat, d: seq<bv8>)
    requires l == LocalRecord(e) && At(z, p, l)
    requires k == p + 30 + |Utf8.Encode(e.name)| && d == e.data
    ensures At(z, k, d)
  {
    LocalRecordLayout(e, l);
    AtWithin(z, p, l, 30 + |Utf8.Encode(e.name)|, e.data);
  }

  /** With fewer than 2^16 entries, both count fields of the end record are the entry count. */
  lemma EntryCount(entries: seq<ZipEntry>, e: seq<bv8>)
    requires e == EndRecord(entries) && |entries| < 0x1_0000
    ensures |e| == 22 && DecodeLE(e[8..10]) == |entries| && DecodeLE(e[10..12]) == |entries|
  {
    EndRecordFields(entries, e);
    SmallMod(|entries|, 0x1_0000);
  }
}
