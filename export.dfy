/** `exportToExcel`: the five parts of a minimal SpreadsheetML workbook (ECMA-376 Open
    Packaging Conventions), UTF-8 encoded and stored in a ZIP archive by `buildZip`. */
module Export {
  import opened Options
  import opened Backend
  import opened Worksheet
  import Utf8
  import Zip
  import opened LittleEndian

  // `buildWorkbookXml`, `buildWorkbookRels`, `buildContentTypes` and `buildRootRels`: fixed
  // texts, each opened by the same XML declaration as the worksheet. Each is built with `+`,
  // one piece per line of the source's template, so that the verifier does not take the
  // whole text as one literal and unfold every function applied to it character by
  // character.

  const WorkbookXml: string :=
    "<" + DeclarationTag
    + "<workbook xmlns=\"http://schemas.openxmlformats.org/spreadsheetml/2006/main\"\n"
    + "          xmlns:r=\"http://schemas.openxmlformats.org/officeDocument/2006/relationships\">\n"
    + "  <sheets>\n"
    + "    <sheet name=\"Flight Log\" sheetId=\"1\" r:id=\"rId1\"/>\n"
    + "  </sheets>\n"
    + "</workbook>"

  const WorkbookRels: string :=
    "<" + DeclarationTag
    + "<Relationships xmlns=\"http://schemas.openxmlformats.org/package/2006/relationships\">\n"
    + "  <Relationship Id=\"rId1\"\n"
    + "    Type=\"http://schemas.openxmlformats.org/officeDocument/2006/relationships/worksheet\"\n"
    + "    Target=\"worksheets/sheet1.xml\"/>\n"
    + "</Relationships>"

  const ContentTypes: string :=
    "<" + DeclarationTag
    + "<Types xmlns=\"http://schemas.openxmlformats.org/package/2006/content-types\">\n"
    + "  <Default Extension=\"rels\" ContentType=\"application/vnd.openxmlformats-package.relationships+xml\"/>\n"
    + "  <Default Extension=\"xml\" ContentType=\"application/xml\"/>\n"
    + "  <Override PartName=\"/xl/workbook.xml\"\n"
    + "    ContentType=\"application/vnd.openxmlformats-officedocument.spreadsheetml.sheet.main+xml\"/>\n"
    + "  <Override PartName=\"/xl/worksheets/sheet1.xml\"\n"
    + "    ContentType=\"application/vnd.openxmlformats-officedocument.spreadsheetml.worksheet+xml\"/>\n"
    + "</Types>"

  const RootRels: string :=
    "<" + DeclarationTag
    + "<Relationships xmlns=\"http://schemas.openxmlformats.org/package/2006/relationships\">\n"
    + "  <Relationship Id=\"rId1\"\n"
    + "    Type=\"http://schemas.openxmlformats.org/officeDocument/2006/relationships/officeDocument\"\n"
    + "    Target=\"xl/workbook.xml\"/>\n"
    + "</Relationships>"

  // The part names: the content types at the root of the package, the package's
  // relationships, and under `xl/` the workbook, its relationships and its one worksheet.

  const XmlSuffix: string := ".xml"
  const ContentTypesName: string := "[Content_Types]" + XmlSuffix
  const RootRelsName: string := "_rels/" + ".rels"
  const WorkbookName: string := "xl/" + "workbook" + XmlSuffix
  const WorkbookRelsName: string := "xl/" + "_rels/workbook" + XmlSuffix + ".rels"
  const SheetPartName: string := "xl/" + "worksheets/sheet1" + XmlSuffix

  /** `zipEntries` for a worksheet text: each part's name with its text as UTF-8 bytes, the
      worksheet last. */
  function Package(sheet: string): (parts: seq<Zip.ZipEntry>)
    ensures |parts| == 5
  {
    [
      Zip.ZipEntry(ContentTypesName, Utf8.Encode(ContentTypes)),
      Zip.ZipEntry(RootRelsName, Utf8.Encode(RootRels)),
      Zip.ZipEntry(WorkbookName, Utf8.Encode(WorkbookXml)),
      Zip.ZipEntry(WorkbookRelsName, Utf8.Encode(WorkbookRels)),
      Zip.ZipEntry(SheetPartName, Utf8.Encode(sheet))
    ]
  }

  /** `exportToExcel` up to the download: builds the worksheet, the five parts and the
      archive. */
  method ExportToExcel(entries: seq<FlightEntry>) returns (buffer: array<bv8>)
    ensures fresh(buffer) && buffer[..] == Zip.ZipBytes(Package(SheetXml(entries)))
  {
    var sheetXml := BuildSheetXml(entries);
    var zipEntries := [
      Zip.ZipEntry(ContentTypesName, Utf8.Encode(ContentTypes)),
      Zip.ZipEntry(RootRelsName, Utf8.Encode(RootRels)),
      Zip.ZipEntry(WorkbookName, Utf8.Encode(WorkbookXml)),
      Zip.ZipEntry(WorkbookRelsName, Utf8.Encode(WorkbookRels)),
      Zip.ZipEntry(SheetPartName, Utf8.Encode(sheetXml))
    ];
    buffer := Zip.BuildZip(zipEntries);
  }

  /** The bytes of a part decode back to the text they were encoded from. */
  lemma PartDecodes(part: Zip.ZipEntry, text: string)
    requires part.data == Utf8.Encode(text)
    ensures Utf8.Decode(part.data) == Some(text)
  {
    Utf8.DecodeEncode(text);
  }

  /** The first part lists the content types of the package. Its bytes decode back to its text. */
  lemma ContentTypesPart(sheet: string)
    ensures Package(sheet)[0].name == ContentTypesName
    ensures Utf8.Decode(Package(sheet)[0].data) == Some(ContentTypes)
  {
    PartDecodes(Package(sheet)[0], ContentTypes);
  }

  /** The second part relates the package to its workbook. Its bytes decode back to its text. */
  lemma RootRelsPart(sheet: string)
    ensures Package(sheet)[1].name == RootRelsName
    ensures Utf8.Decode(Package(sheet)[1].data) == Some(RootRels)
  {
    PartDecodes(Package(sheet)[1], RootRels);
  }

  /** The third part is the workbook, with its one sheet. Its bytes decode back to its text. */
  lemma WorkbookPart(sheet: string)
    ensures Package(sheet)[2].name == WorkbookName
    ensures Utf8.Decode(Package(sheet)[2].data) == Some(WorkbookXml)
  {
    PartDecodes(Package(sheet)[2], WorkbookXml);
  }

  /** The fourth part relates the workbook to its worksheet. Its bytes decode back to its text. */
  lemma WorkbookRelsPart(sheet: string)
    ensures Package(sheet)[3].name == WorkbookRelsName
    ensures Utf8.Decode(Package(sheet)[3].data) == Some(WorkbookRels)
  {
    PartDecodes(Package(sheet)[3], WorkbookRels);
  }

  /** The worksheet's part name is ASCII: its UTF-8 encoding is one byte per character. */
  lemma SheetNameBytes()
    ensures |Utf8.Encode(SheetPartName)| == |SheetPartName| == 24
  {
    Utf8.AsciiEncode(SheetPartName);
  }

  /** Where the worksheet's bytes start in the archive: after the local records of the four
      fixed parts, the 30-byte local header and the part name. */
  function SheetDataStart(sheet: string): nat {
    Zip.Offset(Zip.Locals(Package(sheet)), 4) + 30 + |SheetPartName|
  }

  /** The archive stores the worksheet's UTF-8 bytes, uncompressed, at `SheetDataStart`. */
  lemma SheetStored(sheet: string, z: seq<bv8>)
    requires z == Zip.ZipBytes(Package(sheet))
    ensures Zip.At(z, SheetDataStart(sheet), Utf8.Encode(sheet))
  {
    SheetPart(sheet);
    Zip.LocalRecordAt(Package(sheet), 4, z);
    Zip.DataAtPosition(Package(sheet), 4, z, SheetDataStart(sheet), Utf8.Encode(sheet));
  }

  /** The fifth part is the worksheet, under its 24-byte name, with bytes that decode back to
      the worksheet's text. */
  lemma SheetPart(sheet: string)
    ensures Package(sheet)[4].name == SheetPartName
    ensures Package(sheet)[4].data == Utf8.Encode(sheet)
    ensures Utf8.Decode(Package(sheet)[4].data) == Some(sheet)
    ensures Zip.Offset(Zip.Locals(Package(sheet)), 4) + 30 + |Utf8.Encode(Package(sheet)[4].name)|
            == SheetDataStart(sheet)
  {
    SheetNameBytes();
    Utf8.DecodeEncode(sheet);
  }

  /** The rows a reader finds in a worksheet text for `entries`: the header row, then one row
      per flight entry, in order, each with its eleven cells. */
  predicate ReadsAsEntries(sheet: string, entries: seq<FlightEntry>) {
    && ReadSheet(sheet).Some? && |ReadSheet(sheet).value| == |entries| + 1
    && ReadSheet(sheet).value[0] == Row(1, CellsOf(Headers, 1))
    && forall i | 0 <= i < |entries| ::
         ReadSheet(sheet).value[i + 1] == Row(i + 2, CellsOf(EntryValues(entries[i]), i + 2))
  }

  /** Cutting as many bytes as the UTF-8 encoding of `text` has out of `z` at `k`, and
      decoding them, gives `text`. */
  predicate DecodesAt(z: seq<bv8>, k: nat, text: string) {
    k + |Utf8.Encode(text)| <= |z| && Utf8.Decode(z[k..k + |Utf8.Encode(text)|]) == Some(text)
  }

  /** Cutting the worksheet's bytes out of the exported archive and decoding them gives the
      worksheet's text, and reading that text gives the header row and then one row per
      flight entry. */
  lemma ExportedRows(entries: seq<FlightEntry>, sheet: string, z: seq<bv8>)
    requires sheet == SheetXml(entries) && z == Zip.ZipBytes(Package(sheet))
    ensures DecodesAt(z, SheetDataStart(sheet), sheet)
    ensures ReadsAsEntries(sheet, entries)
  {
    StoredSheetDecodes(sheet, z);
    SheetRows(entries, sheet);
  }

  /** `SheetContents`, for the worksheet text under its own name. */
  lemma SheetRows(entries: seq<FlightEntry>, sheet: string)
    requires sheet == SheetXml(entries)
    ensures ReadsAsEntries(sheet, entries)
  {
    SheetContents(entries);
  }

  /** The worksheet's bytes, cut out of the archive, decode to the worksheet's text. */
  lemma StoredSheetDecodes(sheet: string, z: seq<bv8>)
    requires z == Zip.ZipBytes(Package(sheet))
    ensures DecodesAt(z, SheetDataStart(sheet), sheet)
  {
    SheetStored(sheet, z);
    DecodeAt(z, SheetDataStart(sheet), sheet);
  }

  /** UTF-8 bytes of a text found at `k` decode back to the text. */
  lemma DecodeAt(z: seq<bv8>, k: nat, text: string)
    requires Zip.At(z, k, Utf8.Encode(text))
    ensures DecodesAt(z, k, text)
  {
    Utf8.DecodeEncode(text);
  }

  /** The end record of the exported archive counts five entries, twice. */
  lemma FiveEntries(sheet: string, e: seq<bv8>)
    requires e == Zip.EndRecord(Package(sheet))
    ensures |e| == 22 && DecodeLE(e[8..10]) == 5 && DecodeLE(e[10..12]) == 5
  {
    Zip.EntryCount(Package(sheet), e);
  }
}
