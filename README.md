# BIFF8 record handlers and the XML document tree of mso-dumper

This project models two parts of mso-dumper, a tool that dumps Microsoft Office
binary files.

**The BIFF8 record handlers of `src/xlsrecord.py`.** Each record handler is a
byte cursor over one record of an Excel 97–2003 workbook stream (a
`globals.ByteStream`). It decodes its record step by step with little-endian
reads. Its `fillModel` then hands the decoded values to a workbook model.

The model mirrors that shape:
- `Stream.ByteStream` is a class with the record's bytes and a mutable
  position. Its reads fail with `BufferUnderrun` instead of reading past the
  end.
- Every handler is a method over such a cursor. Each is proved equal to a pure
  layout function of the record's bytes (`…Layout`, `…At`).
- Lemmas about the layout functions carry the properties:
  - round trips (decoding an encoded record gives it back);
  - the number of bytes each part takes;
  - where every flag bit comes from;
  - what happens to truncated or malformed records.
- Every `fillModel` is a method over `Workbook.Model`. That class records the
  setter calls it receives as a sequence of `ModelOp` values, and each
  `Fill…` method states exactly which calls it appends.

The handlers modelled:
- the RK number codec `decodeRK`;
- the helpers of `BaseRecordHandler`, including the word wrap
  `appendMultiLine`;
- AUTOFILTER with its DOPER condition slots;
- ROW, MULRK, MULBLANK, HORIZONTALPAGEBREAKS, DBCELL and SXIVD;
- CONDFMT and CF, with the DXFN block of CF;
- DV;
- OBJ and its FtCmo field;
- XF, in its cell and cell-style layouts;
- NAME;
- SUPBOOK, EXTERNSHEET, EXTERNNAME (including its cached MOPER values) and CRN.

**The document tree of `msodumper/node.py`.** The tree is modelled as follows:
- `DocTree.Node` is a heap class with a children list, a parent link, an
  attribute map and a content flag, modelled as mutable fields. A ghost `Repr`
  footprint keeps the tree acyclic.
- `XmlText` models `encodeString`, which escapes the five characters of the
  XML 1.0 predefined entities (section 4.6 of the XML 1.0 Recommendation), and
  `convertAttrValue`.
- `Printer` models the pretty-printer `printNode` as a method that returns the
  text it would write. It is proved equal to a recursive specification.

Four places in the code as written depart from the layouts of MS-XLS (see
"## Findings"): `decodeRK` in MULRK, the AUTOFILTER item count and untyped
slots, and the right colour of a cell-style XF. The handlers concerned take a
flag `corrected`: `false` models the code as written, `true` the evidently
intended reading. Lemmas state what each reading does and where the two
agree.

External collaborators whose source is not part of this model are parameters
(`Collab.Collaborators`):
- the text readers `getRichText`, `getUnicodeRichExtText` and
  `readUnicodeString`;
- `encodeName`, `getTextBytes` and `getValueOrUnknown`;
- the formula parser.

Each text reader returns a text and the number of bytes it consumed. A handler
fails with `BufferUnderrun` when that number exceeds the bytes left.

## Model

| member | source | states |
|---|---|---|
| RK.RKFlags | src/xlsrecord.py:70-73 | bit 0 of the RK word is the divide-by-100 flag, bit 1 the integer flag, and `auxData` records exactly these two bits |
| RK.IntegerBranchAsWritten | src/xlsrecord.py:75-77 | as written, the integer branch yields `(rk & 0xFFFFFFFC) / 4`, i.e. bits 2..31 read unsigned |
| RK.FloatBranch | src/xlsrecord.py:78-84 | the floating branch puts bits 2..31 above two zero bits in the upper 32-bit word of an IEEE-754 pattern whose low 34 bits are zero; both readings agree there |
| RK.IntegerBranch | src/xlsrecord.py:75-77 | the corrected integer branch is the signed 30-bit reading of bits 2..31 |
| RK.DecodeByFields | src/xlsrecord.py:70-93 | the decoded number depends only on the two flag bits and the 30-bit field |
| RK.DecodeWord | src/xlsrecord.py:70-93 | a word `hi * 4 + lo` decodes by its two low bits alone: integer when `lo >= 2`, divided by 100 when `lo` is odd, with the low 30 bits of `hi` as payload |
| RK.DecodeEncodeInteger | src/xlsrecord.py:70-93 | every 30-bit signed integer with either flag survives encode then decode |
| RK.DecodeEncodeFloat | src/xlsrecord.py:70-93 | every double pattern with 34 zero low bits survives encode then decode |
| RK.SignedAgreesWhenSmall | src/xlsrecord.py:75-77 | the two integer readings agree on non-negative values below 2^29 |
| RK.MinusOneAsWritten | src/xlsrecord.py:75-77 | the word 0xFFFFFFFE decodes to 0x3FFFFFFF as written and to -1 corrected |
| RK.ReadingsAgree | src/xlsrecord.py:70-93 | the as-written and the corrected decoding give the same number exactly unless the word is an integer whose 30-bit field has its top bit set |
| RK.Signed30 | src/xlsrecord.py:75-77 | a 30-bit field reads as a number in [-2^29, 2^29) |
| RK.EncodeRKInteger | src/xlsrecord.py:70-93 | the RK word of an integer fits 32 bits |
| RK.EncodeRKFloat | src/xlsrecord.py:70-93 | the RK word of a double pattern fits 32 bits |
| Format.HexRoundTrip | src/xlsrecord.py:131-132 | reading a `%w.wX` hex number gives the number back whatever the padding |
| Format.HexWidth | src/xlsrecord.py:131-132 | a value below 16^w prints with exactly w hex digits |
| Format.HexDigitsOnly | src/xlsrecord.py:131-132 | every character of a formatted hex number is a hex digit |
| Format.DecimalRoundTrip | msodumper/node.py:159-160 | `%d` read back gives the integer, negative ones included |
| Format.ValueOfDigits | src/xlsrecord.py:131-132 | the digits of a number in base 10 or 16 denote that number |
| Format.Digits | src/xlsrecord.py:131-132 | at least one digit, all of them digits of the base |
| Handler.HeaderStrWidth | src/xlsrecord.py:131-132 | a 16-bit record id gives the 7-character prefix `XXXXh: ` whose four digits read back as the id |
| Handler.GetYesNo | src/xlsrecord.py:172-176 | "yes" exactly when true, "no" exactly when false |
| Handler.GetBoolVal | src/xlsrecord.py:190-194 | the true string for true, the false string for false |
| Handler.ReadLongRGB | src/xlsrecord.py:200-205 | reads three colour bytes and skips one; fails with the cursor's error when fewer than 4 bytes remain |
| Handler.ReadICV | src/xlsrecord.py:207-208 | reads one 16-bit colour index |
| Handler.Words | src/xlsrecord.py:150-162 | `split()` yields non-empty runs of non-whitespace |
| Handler.WordsOfSpaced | src/xlsrecord.py:150-162 | splitting words joined by single spaces gives the words back |
| Handler.Wrap | src/xlsrecord.py:150-162 | the wrapped lines concatenate to every word followed by one space; each line is one run of whole consecutive words, each followed by one space, and the runs in order are exactly the words of the line; a line longer than the width holds one word; only the first line (and its run) can be empty, and it is empty exactly when the first word alone overflows |
| Handler.WrapWords | src/xlsrecord.py:154-159 | after the loop, the finished lines and the current line keep both loop invariants for all the words |
| Handler.RunsBreak | src/xlsrecord.py:156-158 | an overflowing word closes the current run of words as a line and starts a new run |
| Handler.RunsExtend | src/xlsrecord.py:155-159 | a word that fits extends the current run |
| Handler.RunsEnd | src/xlsrecord.py:161-162 | closing the last non-empty run after the loop leaves runs that are exactly the words, one per line |
| Handler.WrapEnd | src/xlsrecord.py:161-162 | appending the last non-empty line after the loop gives all the words, no empty line but possibly the first, and an overflowing line only for a single word |
| Handler.FlattenAppend | src/xlsrecord.py:154-159 | the words of the runs followed by one more run are the runs' words followed by that run |
| Handler.WrapKeepsWords | src/xlsrecord.py:150-162 | wrapping loses no words and keeps their order |
| Handler.WrapBreak | src/xlsrecord.py:156-158 | an overflowing word finishes the current line and starts the next |
| Handler.WrapExtend | src/xlsrecord.py:159-160 | a word that fits is added to the current line |
| Handler.WrapFinish | src/xlsrecord.py:161-162 | the last non-empty line is appended after the loop |
| Handler.AppendMultiLine | src/xlsrecord.py:150-162 | earlier output untouched; the new lines are runs of whole consecutive words, each followed by one space, that together are every word in order, only the first of which can be empty, and it is empty exactly when the first word alone overflows that width (the appended empty current line); a line overflows the width left after the record prefix only when it holds one word |
| Stream.LEOfToLE | src/xlsrecord.py:108-111 | little-endian encoding of a value that fits n bytes reads back as the value |
| Stream.ToLEOfLE | src/xlsrecord.py:108-111 | little-endian reading of n bytes re-encodes to the same bytes |
| Stream.UIntAt | src/xlsrecord.py:108-111 | an n-byte value placed after any prefix is read back at that offset |
| Stream.SInt | src/xlsrecord.py:108-111 | a signed n-byte read lies in the two's-complement range |
| Stream.ByteStream.ReadUnsignedInt | src/xlsrecord.py:108-111 | succeeds exactly when n bytes remain, then advances by n and returns the little-endian value; otherwise `BufferUnderrun` with the position unchanged |
| Stream.ByteStream.ReadSignedInt | src/xlsrecord.py:108-111 | as above, two's-complement value |
| Stream.ByteStream.ReadDouble | src/xlsrecord.py:108-111 | as above for 8 bytes, returning the IEEE-754 bit pattern |
| Stream.ByteStream.ReadBytes | src/xlsrecord.py:108-111 | as above, returning the n bytes |
| Stream.ByteStream.ReadRemainingBytes | src/xlsrecord.py:108-111 | returns the bytes after the position and moves to the end |
| Stream.ByteStream.MoveForward | src/xlsrecord.py:108-111 | advances by n exactly when n bytes remain |
| Stream.ByteStream.SetCurrentPos | src/xlsrecord.py:108-111 | the position becomes the given one |
| Stream.ByteStream.MoveBack | src/xlsrecord.py:108-111 | the position goes back by n |
| Stream.ByteStream.constructor | src/xlsrecord.py:110-111 | a new cursor over the bytes starts at position 0 |
| Collab.ReadUnicodeString | src/xlsrecord.py:807-810 | succeeds exactly when the collaborator consumes no more bytes than remain, then returns its text and advances by what it consumed |
| Workbook.LastSupbook | src/xlsrecord.py:2014 | there is a last SUPBOOK exactly when one was appended |
| Workbook.Model.Perform | src/xlsrecord.py:124-128 | a setter call is appended to the recorded calls |
| Workbook.Model.constructor | src/xlsrecord.py:124-128 | a new model has recorded no calls |
| Autofilter.AutofilterFlags | src/xlsrecord.py:359-368 | join, simple1/2, top10, top and percent are the masked flag bits; the corrected item count is bits 7..15 |
| Autofilter.ItemCountAsWritten | src/xlsrecord.py:368 | as written, the item count is `(flag & 0xFF80) / 14` |
| Autofilter.ItemCountCounterexample | src/xlsrecord.py:368 | flag 0x0080 gives 9 items as written and 1 corrected |
| Autofilter.ItemCountMask | src/xlsrecord.py:368 | `0x80 & 0xFF80 == 0x80` |
| Autofilter.EncodeDoper | src/xlsrecord.py:331-357 | every encoded condition slot is 10 bytes |
| Autofilter.DoperRoundTrip | src/xlsrecord.py:331-357 | a typed slot (RK, number, string, bool/error) takes exactly 10 bytes with its tag and decodes back |
| Autofilter.AutofilterRoundTrip | src/xlsrecord.py:359-379 | an encoded record with two slots and the string bytes of each string condition, first before second, decodes back |
| Autofilter.AutofilterParts | src/xlsrecord.py:359-379 | the header words and both slots sit at offsets 0, 2, 4 and 14 of an encoded record |
| Autofilter.AutofilterOfSlots | src/xlsrecord.py:369-379 | with both slots decoded, the string texts are read after byte 24, the first condition's first |
| Autofilter.UnusedSlotCounterexample | src/xlsrecord.py:354-356 | after an untyped slot the handler as written skips 11 bytes and misreads the next slot; the corrected reading keeps the string condition |
| Autofilter.ReadDoper | src/xlsrecord.py:331-357 | reading one slot succeeds exactly when its bytes remain and yields the slot's decoding; as written it consumes 10 bytes for a typed tag and 11 for any other, corrected always 10 |
| Autofilter.ReadDopers | src/xlsrecord.py:369-370 | the two slots read one after the other from offset 4, in the chosen reading, failing exactly when either does not fit |
| Autofilter.ReadingsAgreeOnTypedSlots | src/xlsrecord.py:331-379 | when both slots carry a typed tag, the as-written and the corrected reading fail on the same records and agree on everything but the item count |
| Autofilter.ReadRKDoper | src/xlsrecord.py:333-337 | sign byte, 4-byte RK value, 4 skipped bytes |
| Autofilter.ReadNumberDoper | src/xlsrecord.py:338-341 | sign byte and 8-byte double pattern |
| Autofilter.ReadStringDoper | src/xlsrecord.py:342-347 | sign byte, 4 skipped, length byte, 3 skipped |
| Autofilter.ReadBooleanDoper | src/xlsrecord.py:348-353 | sign, flag and value bytes, 6 skipped |
| Autofilter.ParseAutofilter | src/xlsrecord.py:359-379 | the handler's result is the record's decoding in the chosen reading: as written (item count divided by 14, untyped slots of 11 bytes) or corrected |
| Autofilter.ReadConditionTexts | src/xlsrecord.py:370-379 | reads the first string condition's bytes, then the second's, and fails exactly when they do not remain |
| Autofilter.FillAutofilter | src/xlsrecord.py:404-413 | in the chosen reading, sets exactly the active auto-filter arrow of the decoded column with the condition texts, or nothing when the record is malformed |
| Cells.RowFlags | src/xlsrecord.py:1499-1515 | row height, default-height flag, outline level and the four row flags are the masked bits of the two flag words |
| Cells.HeightWord | src/xlsrecord.py:1504-1506 | the 0x7FFF and 0x8000 masks recover a packed height and flag |
| Cells.OutlineWord | src/xlsrecord.py:1510-1515 | the masks 0x0007, 0x0010, 0x0020, 0x0040 and 0x0080 recover packed outline fields |
| Cells.OutlineFields | src/xlsrecord.py:1510-1515 | the packed outline word holds each field at its bit offset |
| Cells.RowRoundTrip | src/xlsrecord.py:1499-1515 | an encoded ROW decodes back, whatever follows its 14 bytes |
| Cells.ParseRow | src/xlsrecord.py:1499-1515 | the handler's result is the layout of the bytes and it consumes 14 bytes |
| Cells.RowHiddenExactly | src/xlsrecord.py:1536-1543 | the row is set hidden exactly when the zero-height bit is set, and its height is always set last |
| Cells.FillRow | src/xlsrecord.py:1536-1543 | appends exactly the row's setter calls, nothing on a malformed record |
| Cells.RKRecFields | src/xlsrecord.py:1107-1112 | one MULRK entry is 6 bytes: XF index then RK word |
| Cells.MulRKFixed | src/xlsrecord.py:1104-1115 | header, entries and last column sit at offsets 0, 4 and 4 + 6n |
| Cells.MulRKRoundTrip | src/xlsrecord.py:1104-1115 | an encoded MULRK with up to 5 trailing bytes decodes back: `(size − 6) / 6` entries |
| Cells.ParseMulRK | src/xlsrecord.py:1104-1115 | the handler's result is the layout and it consumes 6 + 6n bytes |
| Cells.MulRKCells | src/xlsrecord.py:1125-1133 | call i sets column col1 + i of the record's row to entry i's RK number decoded in the chosen reading; one call per entry, columns strictly increasing, and exactly the columns col1..col2 when the entry count matches them |
| Cells.FillMulRK | src/xlsrecord.py:1125-1133 | appends exactly those calls, with `decodeRK` as written or corrected, and nothing on a malformed record |
| Cells.MulBlankRoundTrip | src/xlsrecord.py:1137-1147 | an encoded MULBLANK decodes back: the last word is col2, the earlier ones the XF cells in order |
| Cells.MulBlankTrailingByte | src/xlsrecord.py:1137-1147 | an odd trailing byte makes the word loop run out of bytes |
| Cells.ParseMulBlank | src/xlsrecord.py:1137-1147 | the handler's result is the layout and it ends at the end of the record |
| Cells.HorBreaksRoundTrip | src/xlsrecord.py:1025-1032 | an encoded HORIZONTALPAGEBREAKS decodes back: the count then 6-byte triples |
| Cells.HorBreaksShort | src/xlsrecord.py:1025-1032 | one byte short of the stated count fails with `BufferUnderrun` |
| Cells.BreakPartsWidth | src/xlsrecord.py:1027-1032 | each triple takes 6 bytes |
| Cells.ParseHorBreaks | src/xlsrecord.py:1025-1032 | the handler's result is the layout and it consumes 2 + 6n bytes |
| Cells.DBCellRoundTrip | src/xlsrecord.py:1437-1444 | an encoded DBCELL decodes back |
| Cells.DBCellOdd | src/xlsrecord.py:1437-1444 | a record shorter than 4 bytes or with an odd tail fails with `BufferUnderrun` |
| Cells.DBCellEven | src/xlsrecord.py:1437-1444 | the offsets are the 16-bit words after the first 4 bytes, read to the end |
| Cells.ParseDBCell | src/xlsrecord.py:1437-1444 | the handler's result is the layout and it ends at the end of the record |
| Cells.SXIvdRoundTrip | src/xlsrecord.py:2468-2472 | `size / 2` signed 16-bit ids are read, a trailing odd byte ignored |
| Cells.ParseSXIvd | src/xlsrecord.py:2468-2472 | the handler's ids are the layout and it consumes 2 bytes per id |
| Cf.RefsRoundTrip | src/xlsrecord.py:55-62 | encoded 8-byte ranges read back |
| Cf.RefPartsWidth | src/xlsrecord.py:55-62 | each range takes 8 bytes |
| Cf.ReadRef8U | src/xlsrecord.py:55-62 | reads row1, row2, col1, col2 as 16-bit words |
| Cf.ReadRefs | src/xlsrecord.py:701-704 | n ranges take exactly 8n bytes |
| Cf.CondFmtFlags | src/xlsrecord.py:694-700 | the tough-recalc bit is bit 0 and the record id bits 1..7 of the flag word |
| Cf.CondFmtFlagWordFields | src/xlsrecord.py:697-700 | the masks 0x01 and 0xFE recover a packed flag word |
| Cf.CondFmtRoundTrip | src/xlsrecord.py:694-704 | an encoded CONDFMT decodes back |
| Cf.CondFmtShort | src/xlsrecord.py:694-704 | one byte short of the stated range count fails with `BufferUnderrun` |
| Cf.ParseCondFmt | src/xlsrecord.py:694-704 | the handler's result is the layout and it consumes 14 + 8n bytes |
| Cf.FillCondFmt | src/xlsrecord.py:717-728 | sets exactly one conditional format whose range is the record's bounding range, or nothing when the record is malformed |
| Cf.NumAt | src/xlsrecord.py:588-599 | the number block never reads beyond the record |
| Cf.FontAt | src/xlsrecord.py:601-625 | the font block never reads beyond the record |
| Cf.DXFNAt | src/xlsrecord.py:549-641 | the DXFN structure never reads beyond the record |
| Cf.DXFNBlocksAt | src/xlsrecord.py:588-641 | the optional blocks never read beyond the record |
| Cf.DXFNGating | src/xlsrecord.py:575-641 | each optional block is present exactly when its `ibitAtr` bit (0x02000000 … 0x40000000) is set, in the order number, font, alignment (8), border (8), pattern (4), protection (2); the number block is 2 bytes or a length and that many bytes when `fIfmtUser` is set |
| Cf.FontNameTooLongRefused | src/xlsrecord.py:603-612 | a font name taking more than 63 bytes fails with `FontNameTooLong` |
| Cf.FormulasAt | src/xlsrecord.py:546-547 | the two formulas are read exactly when their sizes remain |
| Cf.CFFormulas | src/xlsrecord.py:539-547 | the formulas follow the DXFN structure with the sizes given in the header |
| Cf.ReadNumBlock | src/xlsrecord.py:588-599 | the method reads what `NumAt` describes |
| Cf.ReadFontName | src/xlsrecord.py:603-612 | a zero length reads no name; otherwise the collaborator's text, moving by the bytes it consumed |
| Cf.SkipFontWords | src/xlsrecord.py:615-625 | the fixed font fields take 34 bytes after the 16 attribute bytes |
| Cf.ReadFontBlock | src/xlsrecord.py:601-625 | the method reads what `FontAt` describes |
| Cf.ReadNumPart | src/xlsrecord.py:588-599 | the number block only when present |
| Cf.ReadFontPart | src/xlsrecord.py:601-625 | the font block only when present |
| Cf.SkipFixedBlocks | src/xlsrecord.py:627-641 | skips 8, 8, 4 and 2 bytes for each present fixed block |
| Cf.ParseDXFN | src/xlsrecord.py:549-641 | the method reads what `DXFNAt` describes |
| Cf.ParseDXFNBlocks | src/xlsrecord.py:588-641 | the method reads what `DXFNBlocksAt` describes |
| Cf.ParseDXFNRest | src/xlsrecord.py:601-641 | the method reads the blocks after the number block |
| Cf.ParseCF | src/xlsrecord.py:539-547 | the handler's result is the layout function of the record |
| Cf.ReadFormulas | src/xlsrecord.py:546-547 | the method reads what `FormulasAt` describes |
| Dv.DvFlagFields | src/xlsrecord.py:796-805 | each decoded field is the masked and shifted part of the flag word |
| Dv.DvPackFields | src/xlsrecord.py:796-805 | the packed flag word holds each field at its offset |
| Dv.DvFlagsRoundTrip | src/xlsrecord.py:796-805 | packed flags decode back |
| Dv.StringAt | src/xlsrecord.py:807-810 | a string read never goes beyond the record |
| Dv.FormulaAt | src/xlsrecord.py:812-826 | a formula takes its 2-byte length, 2 ignored bytes and that many bytes |
| Dv.DvFrontAt | src/xlsrecord.py:796-826 | the part before the ranges stays inside the record |
| Dv.RangesAt | src/xlsrecord.py:830-838 | the range list takes 2 + 8n bytes |
| Dv.RangesRoundTrip | src/xlsrecord.py:830-838 | encoded ranges read back |
| Dv.RangesShort | src/xlsrecord.py:830-838 | one byte short of the stated count fails with `BufferUnderrun` |
| Dv.DvRanges | src/xlsrecord.py:795-838 | the ranges of the record are those after the front part |
| Dv.ReadRanges | src/xlsrecord.py:830-838 | the method reads what `RangesAt` describes |
| Dv.ReadFormula | src/xlsrecord.py:812-826 | the method reads what `FormulaAt` describes |
| Dv.ReadString | src/xlsrecord.py:807-810 | the method reads what `StringAt` describes |
| Dv.ParseDvFront | src/xlsrecord.py:796-826 | the method reads what `DvFrontAt` describes |
| Dv.ParseDv | src/xlsrecord.py:795-838 | the handler's result is the layout function of the record |
| Dv.Validation | src/xlsrecord.py:868-885 | the validation object holds the ranges in order with their rows and columns |
| Dv.FillDv | src/xlsrecord.py:868-885 | sets exactly one data validation, nothing on a malformed record |
| Obj.NextField | src/xlsrecord.py:1235-1247 | a field fails exactly when its header or declared payload is cut short; type 0 ends the loop |
| Obj.FieldsRoundTrip | src/xlsrecord.py:1235-1292 | encoded fields followed by an end field or the end of the record read back: every non-Cmo field takes its declared size, a well-formed Cmo 18 bytes, a Cmo of another size is skipped by that size |
| Obj.ObjRoundTrip | src/xlsrecord.py:1235-1247 | the same from the start of the record |
| Obj.FieldsFromStep | src/xlsrecord.py:1236-1247 | one field is decoded and the loop continues after it |
| Obj.CmoStep | src/xlsrecord.py:1256-1263 | a Cmo field of size 18 reads 2+2+2+4+4+4 bytes |
| Obj.BadCmoStep | src/xlsrecord.py:1250-1254 | a Cmo field of another size is skipped by its size |
| Obj.RawStep | src/xlsrecord.py:1245-1247 | any other field takes its declared size |
| Obj.CmoFlagBits | src/xlsrecord.py:1277-1291 | each Cmo flag is its masked bit |
| Obj.CmoTypeNames | src/xlsrecord.py:1230-1233 | ids beyond the 31 known types are named `(unknown) (0x..)` with the id in hex |
| Obj.ParseCmo | src/xlsrecord.py:1249-1263 | reads exactly `size` bytes; a size other than 18 gives a bad-Cmo field |
| Obj.ReadField | src/xlsrecord.py:1237-1247 | the method reads what `NextField` describes |
| Obj.ParseObj | src/xlsrecord.py:1235-1247 | the handler's result is the layout function of the record |
| Xf.HeaderFields | src/xlsrecord.py:2247-2257 | alignment, wrap, rotation, indent, shrink and reading order are the masked bits of the three header bytes |
| Xf.BorderFields | src/xlsrecord.py:2259-2266 | the four border styles are the nibbles of two bytes |
| Xf.AttrBits | src/xlsrecord.py:2271-2281 | the six `atr` flags are bits 2..7 of the attribute byte |
| Xf.ColorFields | src/xlsrecord.py:2286-2294 | the cell-style colours: left bits 0..6 and diagonal bits 14..15 in both readings; right bits 7..10 as written and 7..13 corrected |
| Xf.RightColorLowBits | src/xlsrecord.py:2292 | the as-written right colour is the seven-bit colour modulo 16 |
| Xf.RightColorCounterexample | src/xlsrecord.py:2292 | the word 0x0800 has right colour 16 but the mask 0x0780 gives 0 |
| Xf.XFFlags | src/xlsrecord.py:2296-2315 | in either reading, bit 2 of the flag word selects the 8-byte cell-style layout, otherwise the 6-byte cell layout; `cellStyleXFIndex == (flags & 0xFFF0) >> 4`; the record decodes exactly when those bytes remain |
| Xf.HeaderRoundTrip | src/xlsrecord.py:2247-2257 | encoded header bytes decode back |
| Xf.BordersRoundTrip | src/xlsrecord.py:2259-2266 | encoded border bytes decode back |
| Xf.DataRoundTrip | src/xlsrecord.py:2268-2294 | either layout decodes back from its bytes in the corrected reading; as written it does so exactly when it is a cell layout or its right colour is below 16, and otherwise the right colour comes back modulo 16 |
| Xf.CellRoundTrip | src/xlsrecord.py:2271-2281 | the 6-byte cell layout decodes back in both readings |
| Xf.StyleRoundTrip | src/xlsrecord.py:2286-2294 | the 8-byte cell-style layout decodes back corrected, and as written with the right colour modulo 16, which is a round trip exactly when that colour is below 16 |
| Xf.XFRoundTrip | src/xlsrecord.py:2296-2315 | an encoded XF decodes back, whatever follows, in the corrected reading; as written exactly when it is a cell XF or its right colour is below 16 |
| Xf.EncodedFields | src/xlsrecord.py:2296-2315 | in either reading, an encoded XF decodes to itself except that its data is whatever the data bytes at offset 6 decode to |
| Xf.LayoutOfData | src/xlsrecord.py:2296-2315 | a record that reads back the words of an XF decodes to it exactly when its data does |
| Xf.EncodeData | src/xlsrecord.py:2268-2294 | the cell layout is 6 bytes, the cell-style layout 8 |
| Xf.BorderStyleNames | src/xlsrecord.py:2237-2241 | 14 named border styles; values of 14 and above print `(unknown)` |
| Xf.ReadHeaderBytes | src/xlsrecord.py:2247-2257 | reads 3 bytes |
| Xf.ReadBorderStyles | src/xlsrecord.py:2259-2266 | reads 2 bytes |
| Xf.ReadCellXF | src/xlsrecord.py:2271-2281 | reads 3 header bytes, 1 attribute byte and 2 border bytes |
| Xf.ReadCellStyleXF | src/xlsrecord.py:2286-2294 | reads 3 header bytes, skips 1, reads 2 border bytes and 2 colour bytes, and decodes the right colour with the mask 0x0780 as written or 0x3F80 corrected |
| Xf.ParseXF | src/xlsrecord.py:2296-2315 | the handler's result is the layout in the chosen reading and it consumes 6 plus the layout's size |
| Name.NameFlagBits | src/xlsrecord.py:1628-1645 | each NAME option flag is its masked bit and the function group bits 6..11 |
| Name.NameFlagsRoundTrip | src/xlsrecord.py:1628-1645 | packed option flags decode back |
| Name.NameHeaderRoundTrip | src/xlsrecord.py:1628-1656 | the 14-byte header fields read back from an encoded record |
| Name.NameRoundTrip | src/xlsrecord.py:1628-1661 | an encoded NAME decodes back when the text reader returns its name |
| Name.NameFilterRange | src/xlsrecord.py:1694-1700 | a filter range is set exactly for a built-in name `\x0D`, for sheet `sheetId - 1` with the token bytes |
| Name.ReadNameLead | src/xlsrecord.py:1628-1634 | reads the flag word, key byte, name length and formula length |
| Name.ReadNameLengths | src/xlsrecord.py:1635-1640 | reads the sheet id and the four text lengths |
| Name.ReadNameHeader | src/xlsrecord.py:1628-1640 | reads 14 bytes |
| Name.ParseName | src/xlsrecord.py:1628-1661 | the handler's result is the layout function of the record |
| Name.FillName | src/xlsrecord.py:1694-1700 | appends exactly the name's setter calls |
| External.NamesFrom | src/xlsrecord.py:1717-1726 | reading from a non-empty remainder that succeeds yields at least one more name |
| External.SupBookLayout | src/xlsrecord.py:1710-1726 | an external SUPBOOK has at least one name |
| External.SupBookKinds | src/xlsrecord.py:1750-1765 | a self reference appends a self supbook, an add-in an empty one, any other type an external one with the URL and the sheet names |
| External.NamesRoundTrip | src/xlsrecord.py:1717-1726 | names read back in order until the end of the record |
| External.SupBookExternalRoundTrip | src/xlsrecord.py:1710-1726 | an external SUPBOOK decodes back, its names read from offset 2 |
| External.SupBookSelfRoundTrip | src/xlsrecord.py:1710-1715 | a self reference keeps no names |
| External.ReadSupBookNames | src/xlsrecord.py:1717-1726 | the method reads what `NamesFrom` describes |
| External.ParseSupBook | src/xlsrecord.py:1710-1726 | the handler's result is the layout function of the record |
| External.FillSupBook | src/xlsrecord.py:1750-1765 | appends exactly one supbook, nothing on a malformed record |
| External.ExternSheetOps | src/xlsrecord.py:1784-1788 | one call per triple, in record order |
| External.ExternSheetRoundTrip | src/xlsrecord.py:1770-1777 | an encoded EXTERNSHEET decodes back |
| External.XtiPartsWidth | src/xlsrecord.py:1773-1777 | each triple takes 6 bytes |
| External.ExternSheetShort | src/xlsrecord.py:1770-1777 | one byte short of the stated count fails with `BufferUnderrun` |
| External.ParseExternSheet | src/xlsrecord.py:1770-1777 | the handler's result is the layout and it consumes 2 + 6n bytes |
| External.FillExternSheet | src/xlsrecord.py:1784-1788 | appends exactly the triples' calls |
| ExternName.ExternNameFlagBits | src/xlsrecord.py:1857-1868 | each EXTERNNAME flag is its masked bit and the clipboard format bits 5..14 |
| ExternName.ExternNameFlagsRoundTrip | src/xlsrecord.py:1857-1868 | packed flags decode back |
| ExternName.ExternNameHeader | src/xlsrecord.py:1857-1884 | the 7-byte header reads back: flags, storage id or supbook id, name length |
| ExternName.ExternNameRoundTrip | src/xlsrecord.py:1857-1885 | an encoded EXTERNNAME decodes back, OLE links with their MOPER cache and defined names with their tokens |
| ExternName.ParseExternName | src/xlsrecord.py:1857-1885 | the handler's result is the layout function of the record |
| ExternName.MOperValueAt | src/xlsrecord.py:1813-1836 | a value takes its tag and 8 bytes unless it is a string, which takes its tag and the string; unknown tags are nil |
| ExternName.MOperValuesCount | src/xlsrecord.py:1811-1836 | n values are read, in order |
| ExternName.MOperCount | src/xlsrecord.py:1807-1836 | a MOPER holds `(lastCol + 1) * (lastRow + 1)` values |
| ExternName.MOperValuesRoundTrip | src/xlsrecord.py:1811-1836 | encoded values read back in order |
| ExternName.MOperRoundTrip | src/xlsrecord.py:1807-1836 | an encoded MOPER decodes back |
| ExternName.FixedValueBlock | src/xlsrecord.py:1815-1836 | a number, boolean, error or nil value reads back from its 9 bytes |
| ExternName.StringValueBlock | src/xlsrecord.py:1819-1822 | a string value reads back from its tag and the string |
| ExternName.ReadMOperValue | src/xlsrecord.py:1813-1836 | the method reads what `MOperValueAt` describes |
| ExternName.ReadMOperValues | src/xlsrecord.py:1811-1836 | the loop reads what `MOperValuesFrom` describes |
| ExternName.ParseMOper | src/xlsrecord.py:1807-1836 | the method's result is the MOPER layout of the bytes |
| Crn.CellAt | src/xlsrecord.py:1955-1984 | a cell's type id is its tag byte; fixed cells take 9 bytes; a string cell takes its tag and the rich text; an unknown tag is the error `UnknownCrnValueType` |
| Crn.CellsCount | src/xlsrecord.py:1954-1984 | n cells are read, in order |
| Crn.CellsFail | src/xlsrecord.py:1954-1984 | a failing cell fails the record with its error |
| Crn.CrnCount | src/xlsrecord.py:1949-1984 | a CRN holds `lastCol - firstCol + 1` cells, or 0 when lastCol < firstCol, as `xrange` gives |
| Crn.CrnUnknownTag | src/xlsrecord.py:1981-1984 | an unknown first tag fails the record |
| Crn.CellsRoundTrip | src/xlsrecord.py:1954-1984 | encoded cells read back in order |
| Crn.CrnRoundTrip | src/xlsrecord.py:1949-1984 | an encoded CRN decodes back |
| Crn.FixedCellBlock | src/xlsrecord.py:1957-1980 | a number, boolean or error cell reads back from its tag and 8 bytes |
| Crn.StringCellBlock | src/xlsrecord.py:1964-1971 | a string cell reads back from its tag and the rich text, its text passed through `encodeName` |
| Crn.CellOpsAt | src/xlsrecord.py:2018-2022 | cell i is set at column firstCol + i of the row with its type id and value |
| Crn.CrnColumns | src/xlsrecord.py:2012-2022 | with an external last supbook, one call per column from firstCol to lastCol; otherwise none |
| Crn.ReadCell | src/xlsrecord.py:1955-1984 | the method reads what `CellAt` describes |
| Crn.ReadCells | src/xlsrecord.py:1954-1984 | the loop reads what `CellsFrom` describes |
| Crn.ParseCrn | src/xlsrecord.py:1949-1984 | the handler's result is the layout function of the record |
| Crn.FillCrn | src/xlsrecord.py:2012-2022 | appends exactly the calls `CrnEffect` gives for the last supbook recorded so far |
| DocTree.Node.Root | msodumper/node.py:72-74 | a new root has no parent, children, content or attributes |
| DocTree.Node.Element | msodumper/node.py:81-87 | a new element has its name and the attributes given to it, no parent and no children |
| DocTree.Node.Content | msodumper/node.py:76-79 | a new content node holds its text |
| DocTree.Node.AppendChild | msodumper/node.py:32-34 | the node becomes the last child, its parent the receiver, earlier children untouched |
| DocTree.Node.AppendElement | msodumper/node.py:36-39 | the new element is returned and is the last child |
| DocTree.Node.AppendContent | msodumper/node.py:44-48 | a content child with the text is appended and `hasContent()` becomes true |
| DocTree.Node.FirstChildByName | msodumper/node.py:59-63 | the first Element child with the name, or none exactly when there is none |
| DocTree.Node.GetChildByName | msodumper/node.py:65-70 | exactly the Element children with the name, in order |
| DocTree.NamedSpec | msodumper/node.py:65-70 | membership in the result is exactly "an Element child with the name", and results of prefixes are prefixes |
| DocTree.FirstIsNamedHead | msodumper/node.py:59-63 | the first match is the head of the by-name list |
| DocTree.NoneNamed | msodumper/node.py:59-70 | no match gives an empty list |
| DocTree.Node.GetContent | msodumper/node.py:89-101 | the children's texts joined with single spaces: content children give their text, element children their own content |
| DocTree.JoinSnoc | msodumper/node.py:89-101 | joining one more piece adds a space and the piece |
| DocTree.SplitJoin | msodumper/node.py:89-101 | space-free pieces are recovered from their join |
| DocTree.LastSpace | msodumper/node.py:89-101 | the position of the last space, or the length when there is none |
| DocTree.Node.GetAttr | msodumper/node.py:103-106 | the stored value, or `None` for an absent key |
| DocTree.Node.SetAttr | msodumper/node.py:108-109 | the attribute map is updated at the key and nothing else changes |
| DocTree.Node.HasAttr | msodumper/node.py:111-112 | true exactly when the key is present |
| XmlText.ConvertAttrValue | msodumper/node.py:153-164 | a boolean gives "true" or "false", an integer a decimal numeral that reads back as the integer, text is kept |
| XmlText.EncodeString | msodumper/node.py:124-151 | the loop gives the character-wise encoding of the input |
| XmlText.EncodeOne | msodumper/node.py:126-149 | one character's encoding |
| XmlText.EncodedSafe | msodumper/node.py:124-151 | the output holds none of `< > " '` and no zero character; in non-utf8 mode it is ASCII |
| XmlText.EncodeCharSafe | msodumper/node.py:126-149 | the same for one character |
| XmlText.EncodedPlain | msodumper/node.py:124-151 | text with no special, zero or (non-utf8) non-ASCII character is copied unchanged |
| XmlText.EncodeRoundTrip | msodumper/node.py:124-151 | replacing the five entities in the output gives the input back when it has no zero character (and, in non-utf8 mode, is ASCII) |
| XmlText.UnescapeEntity | msodumper/node.py:133-149 | each of `&gt; &lt; &amp; &quot; &apos;` reads back as its character |
| XmlText.EncodedStep | msodumper/node.py:124-151 | encoding proceeds character by character |
| Printer.SortedKeysSpec | msodumper/node.py:187-189 | the sorted keys are exactly the attribute keys, each once, in strictly ascending order |
| Printer.SortKeys | msodumper/node.py:187-189 | the selection loop yields the sorted keys |
| Printer.LeastExists | msodumper/node.py:187-189 | every non-empty key set has a least key |
| Printer.LeastUnique | msodumper/node.py:187-189 | the least key is unique |
| Printer.LessIrreflexive | msodumper/node.py:187-189 | no key sorts before itself |
| Printer.LessTransitive | msodumper/node.py:187-189 | the key order is transitive |
| Printer.LessTotal | msodumper/node.py:187-189 | any two distinct keys are ordered |
| Printer.SortedKeysUnfold | msodumper/node.py:187-189 | the sorted keys start with the least one |
| Printer.PrintAttr | msodumper/node.py:190-195 | one attribute: nothing for `None`, else ` key="…"` with the converted value encoded |
| Printer.PrintAttrList | msodumper/node.py:188-195 | the loop gives the attribute segments of the given keys, in their order |
| Printer.AttrPartStep | msodumper/node.py:190-195 | each turn of the loop adds the next key's segment at the end |
| Printer.PrintAttrs | msodumper/node.py:186-195 | the name line's attribute text over the keys in ascending order |
| Printer.AttrPartNone | msodumper/node.py:192-193 | `None` values print nothing |
| Printer.AttrLineNone | msodumper/node.py:192-193 | attributes that are all `None` print nothing |
| Printer.PrintNode | msodumper/node.py:170-217 | the text written is the recursive specification `Printed`: a root prints its children at its own level with line breaks, an element as above, a content node its encoded text, indented, when that is non-empty |
| Printer.PrintElement | msodumper/node.py:181-211 | an element without children prints `<name …/>`; with children it prints `<name …>`, the children one level deeper, then `</name>`; the children break lines, and the closing tag is indented, only when the element breaks lines and has no content |
| Printer.PrintChildren | msodumper/node.py:178-180 | the children printed one after the other |
| Printer.PrintedEmptyElement | msodumper/node.py:209-211 | an element without children whose attributes are all `None` prints as the bare tag `<name/>`, indented, with a newline when lines break |
| Printer.PrintedElementTags | msodumper/node.py:197-208 | an element with children prints starting with its indented opening tag, its attributes in key order, and ending with `</name>` and, when lines break, a newline |
| Printer.ElementBody | msodumper/node.py:197-208 | everything before an element's closing tag starts with its opening tag |
| Printer.RepeatEmpty | msodumper/node.py:171-176 | an empty indent unit gives an empty indent |
| Printer.PrintedFlat | msodumper/node.py:170-217 | printed without line breaks, a subtree with no root node is the same at every level |
| Printer.PrintedChildrenFlat | msodumper/node.py:202-203 | the same for a run of children |

## Left out

- Printing of the diagnostic lines (`parseBytes`, `output`, `debug`, `globals.error`) and `fd.write` are not modelled; `printNode` returns its text instead of writing it.
- Floating point: `readDouble` returns the IEEE-754 bit pattern; the `/100.0` of `decodeRK`, `%g` formatting and fixed-point reads are out of scope.
- `xls-dump.py` (command line, OLE directory walking) is not part of this model.
- `globals.py`, `formula.py` and `src/xlsmodel.py` are not part of this model. The cursor is modelled from its uses here; the text readers, `encodeName`, `getTextBytes`, `getValueOrUnknown` and the formula parser are parameters; the workbook model is the recorded sequence of setter calls.
- Code that would fail as written is modelled by its evident intent: the undefined `DoperType.RK` and `DoperType.Boolean` (src/xlsrecord.py:286, 315), `hd` (328), and `realLen` in the DXFN font block (609), where the model moves forward by the bytes the text reader consumed.
- Crn: `sys.exit` on an unknown cached-value tag becomes the error `UnknownCrnValueType`; when no SUPBOOK was recorded the model appends nothing, where the source would fail on the missing supbook.
- Crn.FillCrn: the sheet cache of the last supbook (`getCurrentSheetCache`, set by XCT) is not modelled; calls carry only row, column, type id and value.
- DV: the ranges are consumed and passed on; the displayed value, error-style and operator names come from the `getValueOrUnknown` parameter.
- CF: the formula bytes are kept and not rendered; the font attribute bytes are kept raw.
- OBJ: the error reported for a Cmo field of the wrong size is modelled as a `BadCmo` field, not as a message.
- XF: only decoding is modelled; the display strings other than `printBorderStyle` are left out.
- NAME: the option flag display (`__writeOptionFlags`) is left out; its bits are decoded.
- EXTERNNAME: the `try`/`except` around `parseBytes` and the MOPER output table (`Errors`) are left out.
- SUPBOOK: a text reader that consumes no bytes would make the source loop forever; the model stops with the error `NoProgress`.
- `encodeString`: the UTF-8 encoding of unicode input in utf8 mode is not modelled; strings are sequences of characters.
- Node: `firstChild`, `setChildNodes` and `getChildNodes` are left out. The attribute methods require an Element, as only `Element` defines them.
- DocTree.Node.Element: the source stores the caller's dictionary itself, so later changes through either reference are shared; attribute maps are values here, and that aliasing is not modelled.
- Autofilter.AutofilterRoundTrip: stated for the corrected reading only; the as-written reading is related to it by `ReadingsAgreeOnTypedSlots`, `ItemCountAsWritten` and the two counterexamples.
- Autofilter.AutofilterFlags: the item count is stated for the corrected reading; `ItemCountAsWritten` states it as written.
- Node.AppendChild requires the two subtrees to be disjoint, as in a tree; the footprints of the receiver's ancestors are not updated.
- Printer.SortKeys: `keys.sort()` is modelled as repeated selection of the least remaining key, which gives the same order.
- Printer.PrintedFlat: stated only for subtrees without a root node, because a root always prints its children with line breaks.

## Findings

| source | as written | input that shows it | evidently intended | confidence | as-written member | corrected member |
|---|---|---|---|---|---|---|
| src/xlsrecord.py:75-77 | the integer branch of `decodeRK` divides the masked unsigned word by 4, so negative RK integers come out as large positive numbers | RK word 0xFFFFFFFE gives 1073741823 | the signed 30-bit integer of the RkNumber structure in MS-XLS, here -1 | high, not executed | RK.MinusOneAsWritten | RK.DecodeEncodeInteger |
| src/xlsrecord.py:368 | `itemCount = (flag & 0xFF80) / (2*7)` divides by 14 | flag 0x0080 (one item) gives 9 | shift right by 7, giving 1 | high, not executed | Autofilter.ItemCountCounterexample | Autofilter.AutofilterFlags |
| src/xlsrecord.py:354-356 | an untyped DOPER slot skips 10 bytes after its tag, 11 in all | an unused first slot followed by a string condition: the second slot is read one byte late as an RK condition and the string is lost | a DOPER is 10 bytes including its tag | high, not executed | Autofilter.UnusedSlotCounterexample | Autofilter.AutofilterRoundTrip |
| src/xlsrecord.py:2292 | the right border colour of a cell-style XF is masked with 0x0780 (4 bits), although the comment says 7 bits | colour word 0x0800 gives 0 | mask 0x3F80, giving 16 | medium, not executed | Xf.RightColorCounterexample | Xf.ColorFields |
