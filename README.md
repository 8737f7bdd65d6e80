# VPK archive reader, modelled in Dafny

This project models the core of jvpklib, a Java reader for Valve's VPK
package format. A VPK archive is a directory file. It starts with a header:
the signature, a version of 1 or 2, version-2 reserved fields, and a
dictionary size. The directory table follows. It is three nested lists of
zero-terminated strings:
- extensions;
- the directories of each extension;
- the file names of each directory. Each name is followed by an 18-byte
  record: CRC-32, preload size, chunk index, offset, size and a 0xFFFF
  terminator. The record is followed by its preload bytes.

An entry's data is its preload bytes followed by `size` bytes at `offset`.
Those bytes live in the directory file itself or, in a multi-chunk archive
(a base name ending in `_dir`), in the chunk file `<stem>_NNN.vpk`.

The model has eight modules, one file each:
- `Results` holds the error type that stands for the Java exceptions.
- `Bytes` holds the JVM's fixed-width integers and the little-endian layouts.
- `DataInput` models `DataInputReader` over a byte-swapped source. The
  `Reader` class has a cursor, its methods are proved against step functions
  such as `IntAt` and `StringNullAt`, and lemmas describe those functions.
- `Crc` is a concrete bitwise CRC-32 with the presets of `java.util.zip.CRC32`.
  It includes the incremental law that `update` relies on, the standard check
  value, and an `Accumulator` class.
- `VpkEntry` models `VPKEntry`. The `Entry` class has the source's fields,
  setters and `getData` cache. `Fetch` states the `getData` cases in the order
  the source tests them. The checksum methods are proved against `Checksum`.
- `VpkFormat` holds the file layout: header, records, directory
  normalisation, chunk names and offset resolution. `Run` is a step machine
  for the three nested loops of `load`; it yields the events of the parse and
  where it stopped. `LoadSpec` is the whole load.
- `VpkIndex` holds the four collections as a value: all entries, by
  extension, by directory and by path. It says what each parse event does to
  them and relates the result to reference definitions (`Parsed`, `OfType`,
  `InDir`, `LastWithPath`).
- `VpkArchive` models `VPKArchive`. The `Archive` class has the four
  collections as fields. `Load` runs the nested loops as `while` loops over a
  `Reader`. It is proved to leave the collections at `ApplyAll(old contents,
  events of LoadSpec)`, with the helper methods proved step by step.

Files are a map from path to bytes (`FileSystem`); the file system is a
parameter of the operations that read it. The model follows the code as
written:
- a failed load keeps the entries it had already added, and the version it read;
- a second load adds to the first;
- a repeated path replaces the earlier entry in `pathEntries`, but both stay
  in the lists;
- the dictionary size is read as a signed `int`.

## Model

| member | source | states |
|---|---|---|
| Bytes.Wrap32 | src/info/ata4/vpk/VPKArchive.java:143 | Java `int` addition: the result equals the exact sum modulo 2^32, and stays unchanged when the sum is in range |
| Bytes.Unsigned32 | src/info/ata4/io/DataInputReader.java:32-34 | `& 0xffffffffL` gives the same value modulo 2^32, and non-negative values are unchanged |
| Bytes.UnsignedOfWrapped | src/info/ata4/io/DataInputReader.java:32-34 | widening an unsigned value that was read as an `int` gives the value back |
| Bytes.WrappedOfUnsigned | src/info/ata4/io/DataInputReader.java:32-34 | narrowing a widened `int` gives the `int` back |
| Bytes.Le16 | src/info/ata4/vpk/VPKArchive.java:62 | with the byte order swapped, a 16-bit value is stored as two bytes, least significant first, that decode back to it |
| Bytes.Le32 | src/info/ata4/vpk/VPKArchive.java:62 | a 32-bit value is stored as four bytes, least significant first, that decode back to it |
| Bytes.LeUint32Injective | src/info/ata4/vpk/VPKArchive.java:62 | any four bytes are the encoding of the value they decode to, so the little-endian layout is a bijection |
| DataInput.Decode | src/info/ata4/io/DataInputReader.java:62 | the US-ASCII string has one character per byte; a character is zero exactly when its byte is; bytes below 0x80 keep their code |
| DataInput.UnsignedIntIsLittleEndian | src/info/ata4/io/DataInputReader.java:32-34 | `readUnsignedInt` is the little-endian unsigned value of the next four bytes, or fails with the cursor unmoved |
| DataInput.TakeStringShape | src/info/ata4/io/DataInputReader.java:52-56 | the bytes read are a prefix of the input before its first zero byte, at most `limit` long, with no zero byte; when shorter than `limit`, a zero byte follows them |
| DataInput.TakeStringFails | src/info/ata4/io/DataInputReader.java:54 | the loop fails, with end of input, exactly when the input ends before a zero byte and before `limit` bytes |
| DataInput.Skipped | src/info/ata4/io/DataInputReader.java:59 | `skipBytes(n)` passes over at most what is left, nothing for n <= 0, and exactly n when n bytes remain |
| DataInput.StringNullAt | src/info/ata4/io/DataInputReader.java:47-63 | the cursor stays inside the input, and moves forward on success |
| DataInput.StringNullValue | src/info/ata4/io/DataInputReader.java:52-62 | a string read holds at most `limit` characters and no zero character; each character decodes the byte at its place; a zero byte follows unless the limit was reached |
| DataInput.StringNullAdvance | src/info/ata4/io/DataInputReader.java:52-60 | unpadded, the cursor passes the terminator, or `limit` bytes when there is none; padded, it moves `limit` bytes, or to the end of the input |
| DataInput.StringNullFails | src/info/ata4/io/DataInputReader.java:48-54 | a read fails exactly on a non-positive limit (`InvalidArgument`) or on input that ends before both a zero byte and `limit` bytes (`Truncated`) |
| DataInput.Encode | src/info/ata4/io/DataInputReader.java:62 | the ASCII bytes of a string, one per character, which the decoder turns back into the string |
| DataInput.StringNullRoundTrip | src/info/ata4/io/DataInputReader.java:47-63 | an ASCII string without zero, shorter than the limit and written with a terminator, is read back, and the unpadded read leaves the cursor right after the terminator |
| DataInput.Reader.constructor | src/info/ata4/vpk/VPKArchive.java:61-62 | a reader over the file's bytes, positioned at 0 |
| DataInput.Reader.Position | src/info/ata4/vpk/VPKArchive.java:167 | `position()` is within the input |
| DataInput.Reader.ReadByte | src/info/ata4/io/DataInputReader.java:54 | the method returns `ByteAt` and moves the cursor to where it says |
| DataInput.Reader.ReadFully | src/info/ata4/vpk/VPKArchive.java:130-132 | the method returns the next n bytes (`BytesAt`) and moves past them, or fails on short input |
| DataInput.Reader.ReadInt | src/info/ata4/vpk/VPKArchive.java:64 | the method returns the little-endian signed `int` at the cursor (`IntAt`) |
| DataInput.Reader.ReadUnsignedShort | src/info/ata4/vpk/VPKArchive.java:118 | the method returns the little-endian unsigned 16-bit value at the cursor |
| DataInput.Reader.ReadUnsignedInt | src/info/ata4/io/DataInputReader.java:32-34 | the method returns `UnsignedIntAt`: an `int` read, widened without its sign |
| DataInput.Reader.SkipBytes | src/info/ata4/io/DataInputReader.java:59 | the cursor moves by `Skipped(n, remaining)`, and the method returns that count |
| DataInput.Reader.ReadTerminated | src/info/ata4/io/DataInputReader.java:52-56 | the buffer loop yields `TakeString` of the input at the cursor; it consumes the terminator when it found one, or reaches the end of input when it fails |
| DataInput.Reader.ReadStringNull | src/info/ata4/io/DataInputReader.java:47-63 | `readStringNull(limit, charset, padded)` with ASCII returns `StringNullAt` and leaves the cursor where it says |
| DataInput.Reader.ReadStringNullLimit | src/info/ata4/io/DataInputReader.java:85-87 | `readStringNull(limit)` is the unpadded read |
| DataInput.Reader.ReadStringNullDefault | src/info/ata4/io/DataInputReader.java:98-100 | `readStringNull()` is the unpadded read with a limit of 256 |
| Crc.FeedAppend | src/info/ata4/vpk/VPKEntry.java:128-132 | feeding `a` and then `b` is feeding `a + b`, so chunking does not change the checksum |
| Crc.CheckValue | src/info/ata4/vpk/VPKEntry.java:123 | the checksum of "123456789" is 0xCBF43926, the CRC-32 check value |
| Crc.Accumulator.constructor | src/info/ata4/vpk/VPKEntry.java:123 | a fresh `CRC32` has been fed nothing |
| Crc.Accumulator.Update | src/info/ata4/vpk/VPKEntry.java:131 | `update(buf, off, len)` feeds exactly `buf[off..off+len]`, and the register stays the register of everything fed |
| Crc.Accumulator.Value | src/info/ata4/vpk/VPKEntry.java:134 | `getValue()` is `Checksum` of all bytes fed so far |
| VpkEntry.Region | src/info/ata4/vpk/VPKEntry.java:82-92 | a region succeeds exactly when the file exists and the offset, size and end are in range; it then returns those bytes; a missing file is `NotFound` |
| VpkEntry.PathOf | src/info/ata4/vpk/VPKEntry.java:309-311 | `getPath()` is the directory, then the name, a dot and the extension, each at its place |
| VpkEntry.DataSize | src/info/ata4/vpk/VPKEntry.java:300-302 | `getDataSize()` is size plus preload length in `int` arithmetic: negative exactly when the true sum is 2^31 or more |
| VpkEntry.LastIndex | src/info/ata4/vpk/VPKEntry.java:318-322 | the index of the last separator or dot, with nothing marked after it; -1 when there is none |
| VpkEntry.SplitPathOf | src/info/ata4/vpk/VPKEntry.java:318-322 | `setPath` undoes `getPath` for well-formed parts |
| VpkEntry.Fetch | src/info/ata4/vpk/VPKEntry.java:58-99 | `getData` never leaves an empty buffer cached; a changed cache holds the returned bytes |
| VpkEntry.FetchNothing | src/info/ata4/vpk/VPKEntry.java:60-62 | nothing defined gives an empty buffer and leaves the cache alone |
| VpkEntry.FetchCached | src/info/ata4/vpk/VPKEntry.java:65-67 | a cached buffer whose capacity is `size` is returned as it is |
| VpkEntry.FetchPreloadOnly | src/info/ata4/vpk/VPKEntry.java:71-73 | with size 0, the preload bytes come back without the file and without caching |
| VpkEntry.FetchConcat | src/info/ata4/vpk/VPKEntry.java:78-82 | preload and external bytes give `getDataSize()` bytes: the preload, then the file's region; they become the cache |
| VpkEntry.FetchMissingFile | src/info/ata4/vpk/VPKEntry.java:83-90 | a read-only entry whose file is missing fails with `NotFound` and keeps its cache |
| VpkEntry.FetchMapped | src/info/ata4/vpk/VPKEntry.java:83-95 | with all data in the file and the region inside it, read-only or read-write, the result is the file's `size` bytes at `offset`, and they become the cache |
| VpkEntry.FetchMappedFails | src/info/ata4/vpk/VPKEntry.java:83-92 | with all data in the file but the region not mappable (file missing, negative offset, past the end), the result is that region's error and the cache is kept |
| VpkEntry.FetchIdempotent | src/info/ata4/vpk/VPKEntry.java:64-67 | a second `getData` on an unchanged entry and file system returns the same result and cache |
| VpkEntry.ChecksumOf | src/info/ata4/vpk/VPKEntry.java:122-135 | `calcCRC32` fails exactly when `getData` fails, and otherwise is the checksum of the data |
| VpkEntry.Verdict | src/info/ata4/vpk/VPKEntry.java:107-114 | `checkData` succeeds exactly when the data reads and its checksum is the stored one; a mismatch reports both values |
| VpkEntry.UpdateThenCheck | src/info/ata4/vpk/VPKEntry.java:142-144 | after `updateCRC32`, `checkData` on the unchanged entry succeeds |
| VpkEntry.FeedChunk | src/info/ata4/vpk/VPKEntry.java:129-131 | one round of the loop feeds the next `n` bytes of the buffer view to the accumulator |
| VpkEntry.DrainChecksum | src/info/ata4/vpk/VPKEntry.java:123-134 | draining the view through a 4096-byte array gives the checksum of the whole view |
| VpkEntry.Entry.constructor | src/info/ata4/vpk/VPKEntry.java:38-41 | a new entry has the file and the read-only flag, zero numbers, no preload bytes and no cache, as in Java; its names are empty, where Java leaves them null (only `load` constructs entries, and it sets the names at once) |
| VpkEntry.Entry.SetType | src/info/ata4/vpk/VPKEntry.java:160-162 | only the extension changes |
| VpkEntry.Entry.SetName | src/info/ata4/vpk/VPKEntry.java:178-180 | only the name changes |
| VpkEntry.Entry.SetDir | src/info/ata4/vpk/VPKEntry.java:196-198 | only the directory changes |
| VpkEntry.Entry.SetCRC32 | src/info/ata4/vpk/VPKEntry.java:214-216 | only the stored checksum changes |
| VpkEntry.Entry.SetOffset | src/info/ata4/vpk/VPKEntry.java:272-274 | only the offset changes |
| VpkEntry.Entry.SetSize | src/info/ata4/vpk/VPKEntry.java:290-292 | only the size changes |
| VpkEntry.Entry.SetPreloadData | src/info/ata4/vpk/VPKEntry.java:233-238 | only the preload bytes change |
| VpkEntry.Entry.SetPreloadSize | src/info/ata4/vpk/VPKEntry.java:254-256 | a non-negative size gives that many zero bytes of preload; a negative one fails and changes nothing |
| VpkEntry.Entry.GetDataSize | src/info/ata4/vpk/VPKEntry.java:300-302 | the entry's size plus its preload length as an `int`: the true sum when it is below 2^31, negative when a non-negative size overflows, congruent to the sum modulo 2^32 |
| VpkEntry.Entry.PreloadSize | src/info/ata4/vpk/VPKEntry.java:245-247 | the number of preloaded bytes, below 2^31 |
| VpkEntry.Entry.SetPath | src/info/ata4/vpk/VPKEntry.java:318-322 | the extension, name and directory become the parts of `SplitPath(path)`, and nothing else changes |
| VpkEntry.Entry.GetData | src/info/ata4/vpk/VPKEntry.java:58-99 | the result and the new cache are those of `Fetch` for the entry, its old cache and the file system |
| VpkEntry.Entry.CalcCRC32 | src/info/ata4/vpk/VPKEntry.java:122-135 | the method returns `ChecksumOf` the data `getData` yields, and leaves the cache as `getData` does |
| VpkEntry.Entry.CheckData | src/info/ata4/vpk/VPKEntry.java:107-114 | the method returns the `Verdict` of the stored checksum on the data |
| VpkEntry.Entry.UpdateCRC32 | src/info/ata4/vpk/VPKEntry.java:142-144 | on success, the stored checksum becomes that of the data and nothing else changes; a failed read changes no field |
| VpkFormat.HeaderAt | src/info/ata4/vpk/VPKArchive.java:64-91 | an accepted header has version 1 or 2, its header size (12 or 28), fits the file, and reports the version it read |
| VpkFormat.SignatureBytes | src/info/ata4/vpk/VPKArchive.java:64-68 | four bytes read as the signature exactly when they are 34 12 AA 55 |
| VpkFormat.HeaderSignature | src/info/ata4/vpk/VPKArchive.java:64-68 | a header is accepted only after the signature bytes; other bytes fail with the value found, and no version is recorded |
| VpkFormat.HeaderVersion | src/info/ata4/vpk/VPKArchive.java:70-91 | the version is recorded even when refused; only 1 and 2 are accepted; the dictionary size is the `int` that ends the header |
| VpkFormat.HeaderRoundTrip | src/info/ata4/vpk/VPKArchive.java:63-91 | reading a written header gives back its version, its size and its dictionary size |
| VpkFormat.RecordAt | src/info/ata4/vpk/VPKArchive.java:117-132 | a record read takes 18 bytes plus its preload, stays within the input, and has fewer than 65536 preload bytes |
| VpkFormat.RecordTerminatorFirst | src/info/ata4/vpk/VPKArchive.java:124-128 | a wrong terminator fails with its value, whatever follows the 18 bytes |
| VpkFormat.RecordRoundTrip | src/info/ata4/vpk/VPKArchive.java:117-132 | reading a record written at any position gives back every field and ends right after its preload, whatever surrounds it |
| VpkFormat.Slashes | src/info/ata4/vpk/VPKArchive.java:100 | every backslash becomes a slash, and every other character is kept |
| VpkFormat.NormalizeDir | src/info/ata4/vpk/VPKArchive.java:99-110 | a directory has no backslash and is empty or ends in '/'; it is empty exactly for "" and " "; otherwise it is the slashed input when that already ends in '/', and the slashed input plus one '/' when it does not |
| VpkFormat.NormalizeDirIdempotent | src/info/ata4/vpk/VPKArchive.java:99-110 | normalising a normalised directory changes nothing |
| VpkFormat.NormalizeDirExamples | src/info/ata4/vpk/VPKArchive.java:99-110 | "a\b" becomes "a/b/", " " becomes the root, and "a/b/" stays as it is |
| VpkFormat.Digits | src/info/ata4/vpk/VPKArchive.java:137 | `%03d` writes only digits, at least `width` of them; exactly `width` when the number fits, and no leading zero when it does not |
| VpkFormat.DigitsValue | src/info/ata4/vpk/VPKArchive.java:137 | the digits denote the number written, padding included |
| VpkFormat.ChunkNameInjective | src/info/ata4/vpk/VPKArchive.java:136-138 | different chunk indices name different chunk files |
| VpkFormat.ChunkNamePadded | src/info/ata4/vpk/VPKArchive.java:137 | chunk 7 of "pak01" is "pak01_007.vpk" |
| VpkFormat.ChunkNameWide | src/info/ata4/vpk/VPKArchive.java:137 | chunk 1234 of "pak01" is "pak01_1234.vpk" |
| VpkFormat.ChunkName | src/info/ata4/vpk/VPKArchive.java:137 | `%s_%03d.vpk`: the stem, `_`, decimal digits whose value is the chunk index (three of them below 1000, no leading zero above), then `.vpk` |
| VpkFormat.ArchiveStem | src/info/ata4/vpk/VPKArchive.java:53-59 | multi-chunk exactly when the base name ends in "_dir"; the stem is the name without that suffix |
| VpkFormat.ChildPath | src/info/ata4/vpk/VPKArchive.java:138 | `new File(baseDir, name)` is the name alone without a directory; the directory and the name when the directory already ends in a separator; otherwise the directory, one separator and the name |
| VpkFormat.EntryOffset | src/info/ata4/vpk/VPKArchive.java:139-146 | only a single-file version-1 archive moves offsets, by header size plus dictionary size modulo 2^32, exactly when nothing overflows |
| VpkFormat.Run | src/info/ata4/vpk/VPKArchive.java:93-163 | the table parse ends, if at all, after its start and within the input |
| VpkFormat.RunNames | src/info/ata4/vpk/VPKArchive.java:116-161 | a written list of names and records, closed by an empty string, is parsed back as one entry event per name, in order, each its record resolved under the extension and directory; the parse then continues with the directories after it |
| VpkFormat.RunDirs | src/info/ata4/vpk/VPKArchive.java:98-162 | a written list of directories with their names is parsed back as the normalised directory of each, followed by its entry events; the parse then continues with the extensions after it |
| VpkFormat.RunTable | src/info/ata4/vpk/VPKArchive.java:93-163 | a whole table written from extensions, directories, names and records is parsed back as exactly the events that stand for them, and the parse ends right after the table |
| VpkFormat.LoadRoundTrip | src/info/ata4/vpk/VPKArchive.java:61-171 | a header whose dictionary size is the table's length, followed by a written table, loads with that version, with exactly the table's events, and succeeds |
| VpkFormat.RunEntriesResolved | src/info/ata4/vpk/VPKArchive.java:134-155 | every entry of a parse is its record resolved in the archive's context, under a non-empty extension and name and a normalised directory |
| VpkFormat.DictCheck | src/info/ata4/vpk/VPKArchive.java:165-171 | after a parse ends, the check fails exactly for version 1 with a non-zero size that differs from the table's length; a failed parse passes its error through |
| VpkFormat.LoadEntriesResolved | src/info/ata4/vpk/VPKArchive.java:134-155 | every entry a load builds, even a failed load, is a record resolved in the load's context |
| VpkFormat.LoadNeedsHeader | src/info/ata4/vpk/VPKArchive.java:61-88 | a load succeeds only on an existing file that starts with the signature and has version 1 or 2; a missing file is `NotFound` |
| VpkFormat.LoadDictionarySize | src/info/ata4/vpk/VPKArchive.java:165-171 | once the table is read, the load fails exactly on a version-1 dictionary-size mismatch; version 2 never fails this check |
| VpkIndex.LastWithPath | src/info/ata4/vpk/VPKArchive.java:160 | the entry found has the path asked for |
| VpkIndex.ApplyAllEntries | src/info/ata4/vpk/VPKArchive.java:157 | `entries` grows by the parsed entries, in parse order |
| VpkIndex.ApplyAllByType | src/info/ata4/vpk/VPKArchive.java:158 | the list of each extension grows by the parsed entries of that extension, in order |
| VpkIndex.ApplyAllTypeKeys | src/info/ata4/vpk/VPKArchive.java:94-96 | the extensions with a list are the old ones plus every extension seen |
| VpkIndex.ApplyAllByDir | src/info/ata4/vpk/VPKArchive.java:159 | the list of each directory grows by the parsed entries of that directory, in order |
| VpkIndex.ApplyAllDirKeys | src/info/ata4/vpk/VPKArchive.java:112-114 | the directories with a list are the old ones plus every directory seen |
| VpkIndex.ApplyAllByPath | src/info/ata4/vpk/VPKArchive.java:160 | each path maps to the last parsed entry with that path; a path no entry has keeps its old entry |
| VpkIndex.ApplyAllAppend | src/info/ata4/vpk/VPKArchive.java:157-160 | two loads in turn act as their events one after the other: loads accumulate |
| VpkArchive.ReadRecord | src/info/ata4/vpk/VPKArchive.java:117-132 | the field-by-field reads return `RecordAt`; when they succeed, the cursor is right after the preload |
| VpkArchive.NextName | src/info/ata4/vpk/VPKArchive.java:116-132 | one name and its record, or the empty name, as one step of `Run` at the name level |
| VpkArchive.NextDir | src/info/ata4/vpk/VPKArchive.java:98-110 | one normalised directory, or the empty string back to the extension level, as one step of `Run` |
| VpkArchive.NextType | src/info/ata4/vpk/VPKArchive.java:93 | one extension, or the empty string that ends the table, as one step of `Run` |
| VpkArchive.ReadHeader | src/info/ata4/vpk/VPKArchive.java:64-91 | the reads return `HeaderAt` of the file; after an accepted header, the cursor is at the header size |
| VpkArchive.NewEntry | src/info/ata4/vpk/VPKArchive.java:148-155 | a fresh read-only entry whose fields are the values given |
| VpkArchive.Archive.constructor | src/info/ata4/vpk/VPKArchive.java:34-39 | a new archive has no entries, version 1, and is not multi-chunk |
| VpkArchive.Archive.AddType | src/info/ata4/vpk/VPKArchive.java:94-96 | an extension gets an empty list unless it has one |
| VpkArchive.Archive.AddDir | src/info/ata4/vpk/VPKArchive.java:112-114 | a directory gets an empty list unless it has one |
| VpkArchive.Archive.AddEntry | src/info/ata4/vpk/VPKArchive.java:157-160 | the entry joins the list and the lists of its extension and directory, and replaces the entry of its path |
| VpkArchive.Archive.ResolveEntry | src/info/ata4/vpk/VPKArchive.java:134-155 | a fresh entry whose fields are `Resolve` of the name and record: chunk file or archive file, with the offset fixed |
| VpkArchive.Archive.AddName | src/info/ata4/vpk/VPKArchive.java:148-160 | one more entry event is applied to the collections, and one more entry object stands for it |
| VpkArchive.Archive.ReadNames | src/info/ata4/vpk/VPKArchive.java:116-161 | the inner loop performs the name-level events of `Run` on the collections, and stops where `Run` returns to the directory level or fails |
| VpkArchive.Archive.ReadDir | src/info/ata4/vpk/VPKArchive.java:112-161 | the directory's key, then its names, as the events of `Run` |
| VpkArchive.Archive.ReadDirs | src/info/ata4/vpk/VPKArchive.java:98-162 | the middle loop performs the directory-level events of `Run`, and stops where `Run` returns to extensions or fails |
| VpkArchive.Archive.ReadType | src/info/ata4/vpk/VPKArchive.java:94-162 | the extension's key, then its directories, as the events of `Run` |
| VpkArchive.Archive.ReadTypes | src/info/ata4/vpk/VPKArchive.java:93-163 | the outer loop performs all events of `Run` from the cursor, and ends where it ends or with its error |
| VpkArchive.Archive.ReadTable | src/info/ata4/vpk/VPKArchive.java:93-163 | the new contents are the old ones with the table's events applied; the outcome is where the table ended |
| VpkArchive.Archive.LoadTable | src/info/ata4/vpk/VPKArchive.java:93-171 | the table, then `DictCheck` on where it ended, with the events applied to the contents |
| VpkArchive.Archive.LoadBytes | src/info/ata4/vpk/VPKArchive.java:61-171 | on the bytes of an existing file, the outcome, the events and the version stored are those of `LoadData` |
| VpkFormat.LoadSpec | src/info/ata4/vpk/VPKArchive.java:49-172 | the whole load: a missing file gives `NotFound` with no version and no events; otherwise the version recorded is the header's; a refused header gives its error and no events; success needs an existing file with an accepted header |
| VpkArchive.Archive.Load | src/info/ata4/vpk/VPKArchive.java:49-172 | `load(file)` returns the outcome of `LoadSpec`, applies its events to the old contents, stores the version read (even a refused one), and sets the multi-chunk flag from the name |
| VpkArchive.Archive.GetEntries | src/info/ata4/vpk/VPKArchive.java:179-181 | the entries are those of the contents, in load order |
| VpkArchive.Archive.GetEntriesForDir | src/info/ata4/vpk/VPKArchive.java:190-193 | a list comes back exactly when the directory has one, and it is that directory's list; otherwise none |
| VpkArchive.Archive.GetEntriesForType | src/info/ata4/vpk/VPKArchive.java:202-205 | a list comes back exactly when the extension has one, and it is that extension's list; otherwise none |
| VpkArchive.Archive.GetEntry | src/info/ata4/vpk/VPKArchive.java:214-216 | an entry comes back exactly when the path is indexed, and it is the entry of that path |
| VpkArchive.Archive.SetVersion | src/info/ata4/vpk/VPKArchive.java:234-240 | `setVersion` accepts exactly 1 and 2 and stores them; any other version fails and changes nothing |
| VpkArchive.Archive.SetMultiChunk | src/info/ata4/vpk/VPKArchive.java:256-258 | the flag becomes the value given |
| VpkArchive.Archive.IsMultiChunk | src/info/ata4/vpk/VPKArchive.java:247-249 | the stored multi-chunk flag |
| VpkArchive.Archive.Clear | src/info/ata4/vpk/VPKArchive.java:263-268 | no entries and no lists remain |
| VpkArchive.Archive.GetVersion | src/info/ata4/vpk/VPKArchive.java:223-225 | the stored version |

## Left out

- I/O is not modelled:
  - Files are a map from path to bytes: no memory mapping, no file handles, no concurrent changes, no I/O errors besides a missing file or a short region.
  - `FilenameUtils` is not modelled either. `Load` takes the file's path, its parent directory and its base name as inputs.
- Charsets and null are narrower than in the source:
  - Strings are decoded as US-ASCII only, and the charset parameter of `readStringNull(limit, charset[, padded])` is dropped.
  - The two-argument overload is `ReadStringNull(limit, false)`.
  - Null arguments (the `NullPointerException` of `setPreloadData`) cannot arise in Dafny.
- VpkEntry.Entry.GetData:
  - The cache holds a copy of the bytes, not a live view of a mapped file, so later changes to the file are not seen through it.
  - A failed load of external data leaves a cached buffer of the preload followed by zeros; the bytes a partial load would have written are not modelled.
  - A read-write mapped entry whose file does not exist fails with `NotFound`, where the source would create the file. One whose region runs past the end of an existing file fails with `Truncated`, where a read-write mapping by `NIOFileUtils.openReadWrite` would most likely grow the file; `NIOFileUtils` is not part of this model. `load` builds every entry read-only (VPKArchive.java:148), so a load never reaches either case.
  - The test at VPKEntry.java:75 repeats the one at line 71 and can never hold there, so `Fetch` has no such case.
- VpkEntry.Fetch: the concatenated buffer of an entry with both preload and external bytes has a capacity of `getDataSize()`. The cache test compares the capacity with `size`, so that buffer is rebuilt on every call. `FetchIdempotent` shows that the result is the same each time.
- VpkEntry.Entry.SetPath: `SplitPath` knows no path prefix. For `FilenameUtils.getPath` a leading `/`, `~`, `~user/`, a drive letter such as `C:` or `C:\`, or a UNC `//server/` is a prefix that the directory leaves out. `SplitPath` keeps such a prefix in the directory. For example, `"/a/b.c"` gives the directory `"/a/"` where the source gives `"a/"`.
- VpkFormat.ChunkName: `String.format` writes the chunk index with the digits of the default locale. The model writes the ASCII digits `0`-`9`, which is what a locale whose zero digit is `'0'` gives.
- VpkFormat.ChildPath: the parent directory is taken to be already in `java.io.File`'s normal form, as `getParentFile()` returns it. The model does not collapse repeated separators or drop a trailing one. It also joins with `'/'`, where `new File(parent, name)` uses the platform's `File.separator`, which is `'\'` on Windows.
- VpkArchive.Archive.GetEntries, VpkArchive.Archive.GetEntriesForDir, VpkArchive.Archive.GetEntriesForType, VpkArchive.Archive.GetEntry:
  - They state the metadata of the entries returned, not that the entries' own caches are valid. `Archive.Valid` speaks only of the collections.
  - The lists returned are the contents at the time of the call. The source returns live views through `Collections.unmodifiableList` (VPKArchive.java:180, 192, 204), so a caller holding one sees a later `load` append to it and `clear()` empty it.
- VpkArchive.Archive.Load:
  - It is split into helper methods (`LoadBytes`, `LoadTable`, `ReadTable`, and one method per loop level and step).
  - It does not report where the cursor stood after a failure.
  - The reader of a load is not closed or released.
- VpkArchive.ReadHeader: the four reserved version-2 fields are all read before a truncation is reported. The source stops at the first short read; the outcome is the same `Truncated` error either way.
- DataInput.Reader.ReadFully, DataInput.Reader.ReadInt, DataInput.Reader.ReadUnsignedShort: a read that finds too few bytes leaves the cursor where it was. The source may have consumed some of them; a load stops at that error anyway.
- Crc: CRC-32 is defined bit by bit from its polynomial rather than with `java.util.zip.CRC32`'s table, and only the standard check value is proved. The model knows nothing about `java.util.zip.CRC32` beyond that.
- Outside the model:
  - the path-uniqueness of entries, which the source does not enforce either;
  - rollback of a failed load;
  - the source's command-line programs in `info.ata4.vpk.examples` (Extract, List and Validate);
  - the message texts of `VPKException` and `IOException`;
  - thread safety.
