/** The layout of a VPK directory file, as `VPKArchive.load` reads it: the
    header, the nested table of extensions, directories and names, and the
    18-byte record after each name; and how each record becomes an entry. */
module VpkFormat {
  import opened Bytes
  import opened Results
  import opened DataInput
  import opened VpkEntry

  const SIGNATURE: int32 := 0x55AA_1234
  const VERS_MIN: int32 := 1
  const VERS_MAX: int32 := 2

  /** The longest string of the table, not counting its terminator. */
  const NAME_LIMIT: int := 1024

  const RECORD_SIZE: nat := 18
  const TERMINATOR: uint16 := 0xFFFF

  /** The first four bytes of every directory file. */
  const SIGNATURE_BYTES: seq<byte> := [0x34, 0x12, 0xAA, 0x55]

  // ---------------------------------------------------------------------
  // Header

  function HeaderSize(version: int32): nat
    requires version == 1 || version == 2
  {
    if version == 1 then 12 else 28
  }

  datatype Header = Header(version: int32, headerSize: nat, dictSize: int32)

  /** The outcome of reading the header, and the version it read, if any:
      `load` stores the version before it checks it. */
  datatype HeaderRead = HeaderRead(version: Option<int32>, result: Result<Header>)

  /** The signature, the version, four reserved ints for version 2, then the
      dictionary size, which ends the header. */
  function HeaderAt(data: seq<byte>): (h: HeaderRead)
    ensures h.result.Ok? ==>
      && h.version == Some(h.result.value.version)
      && (h.result.value.version == 1 || h.result.value.version == 2)
      && h.result.value.headerSize == HeaderSize(h.result.value.version)
      && h.result.value.headerSize <= |data|
  {
    var sig := IntAt(data, 0);
    if sig.result.Err? then HeaderRead(None, Err(sig.result.error))
    else if sig.result.value != SIGNATURE then HeaderRead(None, Err(Format(BadSignature(sig.result.value))))
    else
      var ver := IntAt(data, 4);
      if ver.result.Err? then HeaderRead(None, Err(ver.result.error))
      else
        var v := ver.result.value;
        if v != 1 && v != 2 then HeaderRead(Some(v), Err(Format(UnsupportedVersion(v))))
        else
          var hs := HeaderSize(v);
          var ds := IntAt(data, hs - 4);
          if ds.result.Err? then HeaderRead(Some(v), Err(ds.result.error))
          else HeaderRead(Some(v), Ok(Header(v, hs, ds.result.value)))
  }

  /** Four bytes hold the signature exactly when they are its little-endian bytes. */
  lemma SignatureBytes(b: seq<byte>)
    requires |b| == 4
    ensures Wrap32(LeUint32(b)) == SIGNATURE <==> b == SIGNATURE_BYTES
  {
    if Wrap32(LeUint32(b)) == SIGNATURE {
      LeUint32Injective(b);
    }
  }

  /** The signature check: reading succeeds only on the signature bytes, and
      four other bytes fail with the signature that was found. */
  lemma HeaderSignature(data: seq<byte>)
    ensures HeaderAt(data).result.Ok? ==> |data| >= 4 && data[..4] == SIGNATURE_BYTES
    ensures |data| >= 4 && data[..4] != SIGNATURE_BYTES ==>
      HeaderAt(data) == HeaderRead(None, Err(Format(BadSignature(Wrap32(LeUint32(data[..4]))))))
  {
    if |data| >= 4 {
      assert data[0..4] == data[..4];
      SignatureBytes(data[..4]);
    }
  }

  /** The version check: only 1 and 2 are accepted, with headers of 12 and
      28 bytes; any other version is reported and yet recorded. */
  lemma HeaderVersion(data: seq<byte>)
    requires |data| >= 8 && data[..4] == SIGNATURE_BYTES
    ensures var v := Wrap32(LeUint32(data[4..8]));
      && HeaderAt(data).version == Some(v)
      && (v != 1 && v != 2 ==> HeaderAt(data).result == Err(Format(UnsupportedVersion(v))))
      && ((v == 1 || v == 2) && |data| >= HeaderSize(v) ==>
            HeaderAt(data).result == Ok(Header(v, HeaderSize(v), Wrap32(LeUint32(data[HeaderSize(v) - 4..HeaderSize(v)])))))
  {
    assert data[0..4] == data[..4];
    SignatureBytes(data[..4]);
  }

  /** A header as a writer lays it out: `reserved` holds the four ints of version 2. */
  function EncodeHeader(version: int32, reserved: seq<byte>, dictSize: int32): seq<byte>
    requires version == 1 || version == 2
    requires |reserved| == HeaderSize(version) - 12
  {
    SIGNATURE_BYTES + Le32(version as int) + reserved + Le32(Unsigned32(dictSize))
  }

  /** The header reader recovers what was written, whatever follows it. */
  lemma HeaderRoundTrip(version: int32, reserved: seq<byte>, dictSize: int32, rest: seq<byte>)
    requires version == 1 || version == 2
    requires |reserved| == HeaderSize(version) - 12
    ensures HeaderAt(EncodeHeader(version, reserved, dictSize) + rest) ==
      HeaderRead(Some(version), Ok(Header(version, HeaderSize(version), dictSize)))
  {
    var hs := HeaderSize(version);
    var data := EncodeHeader(version, reserved, dictSize) + rest;
    assert data[0..4] == SIGNATURE_BYTES;
    assert data[4..8] == Le32(version as int);
    assert data[hs - 4..hs] == Le32(Unsigned32(dictSize));
    WrappedOfUnsigned(dictSize);
  }

  // ---------------------------------------------------------------------
  // Entry records

  /** The 18 bytes after a name, less the terminator, and the preload bytes
      that follow them. */
  datatype Record = Record(crc: uint32, chunk: uint16, offset: int32, size: int32, preload: seq<byte>)

  /** The record at `pos`: CRC (4 bytes), preload size (2), chunk index (2),
      offset (4), size (4) and terminator (2), then the preload bytes. A wrong
      terminator is reported before any preload byte is needed. */
  function RecordAt(data: seq<byte>, pos: nat): (s: Step<Record>)
    requires pos <= |data|
    ensures s.result.Ok? ==> pos + RECORD_SIZE + |s.result.value.preload| == s.next <= |data|
    ensures s.result.Ok? ==> |s.result.value.preload| < 0x1_0000
  {
    if pos + RECORD_SIZE > |data| then Step(Err(Truncated), pos)
    else
      var term := LeUint16(data[pos + 16], data[pos + 17]);
      if term != TERMINATOR then Step(Err(Format(UnexpectedTerminator(term))), pos)
      else
        var n := LeUint16(data[pos + 4], data[pos + 5]) as nat;
        if pos + RECORD_SIZE + n > |data| then Step(Err(Truncated), pos)
        else
          var r := Record(
            LeUint32(data[pos..pos + 4]),
            LeUint16(data[pos + 6], data[pos + 7]),
            Wrap32(LeUint32(data[pos + 8..pos + 12])),
            Wrap32(LeUint32(data[pos + 12..pos + 16])),
            data[pos + RECORD_SIZE..pos + RECORD_SIZE + n]);
          Step(Ok(r), pos + RECORD_SIZE + n)
  }

  /** A record with a wrong terminator fails on its first 18 bytes alone:
      nothing after them, preload or later entries, takes part. */
  lemma RecordTerminatorFirst(data: seq<byte>, pos: nat, more: seq<byte>)
    requires pos + RECORD_SIZE <= |data|
    requires LeUint16(data[pos + 16], data[pos + 17]) != TERMINATOR
    ensures RecordAt(data, pos).result == Err(Format(UnexpectedTerminator(LeUint16(data[pos + 16], data[pos + 17]))))
    ensures RecordAt(data[..pos + RECORD_SIZE] + more, pos).result == RecordAt(data, pos).result
  {
    var data' := data[..pos + RECORD_SIZE] + more;
    assert data'[pos + 16] == data[pos + 16] && data'[pos + 17] == data[pos + 17];
  }

  /** A record as a writer lays it out. */
  function EncodeRecord(r: Record): (b: seq<byte>)
    requires |r.preload| < 0x1_0000
    ensures |b| == RECORD_SIZE + |r.preload|
  {
    Le32(r.crc) + Le16(|r.preload|) + Le16(r.chunk) + Le32(Unsigned32(r.offset))
      + Le32(Unsigned32(r.size)) + Le16(TERMINATOR) + r.preload
  }

  /** The record reader recovers what was written and stops right after the
      preload bytes, whatever precedes or follows the record. */
  lemma RecordRoundTrip(data: seq<byte>, pos: nat, r: Record)
    requires |r.preload| < 0x1_0000
    requires pos + |EncodeRecord(r)| <= |data| && data[pos..pos + |EncodeRecord(r)|] == EncodeRecord(r)
    ensures RecordAt(data, pos) == Step(Ok(r), pos + RECORD_SIZE + |r.preload|)
  {
    var e := EncodeRecord(r);
    var n := |r.preload|;
    assert forall k :: 0 <= k < |e| ==> data[pos + k] == e[k] by {
      forall k | 0 <= k < |e| ensures data[pos + k] == e[k] {
        assert data[pos..pos + |e|][k] == data[pos + k];
      }
    }
    assert data[pos..pos + 4] == e[0..4] == Le32(r.crc);
    assert [data[pos + 4], data[pos + 5]] == e[4..6] == Le16(n);
    assert [data[pos + 6], data[pos + 7]] == e[6..8] == Le16(r.chunk);
    assert data[pos + 8..pos + 12] == e[8..12] == Le32(Unsigned32(r.offset));
    assert data[pos + 12..pos + 16] == e[12..16] == Le32(Unsigned32(r.size));
    assert [data[pos + 16], data[pos + 17]] == e[16..18] == Le16(TERMINATOR);
    assert data[pos + RECORD_SIZE..pos + RECORD_SIZE + n] == e[RECORD_SIZE..] == r.preload;
    WrappedOfUnsigned(r.offset);
    WrappedOfUnsigned(r.size);
  }

  // ---------------------------------------------------------------------
  // Directory strings

  function Slashes(s: string): (r: string)
    ensures |r| == |s|
    ensures forall i :: 0 <= i < |s| ==> r[i] == (if s[i] == '\\' then '/' else s[i])
  {
    seq(|s|, i requires 0 <= i < |s| => if s[i] == '\\' then '/' else s[i])
  }

  /** The directory form every entry gets: no backslash, and empty or ending in '/'. */
  predicate IsNormalDir(d: string)
  {
    '\\' !in d && (d == "" || d[|d| - 1] == '/')
  }

  /** Backslashes become slashes, " " stands for the root, and any other
      non-empty directory gets a trailing slash if it lacks one. */
  function NormalizeDir(raw: string): (d: string)
    ensures IsNormalDir(d)
    ensures d == "" <==> raw == "" || raw == " "
    ensures raw != " " ==> |raw| <= |d| <= |raw| + 1 && d[..|raw|] == Slashes(raw)
    ensures raw != "" && raw != " " && Slashes(raw)[|raw| - 1] == '/' ==> d == Slashes(raw)
    ensures raw != "" && raw != " " && Slashes(raw)[|raw| - 1] != '/' ==> d == Slashes(raw) + "/"
  {
    var s := Slashes(raw);
    var s' := if s == " " then "" else s;
    assert s == " " <==> raw == " " by {
      if s == " " {
        assert raw[0] != '\\';
      }
    }
    if s' != "" && s'[|s'| - 1] != '/' then s' + "/" else s'
  }

  /** Normalising twice is normalising once. */
  lemma NormalizeDirIdempotent(raw: string)
    ensures NormalizeDir(NormalizeDir(raw)) == NormalizeDir(raw)
  {
    var d := NormalizeDir(raw);
    assert Slashes(d) == d;
  }

  lemma NormalizeDirExamples()
    ensures NormalizeDir("a\\b") == "a/b/"
    ensures NormalizeDir(" ") == ""
    ensures NormalizeDir("a/b/") == "a/b/"
  {
    assert Slashes("a\\b") == "a/b";
    assert Slashes("a/b/") == "a/b/";
  }

  // ---------------------------------------------------------------------
  // Chunk files

  function DigitChar(d: int): char
    requires 0 <= d < 10
  {
    ('0' as int + d) as char
  }

  predicate AllDigits(s: string)
  {
    forall i :: 0 <= i < |s| ==> '0' <= s[i] <= '9'
  }

  function Pow10(k: nat): nat
  {
    if k == 0 then 1 else 10 * Pow10(k - 1)
  }

  /** `%0<width>d`: the decimal digits of `n`, zero-padded to `width`. */
  function Digits(n: nat, width: nat): (s: string)
    ensures |s| >= width && |s| >= 1 && AllDigits(s)
    ensures 1 <= width && n < Pow10(width) ==> |s| == width
    ensures n >= Pow10(width) ==> s[0] != '0'
    decreases n + width
  {
    if n < 10 && width <= 1 then [DigitChar(n)]
    else Digits(n / 10, if width > 0 then width - 1 else 0) + [DigitChar(n % 10)]
  }

  /** The number a string of decimal digits denotes. */
  function DecimalValue(s: string): nat
    requires AllDigits(s)
  {
    if s == [] then 0 else DecimalValue(s[..|s| - 1]) * 10 + (s[|s| - 1] as int - '0' as int)
  }

  /** The digits denote the number they were written for: padding adds only zeros. */
  lemma {:induction false} DigitsValue(n: nat, width: nat)
    ensures DecimalValue(Digits(n, width)) == n
    decreases n + width
  {
    if !(n < 10 && width <= 1) {
      var w := if width > 0 then width - 1 else 0;
      DigitsValue(n / 10, w);
      var s := Digits(n, width);
      assert s[..|s| - 1] == Digits(n / 10, w);
    }
  }

  /** `String.format("%s_%03d.vpk", stem, chunk)`. */
  function ChunkName(stem: string, chunk: uint16): (n: string)
    ensures |n| >= |stem| + 8
    ensures n[..|stem|] == stem && n[|stem|] == '_' && n[|n| - 4..] == ".vpk"
    ensures AllDigits(n[|stem| + 1..|n| - 4]) && DecimalValue(n[|stem| + 1..|n| - 4]) == chunk as nat
    ensures chunk < 1000 ==> |n| == |stem| + 8
    ensures chunk >= 1000 ==> n[|stem| + 1] != '0'
  {
    var d := Digits(chunk, 3);
    DigitsValue(chunk, 3);
    var n := stem + "_" + d + ".vpk";
    assert n[|stem| + 1..|n| - 4] == d;
    n
  }

  /** Different chunk indices name different files. */
  lemma ChunkNameInjective(stem: string, i: uint16, j: uint16)
    requires ChunkName(stem, i) == ChunkName(stem, j)
    ensures i == j
  {
    var a, b := Digits(i, 3), Digits(j, 3);
    var x, y := ChunkName(stem, i), ChunkName(stem, j);
    assert |a| == |b|;
    assert x[|stem| + 1..|stem| + 1 + |a|] == a;
    assert y[|stem| + 1..|stem| + 1 + |b|] == b;
    DigitsValue(i, 3);
    DigitsValue(j, 3);
  }

  /** A chunk index below 1000 is padded to three digits. */
  lemma ChunkNamePadded()
    ensures ChunkName("pak01", 7) == "pak01_007.vpk"
  {
    assert Digits(0, 1) == "0";
    assert Digits(0, 2) == "00";
    assert Digits(7, 3) == "007";
  }

  /** A chunk index of four digits is written in full. */
  lemma ChunkNameWide()
    ensures ChunkName("pak01", 1234) == "pak01_1234.vpk"
  {
    assert Digits(1, 0) == "1";
    assert Digits(12, 1) == "12";
    assert Digits(123, 2) == "123";
    assert Digits(1234, 3) == "1234";
  }

  /** The base name of the file with "_dir" taken off, and whether it was there. */
  datatype Stem = Stem(multiChunk: bool, stem: string)

  /** The multi-chunk rule: a base name ending in "_dir" names the index of a
      multi-chunk archive, whose chunks share the name without the suffix. */
  function ArchiveStem(baseName: string): (s: Stem)
    ensures s.multiChunk <==> |baseName| >= 4 && baseName[|baseName| - 4..] == "_dir"
    ensures s.multiChunk ==> s.stem + "_dir" == baseName
    ensures !s.multiChunk ==> s.stem == baseName
  {
    if |baseName| >= 4 && baseName[|baseName| - 4..] == "_dir" then Stem(true, baseName[..|baseName| - 4])
    else Stem(false, baseName)
  }

  /** `new File(parent, child)`: the child in the parent directory, or the
      child alone when there is no parent. */
  function ChildPath(parent: Option<string>, child: string): (p: string)
    ensures parent.None? ==> p == child
    ensures parent.Some? ==>
      && |parent.value| + |child| <= |p| <= |parent.value| + |child| + 1 && |child| < |p|
      && p[..|parent.value|] == parent.value
      && p[|p| - |child| - 1] == '/'
      && p[|p| - |child|..] == child
    ensures parent.Some? && parent.value != "" && parent.value[|parent.value| - 1] == '/' ==>
      p == parent.value + child
    ensures parent.Some? && (parent.value == "" || parent.value[|parent.value| - 1] != '/') ==>
      p == parent.value + "/" + child
  {
    match parent
    case None => child
    case Some(dir) =>
      if dir != "" && dir[|dir| - 1] == '/' then dir + child else dir + "/" + child
  }

  // ---------------------------------------------------------------------
  // From records to entries

  /** What `load` knows when it reaches the table. */
  datatype Context = Context(
    file: string,
    baseDir: Option<string>,
    stem: string,
    multiChunk: bool,
    version: int32,
    headerSize: nat,
    dictSize: int32)

  /** The file holding an entry's data: its chunk file, or the directory file
      itself in a single-file archive. */
  function EntryFile(ctx: Context, chunk: uint16): string
  {
    if ctx.multiChunk then ChildPath(ctx.baseDir, ChunkName(ctx.stem, chunk)) else ctx.file
  }

  /** A single-file version-1 archive stores offsets relative to the end of
      the table; `offset += headerSize + dictSize` makes them absolute, in
      Java `int` arithmetic. */
  function EntryOffset(ctx: Context, raw: int32): (r: int32)
    ensures !(!ctx.multiChunk && ctx.version == 1) ==> r == raw
    ensures !ctx.multiChunk && ctx.version == 1 ==> (r - (raw + ctx.headerSize + ctx.dictSize)) % TWO_32 == 0
    ensures (&& !ctx.multiChunk && ctx.version == 1
             && -TWO_31 <= raw + ctx.headerSize + ctx.dictSize < TWO_31
             && ctx.headerSize + ctx.dictSize < TWO_31)
      ==> r == raw + ctx.headerSize + ctx.dictSize
  {
    if !ctx.multiChunk && ctx.version == 1 then
      var base := Wrap32(ctx.headerSize + ctx.dictSize);
      var r := Wrap32(raw + base);
      WrapTwice(raw, ctx.headerSize + ctx.dictSize);
      r
    else raw
  }

  lemma WrapTwice(raw: int, base: int)
    ensures (Wrap32(raw + Wrap32(base)) - (raw + base)) % TWO_32 == 0
  {
    var w := Wrap32(base);
    var k := (w - base) / TWO_32;
    assert w - base == TWO_32 * k;
    var r := Wrap32(raw + w);
    var m := (r - (raw + w)) / TWO_32;
    assert r - (raw + w) == TWO_32 * m;
    assert r - (raw + base) == TWO_32 * (m + k);
  }

  /** The entry `load` builds for a name and its record. */
  function Resolve(ctx: Context, extension: string, dir: string, name: string, r: Record): EntryInfo
    requires |r.preload| < 0x1_0000
  {
    EntryInfo(EntryFile(ctx, r.chunk), true, extension, name, dir, r.crc,
              EntryOffset(ctx, r.offset), r.size, r.preload)
  }

  // ---------------------------------------------------------------------
  // The table

  /** What parsing the table does, one step at a time: an extension or a
      directory read (each gets its key), or an entry built. */
  datatype Event =
    | TypeSeen(extension: string)
    | DirSeen(dir: string)
    | EntryParsed(entry: EntryInfo, record: Record)

  /** Which of the three nested loops is reading. */
  datatype Level = Types | Dirs(extension: string) | Names(extension: string, dir: string)

  /** The events of a parse, then where it stopped or why it failed. */
  datatype Trace = Trace(events: seq<Event>, end: Result<nat>)

  function Cons(e: Event, t: Trace): Trace
  {
    Trace([e] + t.events, t.end)
  }

  /** Events already performed, followed by the rest of a parse. */
  function Then(done: seq<Event>, t: Trace): Trace
  {
    Trace(done + t.events, t.end)
  }

  lemma ThenCons(done: seq<Event>, e: Event, t: Trace)
    ensures Then(done, Cons(e, t)) == Then(done + [e], t)
  {
    assert done + ([e] + t.events) == (done + [e]) + t.events;
  }

  /** The table from `pos` on, at level `lvl`: each level is a list of
      strings closed by an empty string; an extension opens a list of
      directories, a directory a list of names, and each name is followed by
      its record. */
  function Run(data: seq<byte>, pos: nat, lvl: Level, ctx: Context): (t: Trace)
    requires pos <= |data|
    ensures t.end.Ok? ==> pos < t.end.value <= |data|
    decreases |data| - pos
  {
    var s := StringNullAt(data, pos, NAME_LIMIT, false);
    if s.result.Err? then Trace([], Err(s.result.error))
    else
      var str := s.result.value;
      match lvl
      case Types =>
        if str == "" then Trace([], Ok(s.next))
        else Cons(TypeSeen(str), Run(data, s.next, Dirs(str), ctx))
      case Dirs(t) =>
        if str == "" then Run(data, s.next, Types, ctx)
        else
          var d := NormalizeDir(str);
          Cons(DirSeen(d), Run(data, s.next, Names(t, d), ctx))
      case Names(t, d) =>
        if str == "" then Run(data, s.next, Dirs(t), ctx)
        else
          var r := RecordAt(data, s.next);
          if r.result.Err? then Trace([], Err(r.result.error))
          else Cons(EntryParsed(Resolve(ctx, t, d, str, r.result.value), r.result.value),
                    Run(data, r.next, Names(t, d), ctx))
  }

  predicate LevelOk(lvl: Level)
  {
    match lvl
    case Types => true
    case Dirs(t) => t != ""
    case Names(t, d) => t != "" && IsNormalDir(d)
  }

  /** What every entry of a parse satisfies: it is its record resolved in the
      archive's context, under a non-empty extension and name and a
      normalised directory. */
  predicate EntryOk(ctx: Context, ev: Event)
  {
    ev.EntryParsed? ==>
      var e := ev.entry;
      && e.extension != "" && e.name != "" && IsNormalDir(e.dir)
      && |ev.record.preload| < 0x1_0000
      && e == Resolve(ctx, e.extension, e.dir, e.name, ev.record)
  }

  lemma {:induction false} RunEntriesResolved(data: seq<byte>, pos: nat, lvl: Level, ctx: Context)
    requires pos <= |data|
    requires LevelOk(lvl)
    ensures forall i :: 0 <= i < |Run(data, pos, lvl, ctx).events| ==> EntryOk(ctx, Run(data, pos, lvl, ctx).events[i])
    decreases |data| - pos
  {
    var s := StringNullAt(data, pos, NAME_LIMIT, false);
    if s.result.Ok? {
      var str := s.result.value;
      match lvl
      case Types =>
        if str != "" {
          RunEntriesResolved(data, s.next, Dirs(str), ctx);
        }
      case Dirs(t) =>
        if str == "" {
          RunEntriesResolved(data, s.next, Types, ctx);
        } else {
          RunEntriesResolved(data, s.next, Names(t, NormalizeDir(str)), ctx);
        }
      case Names(t, d) =>
        if str == "" {
          RunEntriesResolved(data, s.next, Dirs(t), ctx);
        } else {
          var r := RecordAt(data, s.next);
          if r.result.Ok? {
            RunEntriesResolved(data, r.next, Names(t, d), ctx);
          }
        }
    }
  }

  // ---------------------------------------------------------------------
  // Writing a table and reading it back

  /** A name of the table and the record that follows it. */
  datatype NameRec = NameRec(name: string, record: Record)

  /** A directory string as written, and its names. */
  datatype DirBlock = DirBlock(dir: string, names: seq<NameRec>)

  /** An extension and its directories. */
  datatype TypeBlock = TypeBlock(extension: string, dirs: seq<DirBlock>)

  /** A string the table can hold: ASCII, not empty (the empty string closes
      a list), without zero, and short enough to be read with its terminator. */
  predicate TableString(s: string)
  {
    0 < |s| < NAME_LIMIT && IsAscii(s) && '\0' !in s
  }

  predicate NamesOk(ns: seq<NameRec>)
  {
    forall i :: 0 <= i < |ns| ==> TableString(ns[i].name) && |ns[i].record.preload| < 0x1_0000
  }

  predicate DirsOk(ds: seq<DirBlock>)
  {
    forall i :: 0 <= i < |ds| ==> TableString(ds[i].dir) && NamesOk(ds[i].names)
  }

  predicate TableOk(ts: seq<TypeBlock>)
  {
    forall i :: 0 <= i < |ts| ==> TableString(ts[i].extension) && DirsOk(ts[i].dirs)
  }

  function EncodeString(s: string): (b: seq<byte>)
    requires IsAscii(s)
    ensures |b| == |s| + 1
  {
    Encode(s) + [0]
  }

  /** A name and its record. */
  function EncodeName(n: NameRec): (b: seq<byte>)
    requires TableString(n.name) && |n.record.preload| < 0x1_0000
    ensures |b| == |n.name| + 1 + RECORD_SIZE + |n.record.preload|
  {
    EncodeString(n.name) + EncodeRecord(n.record)
  }

  /** Each name with its record, then the empty string. */
  function EncodeNames(ns: seq<NameRec>): seq<byte>
    requires NamesOk(ns)
  {
    if ns == [] then [0]
    else EncodeName(ns[0]) + EncodeNames(ns[1..])
  }

  /** Each directory with its names, then the empty string. */
  function EncodeDirs(ds: seq<DirBlock>): seq<byte>
    requires DirsOk(ds)
  {
    if ds == [] then [0]
    else EncodeString(ds[0].dir) + EncodeNames(ds[0].names) + EncodeDirs(ds[1..])
  }

  /** Each extension with its directories, then the empty string. */
  function EncodeTable(ts: seq<TypeBlock>): seq<byte>
    requires TableOk(ts)
  {
    if ts == [] then [0]
    else EncodeString(ts[0].extension) + EncodeDirs(ts[0].dirs) + EncodeTable(ts[1..])
  }

  /** The entries the names of directory `d` under extension `t` stand for. */
  function NameEvents(ctx: Context, t: string, d: string, ns: seq<NameRec>): seq<Event>
    requires NamesOk(ns)
  {
    if ns == [] then []
    else
      var e := EntryParsed(Resolve(ctx, t, d, ns[0].name, ns[0].record), ns[0].record);
      [e] + NameEvents(ctx, t, d, ns[1..])
  }

  /** Each directory, normalised, then its entries. */
  function DirEvents(ctx: Context, t: string, ds: seq<DirBlock>): seq<Event>
    requires DirsOk(ds)
  {
    if ds == [] then []
    else
      var d := NormalizeDir(ds[0].dir);
      [DirSeen(d)] + NameEvents(ctx, t, d, ds[0].names) + DirEvents(ctx, t, ds[1..])
  }

  /** Each extension, then its directories and their entries. */
  function TableEvents(ctx: Context, ts: seq<TypeBlock>): seq<Event>
    requires TableOk(ts)
  {
    if ts == [] then []
    else [TypeSeen(ts[0].extension)] + DirEvents(ctx, ts[0].extension, ts[0].dirs) + TableEvents(ctx, ts[1..])
  }

  lemma ConsThen(e: Event, done: seq<Event>, t: Trace)
    ensures Cons(e, Then(done, t)) == Then([e] + done, t)
  {
    assert [e] + (done + t.events) == ([e] + done) + t.events;
  }

  lemma ThenThen(a: seq<Event>, b: seq<Event>, t: Trace)
    ensures Then(a, Then(b, t)) == Then(a + b, t)
  {
    assert a + (b + t.events) == (a + b) + t.events;
  }

  /** Bytes from `pos` to `end` that are `a + b` hold `a` up to `mid` and `b` after it. */
  lemma SliceSplit(data: seq<byte>, pos: nat, mid: nat, end: nat, a: seq<byte>, b: seq<byte>)
    requires mid == pos + |a| && end == mid + |b| && end <= |data|
    requires data[pos..end] == a + b
    ensures data[pos..mid] == a && data[mid..end] == b
  {
    assert data[pos..mid] == data[pos..end][..|a|];
    assert data[mid..end] == data[pos..end][|a|..];
  }

  // Each level of the parse in three parts: a lemma that reads the front of
  // an encoded list (slices only), a lemma for the step `Run` takes on it
  // (`Run` only), and the induction over the list that joins them.

  /** The empty string that closes a list: the parse goes one level out,
      or ends after the list of extensions. */
  lemma EndOfList(data: seq<byte>, pos: nat, next: nat, ctx: Context, t: string, d: string)
    requires next == pos + 1 && next <= |data| && data[pos..next] == [0]
    ensures StringNullAt(data, pos, NAME_LIMIT, false) == Step(Ok(""), next)
    ensures Run(data, pos, Names(t, d), ctx) == Then([], Run(data, next, Dirs(t), ctx))
    ensures Run(data, pos, Dirs(t), ctx) == Then([], Run(data, next, Types, ctx))
    ensures Run(data, pos, Types, ctx) == Trace([], Ok(next))
  {
    assert Encode("") == [];
    StringNullRoundTrip(data, pos, "", NAME_LIMIT);
    assert [] + Run(data, next, Dirs(t), ctx).events == Run(data, next, Dirs(t), ctx).events;
    assert [] + Run(data, next, Types, ctx).events == Run(data, next, Types, ctx).events;
  }

  lemma NameStepOf(data: seq<byte>, pos: nat, ctx: Context, t: string, d: string, name: string, p1: nat, r: Record, p2: nat)
    requires pos <= |data|
    requires StringNullAt(data, pos, NAME_LIMIT, false) == Step(Ok(name), p1) && name != ""
    requires p1 <= |data| && RecordAt(data, p1) == Step(Ok(r), p2)
    ensures |r.preload| < 0x1_0000
    ensures Run(data, pos, Names(t, d), ctx)
         == Cons(EntryParsed(Resolve(ctx, t, d, name, r), r), Run(data, p2, Names(t, d), ctx))
  {
  }

  lemma DirStepOf(data: seq<byte>, pos: nat, ctx: Context, t: string, raw: string, p1: nat)
    requires pos <= |data|
    requires StringNullAt(data, pos, NAME_LIMIT, false) == Step(Ok(raw), p1) && raw != ""
    ensures Run(data, pos, Dirs(t), ctx) == Cons(DirSeen(NormalizeDir(raw)), Run(data, p1, Names(t, NormalizeDir(raw)), ctx))
  {
  }

  lemma TypeStepOf(data: seq<byte>, pos: nat, ctx: Context, t: string, p1: nat)
    requires pos <= |data|
    requires StringNullAt(data, pos, NAME_LIMIT, false) == Step(Ok(t), p1) && t != ""
    ensures Run(data, pos, Types, ctx) == Cons(TypeSeen(t), Run(data, p1, Dirs(t), ctx))
  {
  }

  /** A string of the table from `pos` to `next` is read back, and the cursor is after it. */
  lemma TableStringAt(data: seq<byte>, pos: nat, next: nat, s: string)
    requires TableString(s)
    requires next == pos + |s| + 1 && next <= |data| && data[pos..next] == EncodeString(s)
    ensures StringNullAt(data, pos, NAME_LIMIT, false) == Step(Ok(s), next)
  {
    StringNullRoundTrip(data, pos, s, NAME_LIMIT);
  }

  /** The first name of an encoded list and its record are read back; the
      rest of the list follows them. */
  lemma NamesHead(data: seq<byte>, pos: nat, end: nat, ns: seq<NameRec>, p1: nat, p2: nat)
    requires NamesOk(ns) && ns != []
    requires end == pos + |EncodeNames(ns)| && end <= |data| && data[pos..end] == EncodeNames(ns)
    requires p1 == pos + |ns[0].name| + 1 && p2 == p1 + RECORD_SIZE + |ns[0].record.preload|
    ensures StringNullAt(data, pos, NAME_LIMIT, false) == Step(Ok(ns[0].name), p1)
    ensures RecordAt(data, p1) == Step(Ok(ns[0].record), p2)
    ensures end == p2 + |EncodeNames(ns[1..])| && data[p2..end] == EncodeNames(ns[1..])
  {
    var n := ns[0];
    assert TableString(n.name) && |n.record.preload| < 0x1_0000;
    var a, b, c := EncodeString(n.name), EncodeRecord(n.record), EncodeNames(ns[1..]);
    assert EncodeNames(ns) == a + (b + c);
    SliceSplit(data, pos, p1, end, a, b + c);
    SliceSplit(data, p1, p2, end, b, c);
    TableStringAt(data, pos, p1, n.name);
    RecordRoundTrip(data, p1, n.record);
  }

  /** The first directory of an encoded list is read back, then its names;
      the rest of the list follows them. */
  lemma DirsHead(data: seq<byte>, pos: nat, end: nat, ds: seq<DirBlock>, p1: nat, p2: nat)
    requires DirsOk(ds) && ds != []
    requires end == pos + |EncodeDirs(ds)| && end <= |data| && data[pos..end] == EncodeDirs(ds)
    requires p1 == pos + |ds[0].dir| + 1 && NamesOk(ds[0].names) && p2 == p1 + |EncodeNames(ds[0].names)|
    ensures StringNullAt(data, pos, NAME_LIMIT, false) == Step(Ok(ds[0].dir), p1)
    ensures p2 <= |data| && data[p1..p2] == EncodeNames(ds[0].names)
    ensures end == p2 + |EncodeDirs(ds[1..])| && data[p2..end] == EncodeDirs(ds[1..])
  {
    var db := ds[0];
    assert TableString(db.dir);
    var a, b, c := EncodeString(db.dir), EncodeNames(db.names), EncodeDirs(ds[1..]);
    assert EncodeDirs(ds) == a + (b + c);
    SliceSplit(data, pos, p1, end, a, b + c);
    SliceSplit(data, p1, p2, end, b, c);
    TableStringAt(data, pos, p1, db.dir);
  }

  /** The first extension of an encoded table is read back, then its
      directories; the rest of the table follows them. */
  lemma TypesHead(data: seq<byte>, pos: nat, end: nat, ts: seq<TypeBlock>, p1: nat, p2: nat)
    requires TableOk(ts) && ts != []
    requires end == pos + |EncodeTable(ts)| && end <= |data| && data[pos..end] == EncodeTable(ts)
    requires p1 == pos + |ts[0].extension| + 1 && DirsOk(ts[0].dirs) && p2 == p1 + |EncodeDirs(ts[0].dirs)|
    ensures StringNullAt(data, pos, NAME_LIMIT, false) == Step(Ok(ts[0].extension), p1)
    ensures p2 <= |data| && data[p1..p2] == EncodeDirs(ts[0].dirs)
    ensures end == p2 + |EncodeTable(ts[1..])| && data[p2..end] == EncodeTable(ts[1..])
  {
    var tb := ts[0];
    assert TableString(tb.extension);
    var a, b, c := EncodeString(tb.extension), EncodeDirs(tb.dirs), EncodeTable(ts[1..]);
    assert EncodeTable(ts) == a + (b + c);
    SliceSplit(data, pos, p1, end, a, b + c);
    SliceSplit(data, p1, p2, end, b, c);
    TableStringAt(data, pos, p1, tb.extension);
  }

  /** The names loop reads back the names written, each with its record, and
      hands over to the directories loop after the closing empty string. */
  lemma {:induction false} RunNames(data: seq<byte>, pos: nat, end: nat, ctx: Context, t: string, d: string, ns: seq<NameRec>)
    requires NamesOk(ns)
    requires end == pos + |EncodeNames(ns)| && end <= |data| && data[pos..end] == EncodeNames(ns)
    ensures Run(data, pos, Names(t, d), ctx) == Then(NameEvents(ctx, t, d, ns), Run(data, end, Dirs(t), ctx))
    decreases |ns|
  {
    if ns == [] {
      EndOfList(data, pos, end, ctx, t, d);
    } else {
      var n := ns[0];
      var p1 := pos + |n.name| + 1;
      var p2 := p1 + RECORD_SIZE + |n.record.preload|;
      NamesHead(data, pos, end, ns, p1, p2);
      NameStepOf(data, pos, ctx, t, d, n.name, p1, n.record, p2);
      RunNames(data, p2, end, ctx, t, d, ns[1..]);
      var ev := EntryParsed(Resolve(ctx, t, d, n.name, n.record), n.record);
      ConsThen(ev, NameEvents(ctx, t, d, ns[1..]), Run(data, end, Dirs(t), ctx));
      assert NameEvents(ctx, t, d, ns) == [ev] + NameEvents(ctx, t, d, ns[1..]);
    }
  }

  /** The directories loop reads back the directories written, normalised,
      each with its names, and hands over to the extensions loop. */
  lemma {:induction false} RunDirs(data: seq<byte>, pos: nat, end: nat, ctx: Context, t: string, ds: seq<DirBlock>)
    requires DirsOk(ds)
    requires end == pos + |EncodeDirs(ds)| && end <= |data| && data[pos..end] == EncodeDirs(ds)
    ensures Run(data, pos, Dirs(t), ctx) == Then(DirEvents(ctx, t, ds), Run(data, end, Types, ctx))
    decreases |ds|
  {
    if ds == [] {
      EndOfList(data, pos, end, ctx, t, "");
    } else {
      var db := ds[0];
      assert NamesOk(db.names);
      var p1 := pos + |db.dir| + 1;
      var p2 := p1 + |EncodeNames(db.names)|;
      DirsHead(data, pos, end, ds, p1, p2);
      var d := NormalizeDir(db.dir);
      RunNames(data, p1, p2, ctx, t, d, db.names);
      RunDirs(data, p2, end, ctx, t, ds[1..]);
      DirsStep(data, pos, p1, p2, end, ctx, t, ds);
    }
  }

  /** One directory and its names, then the rest of the directories. */
  lemma DirsStep(data: seq<byte>, pos: nat, p1: nat, p2: nat, end: nat, ctx: Context, t: string, ds: seq<DirBlock>)
    requires DirsOk(ds) && ds != [] && NamesOk(ds[0].names)
    requires pos <= |data| && p1 <= |data| && p2 <= |data| && end <= |data|
    requires StringNullAt(data, pos, NAME_LIMIT, false) == Step(Ok(ds[0].dir), p1) && ds[0].dir != ""
    requires Run(data, p1, Names(t, NormalizeDir(ds[0].dir)), ctx)
          == Then(NameEvents(ctx, t, NormalizeDir(ds[0].dir), ds[0].names), Run(data, p2, Dirs(t), ctx))
    requires Run(data, p2, Dirs(t), ctx) == Then(DirEvents(ctx, t, ds[1..]), Run(data, end, Types, ctx))
    ensures Run(data, pos, Dirs(t), ctx) == Then(DirEvents(ctx, t, ds), Run(data, end, Types, ctx))
  {
    DirStepOf(data, pos, ctx, t, ds[0].dir, p1);
    DirsChain(ctx, t, ds, Run(data, pos, Dirs(t), ctx), Run(data, p1, Names(t, NormalizeDir(ds[0].dir)), ctx),
              Run(data, p2, Dirs(t), ctx), Run(data, end, Types, ctx));
  }

  /** The events of a directory, of its names and of the directories after
      it make up the events of the list. */
  lemma DirsChain(ctx: Context, t: string, ds: seq<DirBlock>, whole: Trace, inner: Trace, mid: Trace, after: Trace)
    requires DirsOk(ds) && ds != [] && NamesOk(ds[0].names)
    requires whole == Cons(DirSeen(NormalizeDir(ds[0].dir)), inner)
    requires inner == Then(NameEvents(ctx, t, NormalizeDir(ds[0].dir), ds[0].names), mid)
    requires mid == Then(DirEvents(ctx, t, ds[1..]), after)
    ensures whole == Then(DirEvents(ctx, t, ds), after)
  {
    var d := NormalizeDir(ds[0].dir);
    var names, rest := NameEvents(ctx, t, d, ds[0].names), DirEvents(ctx, t, ds[1..]);
    ThenThen(names, rest, after);
    ConsThen(DirSeen(d), names + rest, after);
    assert DirEvents(ctx, t, ds) == [DirSeen(d)] + (names + rest);
  }

  /** A table written from extensions, directories, names and records is read
      back as the events that stand for them, and the parse ends right after
      it, whatever precedes or follows it. */
  lemma {:induction false} RunTable(data: seq<byte>, pos: nat, end: nat, ctx: Context, ts: seq<TypeBlock>)
    requires TableOk(ts)
    requires end == pos + |EncodeTable(ts)| && end <= |data| && data[pos..end] == EncodeTable(ts)
    ensures Run(data, pos, Types, ctx) == Trace(TableEvents(ctx, ts), Ok(end))
    decreases |ts|
  {
    if ts == [] {
      EndOfList(data, pos, end, ctx, "", "");
    } else {
      var tb := ts[0];
      assert DirsOk(tb.dirs);
      var p1 := pos + |tb.extension| + 1;
      var p2 := p1 + |EncodeDirs(tb.dirs)|;
      TypesHead(data, pos, end, ts, p1, p2);
      TypeStepOf(data, pos, ctx, tb.extension, p1);
      RunDirs(data, p1, p2, ctx, tb.extension, tb.dirs);
      RunTable(data, p2, end, ctx, ts[1..]);
      var dirs, rest := DirEvents(ctx, tb.extension, tb.dirs), TableEvents(ctx, ts[1..]);
      ConsThen(TypeSeen(tb.extension), dirs, Run(data, p2, Types, ctx));
      assert TableEvents(ctx, ts) == ([TypeSeen(tb.extension)] + dirs) + rest;
    }
  }

  // ---------------------------------------------------------------------
  // The whole file

  /** The version `load` stored, the events it performed and its outcome. */
  datatype LoadTrace = LoadTrace(version: Option<int32>, events: seq<Event>, result: Result<()>)

  /** The check after the table: in version 1 a non-zero dictionary size
      must be the number of bytes the table took. */
  function DictCheck(h: Header, end: Result<nat>): (r: Result<()>)
    ensures end.Ok? ==> (r.Err? <==> h.version == 1 && h.dictSize != 0 && end.value - h.headerSize != h.dictSize)
    ensures end.Err? ==> r == Err(end.error)
  {
    if end.Err? then Err(end.error)
    else if h.version == 1 && h.dictSize != 0 && end.value - h.headerSize != h.dictSize then
      Err(Format(IncorrectDictionarySize(end.value - h.headerSize, h.dictSize)))
    else Ok(())
  }

  /** The load of an existing file's bytes: the header, then the table in
      the context the header and the base name give. */
  function LoadData(data: seq<byte>, file: string, baseDir: Option<string>, stem: Stem): LoadTrace
  {
    var h := HeaderAt(data);
    if h.result.Err? then LoadTrace(h.version, [], Err(h.result.error))
    else
      var hd := h.result.value;
      var ctx := Context(file, baseDir, stem.stem, stem.multiChunk, hd.version, hd.headerSize, hd.dictSize);
      var t := Run(data, hd.headerSize, Types, ctx);
      LoadTrace(h.version, t.events, DictCheck(hd, t.end))
  }

  /** A directory file written as a header whose dictionary size is the
      table's length, followed by a table, loads as the events of that table
      in the context of the header and the base name, and succeeds. */
  lemma LoadRoundTrip(version: int32, reserved: seq<byte>, ts: seq<TypeBlock>, rest: seq<byte>,
                      file: string, baseDir: Option<string>, stem: Stem)
    requires version == 1 || version == 2
    requires |reserved| == HeaderSize(version) - 12
    requires TableOk(ts) && |EncodeTable(ts)| < TWO_31
    ensures var size := |EncodeTable(ts)| as int32;
      var ctx := Context(file, baseDir, stem.stem, stem.multiChunk, version, HeaderSize(version), size);
      LoadData(EncodeHeader(version, reserved, size) + EncodeTable(ts) + rest, file, baseDir, stem)
        == LoadTrace(Some(version), TableEvents(ctx, ts), Ok(()))
  {
    var size := |EncodeTable(ts)| as int32;
    var hs := HeaderSize(version);
    var header, table := EncodeHeader(version, reserved, size), EncodeTable(ts);
    var data := header + table + rest;
    assert data == header + (table + rest);
    HeaderRoundTrip(version, reserved, size, table + rest);
    assert |header| == hs;
    assert data[hs..hs + |table|] == table;
    var ctx := Context(file, baseDir, stem.stem, stem.multiChunk, version, hs, size);
    RunTable(data, hs, hs + |table|, ctx, ts);
  }

  /** `load(file)`, where `baseDir` is the file's parent directory and
      `baseName` its name without extension. */
  function LoadSpec(fs: FileSystem, file: string, baseDir: Option<string>, baseName: string): (lt: LoadTrace)
    ensures file !in fs ==> lt == LoadTrace(None, [], Err(NotFound))
    ensures file in fs ==> lt.version == HeaderAt(fs[file]).version
    ensures file in fs && HeaderAt(fs[file]).result.Err? ==>
      lt.events == [] && lt.result == Err(HeaderAt(fs[file]).result.error)
    ensures lt.result.Ok? ==> file in fs && HeaderAt(fs[file]).result.Ok?
  {
    if file !in fs then LoadTrace(None, [], Err(NotFound))
    else LoadData(fs[file], file, baseDir, ArchiveStem(baseName))
  }

  function LoadContext(fs: FileSystem, file: string, baseDir: Option<string>, baseName: string): Context
    requires file in fs && HeaderAt(fs[file]).result.Ok?
  {
    var hd := HeaderAt(fs[file]).result.value;
    var stem := ArchiveStem(baseName);
    Context(file, baseDir, stem.stem, stem.multiChunk, hd.version, hd.headerSize, hd.dictSize)
  }

  /** Every entry a load produces, even a failed one, is a record of the file
      resolved in the load's context: the chunk file of a multi-chunk
      archive, the fixed-up offset of a single-file version-1 archive. */
  lemma LoadEntriesResolved(fs: FileSystem, file: string, baseDir: Option<string>, baseName: string)
    ensures var lt := LoadSpec(fs, file, baseDir, baseName);
      forall i :: 0 <= i < |lt.events| ==> EntryOk(LoadContext(fs, file, baseDir, baseName), lt.events[i])
  {
    if file in fs && HeaderAt(fs[file]).result.Ok? {
      var hd := HeaderAt(fs[file]).result.value;
      RunEntriesResolved(fs[file], hd.headerSize, Types, LoadContext(fs, file, baseDir, baseName));
    }
  }

  /** A load succeeds only on a file that starts with the signature and has a
      supported version. */
  lemma LoadNeedsHeader(fs: FileSystem, file: string, baseDir: Option<string>, baseName: string)
    ensures var lt := LoadSpec(fs, file, baseDir, baseName);
      lt.result.Ok? ==>
        && file in fs && |fs[file]| >= 8 && fs[file][..4] == SIGNATURE_BYTES
        && lt.version.Some? && (lt.version.value == 1 || lt.version.value == 2)
    ensures file !in fs ==> LoadSpec(fs, file, baseDir, baseName).result == Err(NotFound)
  {
    if file in fs {
      HeaderSignature(fs[file]);
    }
  }

  /** The dictionary-size check applies to version 1 only, and fails exactly
      when a non-zero size differs from the bytes the table took. */
  lemma LoadDictionarySize(fs: FileSystem, file: string, baseDir: Option<string>, baseName: string)
    requires file in fs && HeaderAt(fs[file]).result.Ok?
    ensures var hd := HeaderAt(fs[file]).result.value;
      var t := Run(fs[file], hd.headerSize, Types, LoadContext(fs, file, baseDir, baseName));
      var lt := LoadSpec(fs, file, baseDir, baseName);
      t.end.Ok? ==>
        && (lt.result.Err? <==> hd.version == 1 && hd.dictSize != 0 && t.end.value - hd.headerSize != hd.dictSize)
        && (hd.version == 2 ==> lt.result.Ok?)
  {
  }
}
