/** One file stored in a VPK archive: where its bytes live, the preloaded
    bytes kept in the directory file, the cached data buffer and the CRC-32
    integrity check. */
module VpkEntry {
  import opened Bytes
  import opened Results
  import opened Crc

  /** The files the reader can see: a path that is not a key does not exist. */
  type FileSystem = map<string, seq<byte>>

  /** A Java `byte[]`: at most 2^31 - 1 elements. */
  type JavaBytes = s: seq<byte> | |s| < TWO_31

  /** The `size` bytes at `offset` of `file`: what mapping or loading that
      region yields. A missing file, a negative offset or size, and a region
      past the end of the file are the three ways it fails. */
  function Region(fs: FileSystem, file: string, offset: int, size: int): (r: Result<seq<byte>>)
    ensures r.Ok? <==> file in fs && 0 <= offset && 0 <= size && offset + size <= |fs[file]|
    ensures r.Ok? ==> r.value == fs[file][offset..offset + size]
    ensures file !in fs ==> r == Err(NotFound)
  {
    if file !in fs then Err(NotFound)
    else if offset < 0 || size < 0 then Err(InvalidArgument)
    else if offset + size > |fs[file]| then Err(Truncated)
    else Ok(fs[file][offset..offset + size])
  }

  /** The metadata of an entry, as the fields of `VPKEntry` hold it. */
  datatype EntryInfo = EntryInfo(
    file: string,
    readOnly: bool,
    extension: string,
    name: string,
    dir: string,
    crc32: int64,
    offset: int32,
    size: int32,
    preload: JavaBytes)

  /** `getPath()`: directory, name, a dot and the extension, in that order. */
  function PathOf(dir: string, name: string, extension: string): (p: string)
    ensures |p| == |dir| + |name| + 1 + |extension|
    ensures p[..|dir|] == dir
    ensures p[|dir|..|dir| + |name|] == name
    ensures p[|dir| + |name|] == '.'
    ensures p[|dir| + |name| + 1..] == extension
  {
    dir + name + "." + extension
  }

  function EntryPath(e: EntryInfo): string
  {
    PathOf(e.dir, e.name, e.extension)
  }

  /** `getDataSize()`: preload and archive bytes together, in Java `int`
      arithmetic, so a total of 2^31 or more comes out negative. */
  function DataSize(size: int32, preload: JavaBytes): (n: int32)
    ensures 0 <= size ==> (n < 0 <==> size + |preload| >= TWO_31)
    ensures 0 <= size ==> (0 <= n ==> n == size + |preload|)
    ensures (n - (size + |preload|)) % TWO_32 == 0
  {
    Wrap32(size + |preload|)
  }

  // Path splitting, as `setPath` asks `FilenameUtils` for it, for paths
  // without a prefix.

  predicate IsSeparator(c: char)
  {
    c == '/' || c == '\\'
  }

  /** The character `LastIndex` looks for: a separator, or a dot. */
  predicate Marks(c: char, dot: bool)
  {
    if dot then c == '.' else IsSeparator(c)
  }

  /** The index of the last character of `s` that `Marks` accepts; -1 if there is none. */
  function LastIndex(s: string, dot: bool): (k: int)
    ensures -1 <= k < |s|
    ensures 0 <= k ==> Marks(s[k], dot)
    ensures forall i :: k < i < |s| ==> !Marks(s[i], dot)
    decreases |s|
  {
    if s == [] then -1
    else if Marks(s[|s| - 1], dot) then |s| - 1
    else LastIndex(s[..|s| - 1], dot)
  }

  /** The last marked position is determined by the marks: a marked `k` with
      nothing marked after it is the answer. */
  lemma {:induction false} LastIndexIs(s: string, dot: bool, k: int)
    requires -1 <= k < |s|
    requires 0 <= k ==> Marks(s[k], dot)
    requires forall i :: k < i < |s| ==> !Marks(s[i], dot)
    ensures LastIndex(s, dot) == k
    decreases |s|
  {
    if s != [] && k < |s| - 1 {
      assert !Marks(s[|s| - 1], dot);
      var s' := s[..|s| - 1];
      assert forall i :: k < i < |s'| ==> s'[i] == s[i];
      LastIndexIs(s', dot, k);
    }
  }

  datatype PathParts = PathParts(dir: string, name: string, extension: string)

  /** `getPath`, `getBaseName` and `getExtension`: the directory up to and
      including the last separator, then the file name split at its last dot. */
  function SplitPath(p: string): PathParts
  {
    var k := LastIndex(p, false);
    var file := p[k + 1..];
    var j := LastIndex(file, true);
    if j < 0 then PathParts(p[..k + 1], file, "")
    else PathParts(p[..k + 1], file[..j], file[j + 1..])
  }

  /** A file name joined to an extension has no separator, and its last dot
      is the one before the extension. */
  lemma SplitFileOf(name: string, extension: string, file: string)
    requires file == name + "." + extension
    requires forall i :: 0 <= i < |name| ==> !IsSeparator(name[i])
    requires forall i :: 0 <= i < |extension| ==> !IsSeparator(extension[i]) && extension[i] != '.'
    ensures forall i :: 0 <= i < |file| ==> !IsSeparator(file[i])
    ensures LastIndex(file, true) == |name|
    ensures file[..|name|] == name && file[|name| + 1..] == extension
  {
    forall i | 0 <= i < |file| ensures !Marks(file[i], false) && (|name| < i ==> !Marks(file[i], true)) {
      if i < |name| {
        assert file[i] == name[i];
      } else if i > |name| {
        assert file[i] == extension[i - |name| - 1];
      }
    }
    LastIndexIs(file, true, |name|);
  }

  /** The last separator of a directory followed by a separator-free file
      name is the directory's own last character. */
  lemma SplitDirOf(dir: string, file: string, p: string)
    requires p == dir + file
    requires dir == [] || IsSeparator(dir[|dir| - 1])
    requires forall i :: 0 <= i < |file| ==> !IsSeparator(file[i])
    ensures LastIndex(p, false) == |dir| - 1
    ensures p[..|dir|] == dir && p[|dir|..] == file
  {
    forall i | |dir| - 1 < i < |p| ensures !Marks(p[i], false) {
      assert p[i] == file[i - |dir|];
    }
    if dir != [] {
      assert p[|dir| - 1] == dir[|dir| - 1];
    }
    LastIndexIs(p, false, |dir| - 1);
  }

  /** Splitting undoes `getPath()` whenever the parts are themselves
      well formed: a directory that is empty or ends in a separator, and a name
      and an extension without separators, the extension without a dot. */
  lemma SplitPathOf(dir: string, name: string, extension: string)
    requires dir == [] || IsSeparator(dir[|dir| - 1])
    requires forall i :: 0 <= i < |name| ==> !IsSeparator(name[i])
    requires forall i :: 0 <= i < |extension| ==> !IsSeparator(extension[i]) && extension[i] != '.'
    ensures SplitPath(PathOf(dir, name, extension)) == PathParts(dir, name, extension)
  {
    var file := name + "." + extension;
    var p := dir + file;
    SplitFileOf(name, extension, file);
    SplitDirOf(dir, file, p);
    assert PathOf(dir, name, extension) == p;
  }

  /** The buffer `getData` keeps in `bb`: none yet, or the bytes of the last
      buffer it built or mapped (its capacity is their number). */
  datatype Cache = Empty | Held(bytes: seq<byte>)

  /** What one `getData` call returns and the cache it leaves. */
  datatype Fetched = Fetched(data: Result<seq<byte>>, cache: Cache)

  /** A cache `getData` can leave: it never keeps an empty buffer. */
  predicate CacheValid(c: Cache)
  {
    c.Held? ==> |c.bytes| > 0
  }

  function Zeros(n: nat): (z: seq<byte>)
    ensures |z| == n && forall i :: 0 <= i < n ==> z[i] == 0
  {
    seq(n, _ => 0)
  }

  /** `getData()`, case by case in the order the source tests them. */
  function Fetch(e: EntryInfo, cache: Cache, fs: FileSystem): (f: Fetched)
    ensures CacheValid(cache) ==> CacheValid(f.cache)
    ensures f.data.Ok? && f.cache != cache ==> f.cache == Held(f.data.value)
  {
    if e.size == 0 && |e.preload| == 0 then
      Fetched(Ok([]), cache)
    else if cache.Held? && |cache.bytes| == e.size then
      Fetched(Ok(cache.bytes), cache)
    else if e.size == 0 then
      Fetched(Ok(e.preload), cache)
    else if e.size > 0 && |e.preload| > 0 then
      var total := DataSize(e.size, e.preload);
      if total < 0 then Fetched(Err(InvalidArgument), cache)
      else
        var ext := Region(fs, e.file, e.offset, e.size);
        if ext.Ok? then Fetched(Ok(e.preload + ext.value), Held(e.preload + ext.value))
        else Fetched(Err(ext.error), Held(e.preload + Zeros(e.size)))
    else if e.readOnly && e.file !in fs then
      Fetched(Err(NotFound), cache)
    else
      var mapped := Region(fs, e.file, e.offset, e.size);
      if mapped.Ok? then Fetched(Ok(mapped.value), Held(mapped.value))
      else Fetched(Err(mapped.error), cache)
  }

  /** Nothing defined: an empty buffer, whatever the file system and the cache,
      and the cache is left alone. */
  lemma FetchNothing(e: EntryInfo, cache: Cache, fs: FileSystem)
    requires e.size == 0 && |e.preload| == 0
    ensures Fetch(e, cache, fs) == Fetched(Ok([]), cache)
  {
  }

  /** Only preloaded bytes: exactly those, without the file and without
      setting the cache. */
  lemma FetchPreloadOnly(e: EntryInfo, cache: Cache, fs: FileSystem, fs': FileSystem)
    requires CacheValid(cache)
    requires e.size == 0 && |e.preload| > 0
    ensures Fetch(e, cache, fs) == Fetched(Ok(e.preload), cache)
    ensures Fetch(e, cache, fs) == Fetch(e, cache, fs')
  {
  }

  /** A buffer in the cache whose capacity is the external size is returned
      as it is once anything is defined. */
  lemma FetchCached(e: EntryInfo, bytes: seq<byte>, fs: FileSystem)
    requires !(e.size == 0 && |e.preload| == 0)
    requires |bytes| == e.size
    ensures Fetch(e, Held(bytes), fs) == Fetched(Ok(bytes), Held(bytes))
  {
  }

  /** Preload and external bytes: a buffer of `getDataSize()` bytes, the
      preload first and then the `size` bytes at `offset` of the file, which
      also becomes the cache. */
  lemma FetchConcat(e: EntryInfo, cache: Cache, fs: FileSystem)
    requires e.size > 0 && |e.preload| > 0
    requires !(cache.Held? && |cache.bytes| == e.size)
    requires e.size + |e.preload| < TWO_31
    requires e.file in fs && 0 <= e.offset && e.offset + e.size <= |fs[e.file]|
    ensures var f := Fetch(e, cache, fs);
      && f.data.Ok?
      && |f.data.value| == DataSize(e.size, e.preload)
      && f.data.value[..|e.preload|] == e.preload
      && f.data.value[|e.preload|..] == fs[e.file][e.offset..e.offset + e.size]
      && f.cache == Held(f.data.value)
  {
    var f := Fetch(e, cache, fs);
    assert f.data.value == e.preload + fs[e.file][e.offset..e.offset + e.size];
  }

  /** A read-only entry whose data is all external fails when the file is
      missing, and keeps its cache. */
  lemma FetchMissingFile(e: EntryInfo, cache: Cache, fs: FileSystem)
    requires e.size > 0 && |e.preload| == 0 && e.readOnly && e.file !in fs
    requires !(cache.Held? && |cache.bytes| == e.size)
    ensures Fetch(e, cache, fs) == Fetched(Err(NotFound), cache)
  {
  }

  /** All data external, read-only or read-write: the `size` bytes at `offset`
      of the file, mapped, which also become the cache. */
  lemma FetchMapped(e: EntryInfo, cache: Cache, fs: FileSystem)
    requires e.size > 0 && |e.preload| == 0
    requires !(cache.Held? && |cache.bytes| == e.size)
    requires e.file in fs && 0 <= e.offset && e.offset + e.size <= |fs[e.file]|
    ensures Fetch(e, cache, fs) ==
      Fetched(Ok(fs[e.file][e.offset..e.offset + e.size]), Held(fs[e.file][e.offset..e.offset + e.size]))
  {
  }

  /** All data external but the region cannot be mapped: a missing file, a
      negative offset or a region past the end of the file is the error
      `Region` gives, whether read-only or read-write, and the cache is kept. */
  lemma FetchMappedFails(e: EntryInfo, cache: Cache, fs: FileSystem)
    requires e.size > 0 && |e.preload| == 0
    requires !(cache.Held? && |cache.bytes| == e.size)
    requires !(e.file in fs && 0 <= e.offset && e.offset + e.size <= |fs[e.file]|)
    ensures Fetch(e, cache, fs) == Fetched(Region(fs, e.file, e.offset, e.size), cache)
    ensures Fetch(e, cache, fs).data.Err?
  {
  }

  /** A second `getData()` on an unchanged entry and file system returns what
      the first returned and leaves the cache where the first left it. */
  lemma FetchIdempotent(e: EntryInfo, cache: Cache, fs: FileSystem)
    requires CacheValid(cache)
    ensures var f := Fetch(e, cache, fs); Fetch(e, f.cache, fs) == f
  {
    var f := Fetch(e, cache, fs);
    if !(e.size == 0 && |e.preload| == 0) && !(cache.Held? && |cache.bytes| == e.size)
      && e.size != 0 && e.size > 0 && |e.preload| > 0
    {
      var total := DataSize(e.size, e.preload);
      if 0 <= total {
        assert f.cache.Held? && |f.cache.bytes| == total && total != e.size;
      }
    }
  }

  /** What `calcCRC32()` returns for the outcome of `getData()`. */
  function ChecksumOf(data: Result<seq<byte>>): (r: Result<uint32>)
    ensures r.Ok? <==> data.Ok?
    ensures data.Ok? ==> r.value == Checksum(data.value)
  {
    if data.Ok? then Ok(Checksum(data.value)) else Err(data.error)
  }

  /** What `checkData()` concludes from the stored and the actual checksum. */
  function Verdict(expected: int64, data: Result<seq<byte>>): (r: Result<()>)
    ensures r.Ok? <==> data.Ok? && Checksum(data.value) == expected
    ensures data.Ok? && Checksum(data.value) != expected ==>
      r == Err(Integrity(Checksum(data.value), expected))
    ensures data.Err? ==> r == Err(data.error)
  {
    if data.Err? then Err(data.error)
    else if Checksum(data.value) != expected then Err(Integrity(Checksum(data.value), expected))
    else Ok(())
  }

  /** `updateCRC32()` followed by `checkData()` succeeds when neither the entry
      nor the file system changed in between. */
  lemma UpdateThenCheck(e: EntryInfo, cache: Cache, fs: FileSystem)
    requires CacheValid(cache)
    requires Fetch(e, cache, fs).data.Ok?
    ensures var f := Fetch(e, cache, fs);
      var e' := e.(crc32 := Checksum(f.data.value));
      Verdict(e'.crc32, Fetch(e', f.cache, fs).data) == Ok(())
  {
    var f := Fetch(e, cache, fs);
    var e' := e.(crc32 := Checksum(f.data.value));
    FetchIdempotent(e, cache, fs);
    assert Fetch(e', f.cache, fs) == Fetch(e, f.cache, fs);
  }

  /** One round of `calcCRC32()`'s loop: `bbCheck.get(buf, 0, n)`, then
      `crc.update(buf, 0, n)`, which feeds the next `n` bytes of the view. */
  method FeedChunk(crc: Accumulator, buf: array<byte>, view: seq<byte>, pos: nat, n: nat)
    requires crc.Valid() && n <= buf.Length && pos + n <= |view|
    modifies crc, buf
    ensures crc.Valid() && crc.fed == old(crc.fed) + view[pos..pos + n]
  {
    forall i | 0 <= i < n {
      buf[i] := view[pos + i];
    }
    assert buf[0..0 + n] == view[pos..pos + n];
    crc.Update(buf, 0, n);
  }

  /** `calcCRC32()`'s loop: the view is drained through a 4096-byte array
      into one accumulator, chunk by chunk; the result is the checksum of
      the whole view. */
  method DrainChecksum(view: seq<byte>) returns (value: uint32)
    ensures value == Checksum(view)
  {
    var crc := new Accumulator();
    var buf := new byte[4096];
    var pos := 0;
    while pos < |view|
      invariant pos <= |view|
      invariant crc.Valid() && crc.fed == view[..pos]
    {
      var chunk := if buf.Length < |view| - pos then buf.Length else |view| - pos;
      FeedChunk(crc, buf, view, pos, chunk);
      assert view[..pos] + view[pos..pos + chunk] == view[..pos + chunk];
      pos := pos + chunk;
    }
    assert view[..pos] == view;
    value := crc.Value();
  }

  /** `VPKEntry`: the metadata fields, with their setters, and the buffer
      cache of `getData()`. */
  class Entry {
    const file: string
    const readOnly: bool
    var extension: string
    var name: string
    var dir: string
    var crc32: int64
    var offset: int32
    var size: int32
    var preload: JavaBytes
    var cache: Cache

    ghost predicate Valid()
      reads this`cache
    {
      CacheValid(cache)
    }

    /** The metadata as a value, leaving out the cache. */
    function Info(): EntryInfo
      reads this`extension, this`name, this`dir, this`crc32, this`offset, this`size, this`preload
    {
      EntryInfo(file, readOnly, extension, name, dir, crc32, offset, size, preload)
    }

    /** An entry of `file`: the numbers zero, no preload bytes and no cache, as
        in Java; the names empty, where Java leaves them null until `load`
        sets them. */
    constructor (file: string, readOnly: bool)
      ensures Valid()
      ensures Info() == EntryInfo(file, readOnly, "", "", "", 0, 0, 0, [])
      ensures cache == Empty
    {
      this.file := file;
      this.readOnly := readOnly;
      extension, name, dir := "", "", "";
      crc32, offset, size := 0, 0, 0;
      preload := [];
      cache := Empty;
    }

    function Path(): string
      reads this`extension, this`name, this`dir
    {
      PathOf(dir, name, extension)
    }

    /** `getDataSize()`: the preload and the external bytes together, as a
        Java `int`. */
    function GetDataSize(): (n: int32)
      reads this`size, this`preload
      ensures 0 <= size && size + |preload| < TWO_31 ==> n == size + |preload|
      ensures 0 <= size && size + |preload| >= TWO_31 ==> n < 0
      ensures (n - (size + |preload|)) % TWO_32 == 0
    {
      DataSize(size, preload)
    }

    /** `getPreloadSize()`: the number of preloaded bytes. */
    function PreloadSize(): (n: nat)
      reads this`preload
      ensures n == |preload| && n < TWO_31
    {
      |preload|
    }

    method SetType(extension: string)
      modifies this`extension
      ensures Info() == old(Info()).(extension := extension)
    {
      this.extension := extension;
    }

    method SetName(name: string)
      modifies this`name
      ensures Info() == old(Info()).(name := name)
    {
      this.name := name;
    }

    method SetDir(dir: string)
      modifies this`dir
      ensures Info() == old(Info()).(dir := dir)
    {
      this.dir := dir;
    }

    method SetCRC32(crc32: int64)
      modifies this`crc32
      ensures Info() == old(Info()).(crc32 := crc32)
    {
      this.crc32 := crc32;
    }

    method SetOffset(offset: int32)
      modifies this`offset
      ensures Info() == old(Info()).(offset := offset)
    {
      this.offset := offset;
    }

    method SetSize(size: int32)
      modifies this`size
      ensures Info() == old(Info()).(size := size)
    {
      this.size := size;
    }

    method SetPreloadData(preload: JavaBytes)
      modifies this`preload
      ensures Info() == old(Info()).(preload := preload)
    {
      this.preload := preload;
    }

    /** `setPreloadSize(n)`: a new zero-filled preload array of `n` bytes; a
        negative size is refused and changes nothing. */
    method SetPreloadSize(preloadSize: int32) returns (r: Result<()>)
      modifies this`preload
      ensures r.Ok? <==> 0 <= preloadSize
      ensures r.Err? ==> r.error == InvalidArgument && Info() == old(Info())
      ensures r.Ok? ==> Info() == old(Info()).(preload := Zeros(preloadSize))
    {
      if preloadSize < 0 {
        return Err(InvalidArgument);
      }
      preload := Zeros(preloadSize);
      r := Ok(());
    }

    /** `setPath(path)`: the extension, base name and directory of `path`. */
    method SetPath(path: string)
      modifies this`extension, this`name, this`dir
      ensures var parts := SplitPath(path);
        Info() == old(Info()).(extension := parts.extension, name := parts.name, dir := parts.dir)
    {
      var parts := SplitPath(path);
      SetType(parts.extension);
      SetName(parts.name);
      SetDir(parts.dir);
    }

    /** `getData()`: the entry's bytes, built, mapped or taken from the cache. */
    method GetData(fs: FileSystem) returns (r: Result<seq<byte>>)
      requires Valid()
      modifies this`cache
      ensures Valid()
      ensures var f := Fetch(old(Info()), old(cache), fs); r == f.data && cache == f.cache
    {
      if size == 0 && |preload| == 0 {
        return Ok([]);
      }
      if cache.Held? && |cache.bytes| == size {
        return Ok(cache.bytes);
      }
      if size == 0 && |preload| > 0 {
        return Ok(preload);
      }
      if size > 0 && |preload| > 0 {
        var total := GetDataSize();
        if total < 0 {
          return Err(InvalidArgument);
        }
        // allocateDirect, put(preload), then load the external bytes behind it
        var buf := new byte[total](_ => 0);
        forall i | 0 <= i < |preload| {
          buf[i] := preload[i];
        }
        var ext := Region(fs, file, offset, size);
        if ext.Ok? {
          forall i | 0 <= i < size as int {
            buf[|preload| + i] := ext.value[i];
          }
        }
        cache := Held(buf[..]);
        if ext.Err? {
          assert buf[..] == preload + Zeros(size);
          return Err(ext.error);
        }
        assert buf[..] == preload + ext.value;
        return Ok(buf[..]);
      } else if readOnly {
        if file !in fs {
          return Err(NotFound);
        }
        r := Region(fs, file, offset, size);
      } else {
        r := Region(fs, file, offset, size);
      }
      if r.Ok? {
        cache := Held(r.value);
      }
    }

    /** `calcCRC32()`: the checksum of what `getData()` returns. */
    method CalcCRC32(fs: FileSystem) returns (r: Result<uint32>)
      requires Valid()
      modifies this`cache
      ensures Valid()
      ensures var f := Fetch(old(Info()), old(cache), fs); r == ChecksumOf(f.data) && cache == f.cache
    {
      var view :- GetData(fs);
      var value := DrainChecksum(view);
      r := Ok(value);
    }

    /** `checkData()`: fails when the data cannot be read or its checksum is
        not the stored one. */
    method CheckData(fs: FileSystem) returns (r: Result<()>)
      requires Valid()
      modifies this`cache
      ensures Valid()
      ensures var f := Fetch(old(Info()), old(cache), fs); r == Verdict(crc32, f.data) && cache == f.cache
    {
      var target := crc32;
      var actual :- CalcCRC32(fs);
      if actual != target {
        return Err(Integrity(actual, target));
      }
      r := Ok(());
    }

    /** `updateCRC32()`: stores the checksum of the current data; a failed
        read leaves the stored value as it was. */
    method UpdateCRC32(fs: FileSystem) returns (r: Result<()>)
      requires Valid()
      modifies this`cache, this`crc32
      ensures Valid()
      ensures var f := Fetch(old(Info()), old(cache), fs);
        && cache == f.cache
        && (r.Ok? <==> f.data.Ok?)
        && (f.data.Ok? ==> Info() == old(Info()).(crc32 := Checksum(f.data.value)))
        && (f.data.Err? ==> r == Err(f.data.error) && Info() == old(Info()))
    {
      var value :- CalcCRC32(fs);
      SetCRC32(value);
      r := Ok(());
    }
  }
}
