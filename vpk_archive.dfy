/** `VPKArchive`: the list of entries and the three indexes over it, the
    version and the multi-chunk flag, and `load`, which fills them from a
    directory file with three nested loops. */
module VpkArchive {
  import opened Bytes
  import opened Results
  import opened DataInput
  import opened VpkEntry
  import opened VpkFormat
  import opened VpkIndex

  /** Every entry of `s` is one of `pool`. */
  predicate Within(s: seq<Entry>, pool: set<Entry>)
  {
    forall e | e in s :: e in pool
  }

  /** Every list of an index holds entries of `pool` only. */
  predicate ListsWithin(m: map<string, seq<Entry>>, pool: set<Entry>)
  {
    forall k | k in m :: Within(m[k], pool)
  }

  predicate ValuesWithin(m: map<string, Entry>, pool: set<Entry>)
  {
    forall k | k in m :: m[k] in pool
  }

  /** The metadata of a list of entries, in order. */
  function Infos(s: seq<Entry>): (r: seq<EntryInfo>)
    reads s
    ensures |r| == |s|
    ensures forall i :: 0 <= i < |s| ==> r[i] == s[i].Info()
  {
    seq(|s|, i reads s requires 0 <= i < |s| => s[i].Info())
  }

  lemma InfosSnoc(s: seq<Entry>, e: Entry)
    ensures Infos(s + [e]) == Infos(s) + [e.Info()]
  {
    assert forall i :: 0 <= i < |s| ==> (s + [e])[i] == s[i];
  }

  /** The metadata of each list of an index. */
  ghost function InfoLists(m: map<string, seq<Entry>>, pool: set<Entry>): (r: map<string, seq<EntryInfo>>)
    reads pool
    requires ListsWithin(m, pool)
    ensures r.Keys == m.Keys
    ensures forall k | k in m :: r[k] == Infos(m[k])
  {
    map k | k in m :: Infos(m[k])
  }

  /** The metadata of each entry of the path index. */
  ghost function PathInfos(m: map<string, Entry>, pool: set<Entry>): (r: map<string, EntryInfo>)
    reads pool
    requires ValuesWithin(m, pool)
    ensures r.Keys == m.Keys
    ensures forall k | k in m :: r[k] == m[k].Info()
  {
    map k | k in m :: m[k].Info()
  }

  /** Every entry an index refers to is one of `pool`. */
  predicate IndexWithin(v: Index<Entry>, pool: set<Entry>)
  {
    && Within(v.entries, pool)
    && ListsWithin(v.byType, pool)
    && ListsWithin(v.byDir, pool)
    && ValuesWithin(v.byPath, pool)
  }

  /** An index of entry objects as the index of their metadata. */
  ghost function ViewOf(v: Index<Entry>, pool: set<Entry>): ArchiveView
    reads pool
    requires IndexWithin(v, pool)
  {
    Index(Infos(v.entries), InfoLists(v.byType, pool), InfoLists(v.byDir, pool), PathInfos(v.byPath, pool))
  }

  lemma InfoListsPush(m: map<string, seq<Entry>>, pool: set<Entry>, k: string, x: Entry)
    requires ListsWithin(m, pool) && x in pool
    ensures ListsWithin(m[k := Lookup(m, k) + [x]], pool)
    ensures InfoLists(m[k := Lookup(m, k) + [x]], pool)
         == InfoLists(m, pool)[k := Lookup(InfoLists(m, pool), k) + [x.Info()]]
  {
    InfosSnoc(Lookup(m, k), x);
  }

  lemma InfoListsAdd(m: map<string, seq<Entry>>, pool: set<Entry>, k: string)
    requires ListsWithin(m, pool)
    ensures ListsWithin(m[k := []], pool)
    ensures InfoLists(m[k := []], pool) == InfoLists(m, pool)[k := []]
  {
  }

  lemma InfoListsGrow(m: map<string, seq<Entry>>, pool: set<Entry>, bigger: set<Entry>)
    requires ListsWithin(m, pool) && pool <= bigger
    ensures ListsWithin(m, bigger)
    ensures InfoLists(m, bigger) == InfoLists(m, pool)
  {
  }

  lemma PathInfosPut(m: map<string, Entry>, pool: set<Entry>, k: string, e: Entry)
    requires ValuesWithin(m, pool) && e in pool
    ensures ValuesWithin(m[k := e], pool)
    ensures PathInfos(m[k := e], pool) == PathInfos(m, pool)[k := e.Info()]
  {
  }

  lemma PathInfosGrow(m: map<string, Entry>, pool: set<Entry>, bigger: set<Entry>)
    requires ValuesWithin(m, pool) && pool <= bigger
    ensures ValuesWithin(m, bigger)
    ensures PathInfos(m, bigger) == PathInfos(m, pool)
  {
  }

  lemma ViewOfGrow(v: Index<Entry>, pool: set<Entry>, bigger: set<Entry>)
    requires IndexWithin(v, pool) && pool <= bigger
    ensures IndexWithin(v, bigger)
    ensures ViewOf(v, bigger) == ViewOf(v, pool)
  {
    InfoListsGrow(v.byType, pool, bigger);
    InfoListsGrow(v.byDir, pool, bigger);
    PathInfosGrow(v.byPath, pool, bigger);
  }

  /** A new extension or directory key is the same on objects and on values. */
  lemma ViewOfAddKey(v: Index<Entry>, pool: set<Entry>, ev: Event)
    requires IndexWithin(v, pool) && !ev.EntryParsed?
    ensures IndexWithin(AddKey(v, ev), pool)
    ensures ViewOf(AddKey(v, ev), pool) == AddKey(ViewOf(v, pool), ev)
  {
    match ev
    case TypeSeen(t) =>
      if t !in v.byType {
        InfoListsAdd(v.byType, pool, t);
      }
    case DirSeen(d) =>
      if d !in v.byDir {
        InfoListsAdd(v.byDir, pool, d);
      }
  }

  /** Filing an entry object is filing its metadata. */
  lemma ViewOfInsert(v: Index<Entry>, pool: set<Entry>, x: Entry)
    requires IndexWithin(v, pool) && x in pool
    ensures IndexWithin(Insert(v, x.Info(), x), pool)
    ensures ViewOf(Insert(v, x.Info(), x), pool) == Insert(ViewOf(v, pool), x.Info(), x.Info())
  {
    var e := x.Info();
    InfosSnoc(v.entries, x);
    InfoListsPush(v.byType, pool, e.extension, x);
    InfoListsPush(v.byDir, pool, e.dir, x);
    PathInfosPut(v.byPath, pool, EntryPath(e), x);
  }

  /** Replaying the events on the objects that carry their entries, then
      taking the metadata, is applying the events to the metadata. */
  lemma {:induction false} ViewOfReplay(v: Index<Entry>, pool: set<Entry>, evs: seq<Event>, xs: seq<Entry>)
    requires IndexWithin(v, pool) && Within(xs, pool)
    requires |xs| == |Parsed(evs)| && Infos(xs) == Parsed(evs)
    ensures IndexWithin(Replay(v, evs, xs), pool)
    ensures ViewOf(Replay(v, evs, xs), pool) == ApplyAll(ViewOf(v, pool), evs)
    decreases |evs|
  {
    if evs != [] {
      var init, ev := evs[..|evs| - 1], evs[|evs| - 1];
      assert evs == init + [ev];
      ParsedSnoc(init, ev);
      ApplyAllSnoc(ViewOf(v, pool), init, ev);
      if ev.EntryParsed? {
        var xi, x := xs[..|xs| - 1], xs[|xs| - 1];
        assert xs == xi + [x];
        InfosSnoc(xi, x);
        ViewOfReplay(v, pool, init, xi);
        ViewOfInsert(Replay(v, init, xi), pool, x);
      } else {
        ViewOfReplay(v, pool, init, xs);
        ViewOfAddKey(Replay(v, init, xs), pool, ev);
      }
    }
  }

  /** One name of the innermost loop and its record make one entry. */
  lemma NameStep(data: seq<byte>, pos: nat, t: string, d: string, ctx: Context)
    requires pos <= |data|
    ensures var s := StringNullAt(data, pos, NAME_LIMIT, false);
      s.result.Ok? && s.result.value != "" && RecordAt(data, s.next).result.Ok? ==>
        var r := RecordAt(data, s.next);
        Run(data, pos, Names(t, d), ctx) ==
          Cons(EntryParsed(Resolve(ctx, t, d, s.result.value, r.result.value), r.result.value),
               Run(data, r.next, Names(t, d), ctx))
  {
  }

  /** The 18 bytes of a record and its preload bytes, read field by field as
      `load` does: a wrong terminator is reported before the preload is read. */
  method ReadRecord(rd: Reader) returns (r: Result<Record>)
    requires rd.Valid()
    modifies rd`pos
    ensures rd.Valid()
    ensures var s := RecordAt(rd.data, old(rd.pos)); r == s.result && (r.Ok? ==> rd.pos == s.next)
  {
    ghost var p := rd.pos;
    UnsignedIntIsLittleEndian(rd.data, p);
    var crc :- rd.ReadUnsignedInt();
    var preloadSize :- rd.ReadUnsignedShort();
    var chunk :- rd.ReadUnsignedShort();
    var offset :- rd.ReadInt();
    var size :- rd.ReadInt();
    var term :- rd.ReadUnsignedShort();
    if term != TERMINATOR {
      return Err(Format(UnexpectedTerminator(term)));
    }
    var preload: seq<byte> := [];
    if preloadSize > 0 {
      preload :- rd.ReadFully(preloadSize);
    }
    assert preload == rd.data[p + RECORD_SIZE..p + RECORD_SIZE + preloadSize];
    r := Ok(Record(crc, chunk, offset, size, preload));
  }

  /** One step of the innermost loop: a name and its record, or `None` at
      the empty name that closes the directory. */
  method NextName(rd: Reader, ctx: Context, t: string, dir: string) returns (r: Result<Option<(string, Record)>>)
    requires rd.Valid()
    modifies rd`pos
    ensures rd.Valid()
    ensures r.Ok? ==> old(rd.pos) < rd.pos
    ensures var whole := Run(rd.data, old(rd.pos), Names(t, dir), ctx);
      match r
      case Err(e) => whole == Trace([], Err(e))
      case Ok(None) => whole == Run(rd.data, rd.pos, Dirs(t), ctx)
      case Ok(Some(nr)) =>
        && |nr.1.preload| < 0x1_0000
        && whole == Cons(EntryParsed(Resolve(ctx, t, dir, nr.0, nr.1), nr.1), Run(rd.data, rd.pos, Names(t, dir), ctx))
  {
    ghost var p := rd.pos;
    var name :- rd.ReadStringNullLimit(NAME_LIMIT);
    if name == "" {
      return Ok(None);
    }
    var rec :- ReadRecord(rd);
    NameStep(rd.data, p, t, dir, ctx);
    r := Ok(Some((name, rec)));
  }

  /** One step of the middle loop: a directory, normalised, or `None` at the
      empty string that closes the extension. */
  method NextDir(rd: Reader, ctx: Context, t: string) returns (r: Result<Option<string>>)
    requires rd.Valid()
    modifies rd`pos
    ensures rd.Valid()
    ensures r.Ok? ==> old(rd.pos) < rd.pos
    ensures var whole := Run(rd.data, old(rd.pos), Dirs(t), ctx);
      match r
      case Err(e) => whole == Trace([], Err(e))
      case Ok(None) => whole == Run(rd.data, rd.pos, Types, ctx)
      case Ok(Some(d)) => whole == Cons(DirSeen(d), Run(rd.data, rd.pos, Names(t, d), ctx))
  {
    var rawDir :- rd.ReadStringNullLimit(NAME_LIMIT);
    if rawDir == "" {
      return Ok(None);
    }
    r := Ok(Some(NormalizeDir(rawDir)));
  }

  /** One step of the outer loop: an extension, or `None` at the empty string
      that ends the table. */
  method NextType(rd: Reader, ctx: Context) returns (r: Result<Option<string>>)
    requires rd.Valid()
    modifies rd`pos
    ensures rd.Valid()
    ensures var whole := Run(rd.data, old(rd.pos), Types, ctx);
      match r
      case Err(e) => whole == Trace([], Err(e))
      case Ok(None) => whole == Trace([], Ok(rd.pos))
      case Ok(Some(t)) => old(rd.pos) < rd.pos && whole == Cons(TypeSeen(t), Run(rd.data, rd.pos, Dirs(t), ctx))
  {
    var t :- rd.ReadStringNullLimit(NAME_LIMIT);
    if t == "" {
      return Ok(None);
    }
    r := Ok(Some(t));
  }

  /** The header, read field by field as `load` does: the version is
      known once it is read, even when it is then refused. */
  method ReadHeader(rd: Reader) returns (h: HeaderRead)
    requires rd.Valid() && rd.pos == 0
    modifies rd`pos
    ensures rd.Valid() && h == HeaderAt(rd.data)
    ensures h.result.Ok? ==> rd.pos == h.result.value.headerSize
  {
    var sig := rd.ReadInt();
    if sig.Err? {
      return HeaderRead(None, Err(sig.error));
    }
    if sig.value != SIGNATURE {
      return HeaderRead(None, Err(Format(BadSignature(sig.value))));
    }
    var ver := rd.ReadInt();
    if ver.Err? {
      return HeaderRead(None, Err(ver.error));
    }
    var v := ver.value;
    if v != 1 && v != 2 {
      return HeaderRead(Some(v), Err(Format(UnsupportedVersion(v))));
    }
    var headerSize: nat := if v == 1 then 12 else 28;
    if v == 2 {
      // the footer offset, a reserved int, the footer size and another
      // reserved int, all unused
      var footerOffset := rd.ReadInt();
      var reserved := rd.ReadInt();
      var footerSize := rd.ReadInt();
      var reserved2 := rd.ReadInt();
      if footerOffset.Err? || reserved.Err? || footerSize.Err? || reserved2.Err? {
        return HeaderRead(Some(v), Err(Truncated));
      }
    }
    var dictSize := rd.ReadInt();
    if dictSize.Err? {
      return HeaderRead(Some(v), Err(dictSize.error));
    }
    h := HeaderRead(Some(v), Ok(Header(v, headerSize, dictSize.value)));
  }

  /** A read-only entry built with the setters, as `load` builds each one. */
  method NewEntry(file: string, extension: string, name: string, dir: string,
                  crc: uint32, offset: int32, size: int32, preload: JavaBytes) returns (e: Entry)
    ensures fresh(e) && e.Valid()
    ensures e.Info() == EntryInfo(file, true, extension, name, dir, crc, offset, size, preload)
  {
    e := new Entry(file, true);
    e.SetType(extension);
    e.SetName(name);
    e.SetDir(dir);
    e.SetCRC32(crc);
    e.SetOffset(offset);
    e.SetSize(size);
    e.SetPreloadData(preload);
  }

  class Archive {
    var entries: seq<Entry>
    var typeEntries: map<string, seq<Entry>>
    var dirEntries: map<string, seq<Entry>>
    var pathEntries: map<string, Entry>
    var version: int32
    var multiChunk: bool

    /** The entries the archive refers to. */
    ghost var repr: set<Entry>

    /** The list and the three indexes, as one value. */
    ghost function Fields(): Index<Entry>
      reads this
    {
      Index(entries, typeEntries, dirEntries, pathEntries)
    }

    /** The list and the indexes refer to entries of `repr` only. */
    ghost predicate Valid()
      reads this
    {
      IndexWithin(Fields(), repr)
    }

    /** The contents: the metadata of the entries, list by list. */
    ghost function View(): ArchiveView
      reads this, repr
      requires Valid()
    {
      ViewOf(Fields(), repr)
    }

    /** The collections are `f0` with the events `evs` replayed on the
        entries `added`, which carry the entries of those events and are
        referred to by the archive. */
    ghost predicate Tracks(f0: Index<Entry>, evs: seq<Event>, added: seq<Entry>)
      reads this, added
    {
      && Valid()
      && |added| == |Parsed(evs)| && Fields() == Replay(f0, evs, added)
      && Within(added, repr) && Infos(added) == Parsed(evs)
    }

    /** What the collections track, as the contents. */
    lemma TracksView(f0: Index<Entry>, pool: set<Entry>, evs: seq<Event>, added: seq<Entry>)
      requires Tracks(f0, evs, added)
      requires IndexWithin(f0, pool) && pool <= repr
      ensures View() == ApplyAll(ViewOf(f0, pool), evs)
    {
      ViewOfGrow(f0, pool, repr);
      ViewOfReplay(f0, repr, evs, added);
    }

    /** A new archive: no entries, version 1, not multi-chunk. */
    constructor ()
      ensures Valid() && View() == EmptyView
      ensures version == 1 && !multiChunk
    {
      entries := [];
      typeEntries := map[];
      dirEntries := map[];
      pathEntries := map[];
      version := 1;
      multiChunk := false;
      repr := {};
    }

    /** An extension read from the table gets an empty list unless it has one. */
    method AddType(t: string)
      requires Valid()
      modifies this`typeEntries
      ensures Valid() && t in typeEntries
      ensures Fields() == AddKey(old(Fields()), TypeSeen(t))
    {
      if t !in typeEntries {
        typeEntries := typeEntries[t := []];
      }
    }

    /** A directory read from the table gets an empty list unless it has one. */
    method AddDir(d: string)
      requires Valid()
      modifies this`dirEntries
      ensures Valid() && d in dirEntries
      ensures Fields() == AddKey(old(Fields()), DirSeen(d))
    {
      if d !in dirEntries {
        dirEntries := dirEntries[d := []];
      }
    }

    /** A new entry joins the list, the lists of its extension and directory,
        which exist already, and becomes the entry of its path. */
    method AddEntry(e: Entry)
      requires Valid()
      requires e.extension in typeEntries && e.dir in dirEntries
      modifies this`entries, this`typeEntries, this`dirEntries, this`pathEntries, this`repr
      ensures Valid() && repr == old(repr) + {e}
      ensures typeEntries.Keys == old(typeEntries.Keys) && dirEntries.Keys == old(dirEntries.Keys)
      ensures Fields() == Insert(old(Fields()), e.Info(), e)
    {
      entries := entries + [e];
      typeEntries := typeEntries[e.extension := typeEntries[e.extension] + [e]];
      dirEntries := dirEntries[e.dir := dirEntries[e.dir] + [e]];
      pathEntries := pathEntries[e.Path() := e];
      repr := repr + {e};
    }

    /** The entry of a name and its record: in a multi-chunk archive its
        data lives in the chunk file of the record's index, otherwise in the
        directory file itself, at an offset made absolute in version 1. */
    method ResolveEntry(ctx: Context, t: string, dir: string, name: string, rec: Record) returns (e: Entry)
      requires multiChunk == ctx.multiChunk && version == ctx.version
      requires |rec.preload| < 0x1_0000
      ensures fresh(e) && e.Valid()
      ensures e.Info() == Resolve(ctx, t, dir, name, rec)
    {
      var entryFile := ctx.file;
      var offset := rec.offset;
      if multiChunk {
        entryFile := ChildPath(ctx.baseDir, ChunkName(ctx.stem, rec.chunk));
      } else if version == 1 {
        offset := Wrap32(offset + Wrap32(ctx.headerSize + ctx.dictSize));
      }
      e := NewEntry(entryFile, t, name, dir, rec.crc, offset, rec.size, rec.preload);
    }

    /** The entry of a name and its record, made and added to the
        collections: one more event replayed and one more entry made of it. */
    method AddName(ctx: Context, t: string, dir: string, name: string, rec: Record,
                   ghost f0: Index<Entry>, ghost evs: seq<Event>, ghost added: seq<Entry>) returns (e: Entry)
      requires Valid() && t in typeEntries && dir in dirEntries
      requires multiChunk == ctx.multiChunk && version == ctx.version
      requires |rec.preload| < 0x1_0000
      requires Tracks(f0, evs, added)
      modifies this`entries, this`typeEntries, this`dirEntries, this`pathEntries, this`repr
      ensures Valid() && old(repr) <= repr
      ensures typeEntries.Keys == old(typeEntries.Keys) && dirEntries.Keys == old(dirEntries.Keys)
      ensures Tracks(f0, evs + [EntryParsed(Resolve(ctx, t, dir, name, rec), rec)], added + [e])
    {
      ghost var ev := EntryParsed(Resolve(ctx, t, dir, name, rec), rec);
      e := ResolveEntry(ctx, t, dir, name, rec);
      AddEntry(e);
      ReplaySnocEntry(f0, evs, added, ev, e);
      ParsedSnoc(evs, ev);
      InfosSnoc(added, e);
    }

    /** The innermost loop of `load`: names and their records up to the
        empty name that closes directory `dir` of extension `t`, each name
        becoming an entry. `evs` are the events read and `added` the
        entries made of them. */
    method ReadNames(rd: Reader, ctx: Context, t: string, dir: string,
                     ghost f0: Index<Entry>, ghost evs: seq<Event>, ghost added: seq<Entry>)
      returns (r: Result<()>, ghost evs': seq<Event>, ghost added': seq<Entry>)
      requires Valid() && rd.Valid()
      requires t in typeEntries && dir in dirEntries
      requires multiChunk == ctx.multiChunk && version == ctx.version
      requires Tracks(f0, evs, added)
      modifies this`entries, this`typeEntries, this`dirEntries, this`pathEntries, this`repr, rd`pos
      ensures Valid() && rd.Valid() && old(repr) <= repr && (r.Ok? ==> old(rd.pos) <= rd.pos)
      ensures typeEntries.Keys == old(typeEntries.Keys) && dirEntries.Keys == old(dirEntries.Keys)
      ensures Tracks(f0, evs', added')
      ensures Then(evs, Run(rd.data, old(rd.pos), Names(t, dir), ctx)) ==
        if r.Ok? then Then(evs', Run(rd.data, rd.pos, Dirs(t), ctx)) else Trace(evs', Err(r.error))
    {
      ghost var p0 := rd.pos;
      ghost var whole := Then(evs, Run(rd.data, rd.pos, Names(t, dir), ctx));
      evs', added' := evs, added;
      while true
        invariant Valid() && rd.Valid() && p0 <= rd.pos && old(repr) <= repr
        invariant typeEntries.Keys == old(typeEntries.Keys) && dirEntries.Keys == old(dirEntries.Keys)
        invariant whole == Then(evs', Run(rd.data, rd.pos, Names(t, dir), ctx))
        invariant Tracks(f0, evs', added')
        decreases |rd.data| - rd.pos
      {
        var next := NextName(rd, ctx, t, dir);
        if next.Err? {
          return Err(next.error), evs', added';
        }
        if next.value.None? {
          break;
        }
        var (name, rec) := next.value.value;
        ghost var ev := EntryParsed(Resolve(ctx, t, dir, name, rec), rec);
        ThenCons(evs', ev, Run(rd.data, rd.pos, Names(t, dir), ctx));
        var e := AddName(ctx, t, dir, name, rec, f0, evs', added');
        evs', added' := evs' + [ev], added' + [e];
      }
      r := Ok(());
    }

    /** A directory of extension `t` and its names: the directory's key,
        then every entry made of them. */
    method ReadDir(rd: Reader, ctx: Context, t: string, dir: string,
                   ghost f0: Index<Entry>, ghost evs: seq<Event>, ghost added: seq<Entry>)
      returns (r: Result<()>, ghost evs': seq<Event>, ghost added': seq<Entry>)
      requires Valid() && rd.Valid() && t in typeEntries
      requires multiChunk == ctx.multiChunk && version == ctx.version
      requires Tracks(f0, evs, added)
      modifies this`entries, this`typeEntries, this`dirEntries, this`pathEntries, this`repr, rd`pos
      ensures Valid() && rd.Valid() && old(repr) <= repr && (r.Ok? ==> old(rd.pos) <= rd.pos)
      ensures typeEntries.Keys == old(typeEntries.Keys)
      ensures Tracks(f0, evs', added')
      ensures Then(evs + [DirSeen(dir)], Run(rd.data, old(rd.pos), Names(t, dir), ctx)) ==
        if r.Ok? then Then(evs', Run(rd.data, rd.pos, Dirs(t), ctx)) else Trace(evs', Err(r.error))
    {
      AddDir(dir);
      ReplaySnocKey(f0, evs, added, DirSeen(dir));
      ParsedSnoc(evs, DirSeen(dir));
      r, evs', added' := ReadNames(rd, ctx, t, dir, f0, evs + [DirSeen(dir)], added);
    }

    /** The middle loop of `load`: the directories of extension `t` up to
        the empty string that closes them, each with its names. */
    method ReadDirs(rd: Reader, ctx: Context, t: string,
                    ghost f0: Index<Entry>, ghost evs: seq<Event>, ghost added: seq<Entry>)
      returns (r: Result<()>, ghost evs': seq<Event>, ghost added': seq<Entry>)
      requires Valid() && rd.Valid() && t in typeEntries
      requires multiChunk == ctx.multiChunk && version == ctx.version
      requires Tracks(f0, evs, added)
      modifies this`entries, this`typeEntries, this`dirEntries, this`pathEntries, this`repr, rd`pos
      ensures Valid() && rd.Valid() && old(repr) <= repr && (r.Ok? ==> old(rd.pos) <= rd.pos)
      ensures Tracks(f0, evs', added')
      ensures Then(evs, Run(rd.data, old(rd.pos), Dirs(t), ctx)) ==
        if r.Ok? then Then(evs', Run(rd.data, rd.pos, Types, ctx)) else Trace(evs', Err(r.error))
    {
      ghost var p0 := rd.pos;
      ghost var whole := Then(evs, Run(rd.data, rd.pos, Dirs(t), ctx));
      evs', added' := evs, added;
      while true
        invariant Valid() && rd.Valid() && p0 <= rd.pos && t in typeEntries && old(repr) <= repr
        invariant Tracks(f0, evs', added')
        invariant whole == Then(evs', Run(rd.data, rd.pos, Dirs(t), ctx))
        decreases |rd.data| - rd.pos
      {
        var next := NextDir(rd, ctx, t);
        if next.Err? {
          return Err(next.error), evs', added';
        }
        if next.value.None? {
          break;
        }
        var dir := next.value.value;
        ThenCons(evs', DirSeen(dir), Run(rd.data, rd.pos, Names(t, dir), ctx));
        var res;
        res, evs', added' := ReadDir(rd, ctx, t, dir, f0, evs', added');
        if res.Err? {
          return res, evs', added';
        }
      }
      r := Ok(());
    }

    /** An extension and its directories: the extension's key, then every
        directory and entry under it. */
    method ReadType(rd: Reader, ctx: Context, t: string,
                    ghost f0: Index<Entry>, ghost evs: seq<Event>, ghost added: seq<Entry>)
      returns (r: Result<()>, ghost evs': seq<Event>, ghost added': seq<Entry>)
      requires Valid() && rd.Valid()
      requires multiChunk == ctx.multiChunk && version == ctx.version
      requires Tracks(f0, evs, added)
      modifies this`entries, this`typeEntries, this`dirEntries, this`pathEntries, this`repr, rd`pos
      ensures Valid() && rd.Valid() && old(repr) <= repr && (r.Ok? ==> old(rd.pos) <= rd.pos)
      ensures Tracks(f0, evs', added')
      ensures Then(evs + [TypeSeen(t)], Run(rd.data, old(rd.pos), Dirs(t), ctx)) ==
        if r.Ok? then Then(evs', Run(rd.data, rd.pos, Types, ctx)) else Trace(evs', Err(r.error))
    {
      AddType(t);
      ReplaySnocKey(f0, evs, added, TypeSeen(t));
      ParsedSnoc(evs, TypeSeen(t));
      r, evs', added' := ReadDirs(rd, ctx, t, f0, evs + [TypeSeen(t)], added);
    }

    /** The outer loop of `load`: the extensions of the table up to the
        empty string that ends it, each with its directories. */
    method ReadTypes(rd: Reader, ctx: Context,
                     ghost f0: Index<Entry>, ghost evs: seq<Event>, ghost added: seq<Entry>)
      returns (r: Result<()>, ghost evs': seq<Event>, ghost added': seq<Entry>)
      requires Valid() && rd.Valid()
      requires multiChunk == ctx.multiChunk && version == ctx.version
      requires Tracks(f0, evs, added)
      modifies this`entries, this`typeEntries, this`dirEntries, this`pathEntries, this`repr, rd`pos
      ensures Valid() && rd.Valid() && old(repr) <= repr
      ensures Tracks(f0, evs', added')
      ensures Then(evs, Run(rd.data, old(rd.pos), Types, ctx)) == Trace(evs', if r.Ok? then Ok(rd.pos) else Err(r.error))
    {
      ghost var whole := Then(evs, Run(rd.data, rd.pos, Types, ctx));
      evs', added' := evs, added;
      while true
        invariant Valid() && rd.Valid() && old(repr) <= repr
        invariant Tracks(f0, evs', added')
        invariant whole == Then(evs', Run(rd.data, rd.pos, Types, ctx))
        decreases |rd.data| - rd.pos
      {
        var next := NextType(rd, ctx);
        if next.Err? {
          return Err(next.error), evs', added';
        }
        if next.value.None? {
          break;
        }
        var t := next.value.value;
        ThenCons(evs', TypeSeen(t), Run(rd.data, rd.pos, Dirs(t), ctx));
        var res;
        res, evs', added' := ReadType(rd, ctx, t, f0, evs', added');
        if res.Err? {
          return res, evs', added';
        }
      }
      r := Ok(());
    }

    /** The whole table, applied to the collections as its events. */
    method ReadTable(rd: Reader, ctx: Context) returns (r: Result<()>)
      requires Valid() && rd.Valid()
      requires multiChunk == ctx.multiChunk && version == ctx.version
      modifies this`entries, this`typeEntries, this`dirEntries, this`pathEntries, this`repr, rd`pos
      ensures Valid() && rd.Valid()
      ensures var tr := Run(rd.data, old(rd.pos), Types, ctx);
        && tr.end == (if r.Ok? then Ok(rd.pos) else Err(r.error))
        && View() == ApplyAll(old(View()), tr.events)
    {
      ghost var f0, repr0, v0 := Fields(), repr, View();
      ghost var tr := Run(rd.data, rd.pos, Types, ctx);
      assert Then([], tr) == tr by {
        assert [] + tr.events == tr.events;
      }
      ghost var evs, added;
      assert Tracks(f0, [], []);
      r, evs, added := ReadTypes(rd, ctx, f0, [], []);
      assert ViewOf(f0, repr0) == v0;
      TracksView(f0, repr0, evs, added);
    }

    /** The table after the header, then the version-1 check that a
        non-zero dictionary size is the number of bytes the table took. */
    method LoadTable(rd: Reader, ctx: Context, hd: Header) returns (r: Result<()>)
      requires Valid() && rd.Valid()
      requires multiChunk == ctx.multiChunk && version == ctx.version == hd.version
      requires rd.pos == hd.headerSize
      modifies this`entries, this`typeEntries, this`dirEntries, this`pathEntries, this`repr, rd`pos
      ensures Valid()
      ensures var tr := Run(rd.data, hd.headerSize, Types, ctx);
        r == DictCheck(hd, tr.end) && View() == ApplyAll(old(View()), tr.events)
    {
      var res := ReadTable(rd, ctx);
      if res.Err? {
        return Err(res.error);
      }
      r := Ok(());
      if version == 1 {
        var actual := rd.Position() - hd.headerSize;
        if hd.dictSize != 0 && actual != hd.dictSize {
          r := Err(Format(IncorrectDictionarySize(actual, hd.dictSize)));
        }
      }
    }

    /** The load of an existing file's bytes: the version read is stored
        before it is checked, and the events of the table are applied to
        the collections one by one. */
    method LoadBytes(data: seq<byte>, file: string, baseDir: Option<string>, stem: Stem) returns (r: Result<()>)
      requires Valid() && multiChunk == stem.multiChunk
      modifies this`entries, this`typeEntries, this`dirEntries, this`pathEntries, this`repr, this`version
      ensures Valid()
      ensures var lt := LoadData(data, file, baseDir, stem);
        && r == lt.result
        && View() == ApplyAll(old(View()), lt.events)
        && version == (if lt.version.Some? then lt.version.value else old(version))
    {
      ghost var v0 := View();
      var rd := new Reader(data);
      var h := ReadHeader(rd);
      if h.version.Some? {
        version := h.version.value;
      }
      assert View() == v0 == ApplyAll(v0, []);
      if h.result.Err? {
        return Err(h.result.error);
      }
      var hd := h.result.value;
      var ctx := Context(file, baseDir, stem.stem, stem.multiChunk, hd.version, hd.headerSize, hd.dictSize);
      r := LoadTable(rd, ctx, hd);
    }

    /** `load(file)`, where `baseDir` is the file's parent directory and
        `baseName` its name without extension: the multi-chunk flag is set
        from the name first, and a failure keeps what was added so far. */
    method Load(fs: FileSystem, file: string, baseDir: Option<string>, baseName: string) returns (r: Result<()>)
      requires Valid()
      modifies this
      ensures Valid()
      ensures var lt := LoadSpec(fs, file, baseDir, baseName);
        && r == lt.result
        && View() == ApplyAll(old(View()), lt.events)
        && version == (if lt.version.Some? then lt.version.value else old(version))
      ensures multiChunk == ArchiveStem(baseName).multiChunk
    {
      ghost var v0 := View();
      var stem := ArchiveStem(baseName);
      multiChunk := stem.multiChunk;
      assert View() == v0;
      if file !in fs {
        assert v0 == ApplyAll(v0, []);
        return Err(NotFound);
      }
      r := LoadBytes(fs[file], file, baseDir, stem);
    }

    /** `getEntries()`: every entry, in load order. */
    function GetEntries(): (r: seq<Entry>)
      reads this, repr
      requires Valid()
      ensures Infos(r) == View().entries
    {
      entries
    }

    /** `getEntriesForDir(dir)`: the entries of a directory, none when the
        directory never occurred. */
    function GetEntriesForDir(dir: string): (r: Option<seq<Entry>>)
      reads this, repr
      requires Valid()
      ensures r.Some? <==> dir in View().byDir
      ensures r.Some? ==> Infos(r.value) == View().byDir[dir]
    {
      if dir in dirEntries then Some(dirEntries[dir]) else None
    }

    /** `getEntriesForType(type)`: the entries of an extension, none when the
        extension never occurred. */
    function GetEntriesForType(extension: string): (r: Option<seq<Entry>>)
      reads this, repr
      requires Valid()
      ensures r.Some? <==> extension in View().byType
      ensures r.Some? ==> Infos(r.value) == View().byType[extension]
    {
      if extension in typeEntries then Some(typeEntries[extension]) else None
    }

    /** `getEntry(path)`: the entry stored under a path, if any. */
    function GetEntry(path: string): (r: Option<Entry>)
      reads this, repr
      requires Valid()
      ensures r.Some? <==> path in View().byPath
      ensures r.Some? ==> r.value.Info() == View().byPath[path]
    {
      if path in pathEntries then Some(pathEntries[path]) else None
    }

    /** `getVersion()`: the version stored by the constructor, `setVersion`
        or the last `load`. */
    function GetVersion(): (v: int32)
      reads this`version
      ensures v == version
    {
      version
    }

    /** `setVersion(v)`: only the supported versions are accepted; any other
        is refused and leaves the version as it was. */
    method SetVersion(v: int32) returns (r: Result<()>)
      modifies this`version
      ensures r.Ok? <==> VERS_MIN <= v <= VERS_MAX
      ensures r.Err? ==> r.error == InvalidArgument
      ensures version == if r.Ok? then v else old(version)
    {
      if v > VERS_MAX || v < VERS_MIN {
        return Err(InvalidArgument);
      }
      version := v;
      r := Ok(());
    }

    /** `isMultiChunk()`: the flag stored by `setMultiChunk` or the last `load`. */
    function IsMultiChunk(): (b: bool)
      reads this`multiChunk
      ensures b == multiChunk
    {
      multiChunk
    }

    method SetMultiChunk(multiChunk: bool)
      modifies this`multiChunk
      ensures this.multiChunk == multiChunk
    {
      this.multiChunk := multiChunk;
    }

    /** `clear()`: forgets every entry; the version and the flag stay. */
    method Clear()
      modifies this`entries, this`typeEntries, this`dirEntries, this`pathEntries, this`repr
      ensures Valid() && View() == EmptyView
    {
      repr := {};
      entries := [];
      dirEntries := map[];
      typeEntries := map[];
      pathEntries := map[];
    }
  }
}
