/** The four collections of `VPKArchive` as values: every entry in parse
    order, the entries of each extension and of each directory, and the
    entry of each path; and what each parse event does to them. */
module VpkIndex {
  import opened Results
  import opened VpkEntry
  import opened VpkFormat

  /** The list of all entries and the three indexes over it, for entries
      of any kind: entry values in the model of the archive's contents, entry
      objects in the archive itself. */
  datatype Index<E> = Index(
    entries: seq<E>,
    byType: map<string, seq<E>>,
    byDir: map<string, seq<E>>,
    byPath: map<string, E>)

  type ArchiveView = Index<EntryInfo>

  const EmptyView: ArchiveView := Index([], map[], map[], map[])

  /** The list a key maps to, or none when the key is absent. */
  function Lookup<E>(m: map<string, seq<E>>, k: string): seq<E>
  {
    if k in m then m[k] else []
  }

  /** An extension or directory read from the table gets an empty list
      unless it has one. */
  function AddKey<E>(v: Index<E>, ev: Event): Index<E>
  {
    match ev
    case TypeSeen(t) =>
      if t in v.byType then v else v.(byType := v.byType[t := []])
    case DirSeen(d) =>
      if d in v.byDir then v else v.(byDir := v.byDir[d := []])
    case EntryParsed(_, _) => v
  }

  /** Adding an entry `x` with metadata `e`: it is appended to the list of
      all entries and to the lists of its extension and its directory, and
      becomes the entry of its path, replacing any earlier one. */
  function Insert<E>(v: Index<E>, e: EntryInfo, x: E): Index<E>
  {
    Index(
      v.entries + [x],
      v.byType[e.extension := Lookup(v.byType, e.extension) + [x]],
      v.byDir[e.dir := Lookup(v.byDir, e.dir) + [x]],
      v.byPath[EntryPath(e) := x])
  }

  /** One step of `load` on the contents. */
  function Apply(v: ArchiveView, ev: Event): ArchiveView
  {
    if ev.EntryParsed? then Insert(v, ev.entry, ev.entry) else AddKey(v, ev)
  }

  function ApplyAll(v: ArchiveView, evs: seq<Event>): ArchiveView
    decreases |evs|
  {
    if evs == [] then v else Apply(ApplyAll(v, evs[..|evs| - 1]), evs[|evs| - 1])
  }

  lemma ApplyAllSnoc(v: ArchiveView, evs: seq<Event>, ev: Event)
    ensures ApplyAll(v, evs + [ev]) == Apply(ApplyAll(v, evs), ev)
  {
    assert (evs + [ev])[..|evs|] == evs;
  }

  // Reference descriptions of the collections, event by event.

  /** The entries of the events, in order. */
  function Parsed(evs: seq<Event>): seq<EntryInfo>
    decreases |evs|
  {
    if evs == [] then []
    else Parsed(evs[..|evs| - 1]) + (if evs[|evs| - 1].EntryParsed? then [evs[|evs| - 1].entry] else [])
  }

  /** The entries of `es` with extension `t`, in order. */
  function OfType(es: seq<EntryInfo>, t: string): seq<EntryInfo>
    decreases |es|
  {
    if es == [] then []
    else OfType(es[..|es| - 1], t) + (if es[|es| - 1].extension == t then [es[|es| - 1]] else [])
  }

  /** The entries of `es` in directory `d`, in order. */
  function InDir(es: seq<EntryInfo>, d: string): seq<EntryInfo>
    decreases |es|
  {
    if es == [] then []
    else InDir(es[..|es| - 1], d) + (if es[|es| - 1].dir == d then [es[|es| - 1]] else [])
  }

  /** The last entry of `es` with path `p`. */
  function LastWithPath(es: seq<EntryInfo>, p: string): (r: Option<EntryInfo>)
    ensures r.Some? ==> EntryPath(r.value) == p
    decreases |es|
  {
    if es == [] then None
    else if EntryPath(es[|es| - 1]) == p then Some(es[|es| - 1])
    else LastWithPath(es[..|es| - 1], p)
  }

  /** Extensions that get a key: those read, and those of the entries. */
  function TypeKeys(evs: seq<Event>): set<string>
    decreases |evs|
  {
    if evs == [] then {}
    else
      var ev := evs[|evs| - 1];
      TypeKeys(evs[..|evs| - 1]) + (match ev
        case TypeSeen(t) => {t}
        case DirSeen(_) => {}
        case EntryParsed(e, _) => {e.extension})
  }

  /** Directories that get a key: those read, and those of the entries. */
  function DirKeys(evs: seq<Event>): set<string>
    decreases |evs|
  {
    if evs == [] then {}
    else
      var ev := evs[|evs| - 1];
      DirKeys(evs[..|evs| - 1]) + (match ev
        case TypeSeen(_) => {}
        case DirSeen(d) => {d}
        case EntryParsed(e, _) => {e.dir})
  }

  /** `entries` grows by the parsed entries, in parse order. */
  lemma {:induction false} ApplyAllEntries(v: ArchiveView, evs: seq<Event>)
    ensures ApplyAll(v, evs).entries == v.entries + Parsed(evs)
    decreases |evs|
  {
    if evs != [] {
      var init, ev := evs[..|evs| - 1], evs[|evs| - 1];
      assert evs == init + [ev];
      ApplyAllEntries(v, init);
      ParsedSnoc(init, ev);
    }
  }

  lemma ParsedSnoc(evs: seq<Event>, ev: Event)
    ensures Parsed(evs + [ev]) == Parsed(evs) + (if ev.EntryParsed? then [ev.entry] else [])
  {
    assert (evs + [ev])[..|evs|] == evs;
  }

  lemma OfTypeSnoc(es: seq<EntryInfo>, e: EntryInfo, t: string)
    ensures OfType(es + [e], t) == OfType(es, t) + (if e.extension == t then [e] else [])
  {
    assert (es + [e])[..|es|] == es;
  }

  lemma InDirSnoc(es: seq<EntryInfo>, e: EntryInfo, d: string)
    ensures InDir(es + [e], d) == InDir(es, d) + (if e.dir == d then [e] else [])
  {
    assert (es + [e])[..|es|] == es;
  }

  /** One event adds to the list of extension `t` at most its own entry. */
  lemma ApplyByType(w: ArchiveView, ev: Event, t: string)
    ensures Lookup(Apply(w, ev).byType, t) ==
      Lookup(w.byType, t) + (if ev.EntryParsed? && ev.entry.extension == t then [ev.entry] else [])
  {
    if !(ev.EntryParsed? && ev.entry.extension == t) {
      assert Lookup(w.byType, t) + [] == Lookup(w.byType, t);
    }
  }

  lemma ApplyByDir(w: ArchiveView, ev: Event, d: string)
    ensures Lookup(Apply(w, ev).byDir, d) ==
      Lookup(w.byDir, d) + (if ev.EntryParsed? && ev.entry.dir == d then [ev.entry] else [])
  {
    if !(ev.EntryParsed? && ev.entry.dir == d) {
      assert Lookup(w.byDir, d) + [] == Lookup(w.byDir, d);
    }
  }

  /** One event adds to the parsed entries of extension `t` at most its own entry. */
  lemma OfTypeParsedSnoc(init: seq<Event>, ev: Event, t: string)
    ensures OfType(Parsed(init + [ev]), t) ==
      OfType(Parsed(init), t) + (if ev.EntryParsed? && ev.entry.extension == t then [ev.entry] else [])
  {
    ParsedSnoc(init, ev);
    if ev.EntryParsed? {
      OfTypeSnoc(Parsed(init), ev.entry, t);
    } else {
      assert Parsed(init) + [] == Parsed(init);
      assert OfType(Parsed(init), t) + [] == OfType(Parsed(init), t);
    }
  }

  /** One event adds to the parsed entries of directory `d` at most its own entry. */
  lemma InDirParsedSnoc(init: seq<Event>, ev: Event, d: string)
    ensures InDir(Parsed(init + [ev]), d) ==
      InDir(Parsed(init), d) + (if ev.EntryParsed? && ev.entry.dir == d then [ev.entry] else [])
  {
    ParsedSnoc(init, ev);
    if ev.EntryParsed? {
      InDirSnoc(Parsed(init), ev.entry, d);
    } else {
      assert Parsed(init) + [] == Parsed(init);
      assert InDir(Parsed(init), d) + [] == InDir(Parsed(init), d);
    }
  }

  /** Every list of `typeEntries` grows by the parsed entries of its
      extension, in parse order. */
  lemma {:induction false} ApplyAllByType(v: ArchiveView, evs: seq<Event>, t: string)
    ensures Lookup(ApplyAll(v, evs).byType, t) == Lookup(v.byType, t) + OfType(Parsed(evs), t)
    decreases |evs|
  {
    if evs == [] {
      assert Lookup(v.byType, t) + [] == Lookup(v.byType, t);
    } else {
      var init, ev := evs[..|evs| - 1], evs[|evs| - 1];
      assert evs == init + [ev];
      ApplyAllByType(v, init, t);
      ApplyAllSnoc(v, init, ev);
      ApplyByType(ApplyAll(v, init), ev, t);
      OfTypeParsedSnoc(init, ev, t);
      var added := if ev.EntryParsed? && ev.entry.extension == t then [ev.entry] else [];
      assert Lookup(v.byType, t) + OfType(Parsed(init), t) + added
          == Lookup(v.byType, t) + (OfType(Parsed(init), t) + added);
    }
  }

  /** The keys of `typeEntries` are the old ones and every extension read. */
  lemma {:induction false} ApplyAllTypeKeys(v: ArchiveView, evs: seq<Event>)
    ensures ApplyAll(v, evs).byType.Keys == v.byType.Keys + TypeKeys(evs)
    decreases |evs|
  {
    if evs != [] {
      ApplyAllTypeKeys(v, evs[..|evs| - 1]);
    }
  }

  /** Every list of `dirEntries` grows by the parsed entries of its
      directory, in parse order. */
  lemma {:induction false} ApplyAllByDir(v: ArchiveView, evs: seq<Event>, d: string)
    ensures Lookup(ApplyAll(v, evs).byDir, d) == Lookup(v.byDir, d) + InDir(Parsed(evs), d)
    decreases |evs|
  {
    if evs == [] {
      assert Lookup(v.byDir, d) + [] == Lookup(v.byDir, d);
    } else {
      var init, ev := evs[..|evs| - 1], evs[|evs| - 1];
      assert evs == init + [ev];
      ApplyAllByDir(v, init, d);
      ApplyAllSnoc(v, init, ev);
      ApplyByDir(ApplyAll(v, init), ev, d);
      InDirParsedSnoc(init, ev, d);
      var added := if ev.EntryParsed? && ev.entry.dir == d then [ev.entry] else [];
      assert Lookup(v.byDir, d) + InDir(Parsed(init), d) + added
          == Lookup(v.byDir, d) + (InDir(Parsed(init), d) + added);
    }
  }

  /** The keys of `dirEntries` are the old ones and every directory read. */
  lemma {:induction false} ApplyAllDirKeys(v: ArchiveView, evs: seq<Event>)
    ensures ApplyAll(v, evs).byDir.Keys == v.byDir.Keys + DirKeys(evs)
    decreases |evs|
  {
    if evs != [] {
      ApplyAllDirKeys(v, evs[..|evs| - 1]);
    }
  }

  /** `pathEntries` maps each path to the last parsed entry with that path,
      and keeps its old entry for a path no parsed entry has. */
  lemma {:induction false} ApplyAllByPath(v: ArchiveView, evs: seq<Event>, p: string)
    ensures var last := LastWithPath(Parsed(evs), p);
      var m := ApplyAll(v, evs).byPath;
      && (p in m <==> p in v.byPath || last.Some?)
      && (last.Some? ==> m[p] == last.value)
      && (last.None? && p in v.byPath ==> m[p] == v.byPath[p])
    decreases |evs|
  {
    if evs != [] {
      var init := evs[..|evs| - 1];
      var ev := evs[|evs| - 1];
      assert evs == init + [ev];
      ApplyAllByPath(v, init, p);
      ApplyAllSnoc(v, init, ev);
      ParsedSnoc(init, ev);
      if ev.EntryParsed? {
        var es := Parsed(evs);
        assert es[..|es| - 1] == Parsed(init) && es[|es| - 1] == ev.entry;
        assert LastWithPath(es, p)
            == if EntryPath(ev.entry) == p then Some(ev.entry) else LastWithPath(Parsed(init), p);
      } else {
        assert Parsed(evs) == Parsed(init) + [] == Parsed(init);
      }
    }
  }

  /** Loads accumulate: applying two runs of events in turn is applying them
      one after the other. */
  lemma {:induction false} ApplyAllAppend(v: ArchiveView, a: seq<Event>, b: seq<Event>)
    ensures ApplyAll(v, a + b) == ApplyAll(ApplyAll(v, a), b)
    decreases |b|
  {
    if b == [] {
      assert a + b == a;
    } else {
      var init := b[..|b| - 1];
      assert (a + b)[..|a + b| - 1] == a + init;
      assert (a + b)[|a + b| - 1] == b[|b| - 1];
      ApplyAllAppend(v, a, init);
    }
  }

  /** The events replayed on an index of entry objects `xs`, one object per
      parsed entry, in order. */
  function Replay<E>(v: Index<E>, evs: seq<Event>, xs: seq<E>): Index<E>
    requires |xs| == |Parsed(evs)|
    decreases |evs|
  {
    if evs == [] then v
    else
      var init, ev := evs[..|evs| - 1], evs[|evs| - 1];
      if ev.EntryParsed? then Insert(Replay(v, init, xs[..|xs| - 1]), ev.entry, xs[|xs| - 1])
      else AddKey(Replay(v, init, xs), ev)
  }

  lemma ReplaySnocEntry<E>(v: Index<E>, evs: seq<Event>, xs: seq<E>, ev: Event, x: E)
    requires |xs| == |Parsed(evs)| && ev.EntryParsed?
    ensures |xs + [x]| == |Parsed(evs + [ev])|
    ensures Replay(v, evs + [ev], xs + [x]) == Insert(Replay(v, evs, xs), ev.entry, x)
  {
    ParsedSnoc(evs, ev);
    assert (evs + [ev])[..|evs|] == evs;
    assert (xs + [x])[..|xs|] == xs;
  }

  lemma ReplaySnocKey<E>(v: Index<E>, evs: seq<Event>, xs: seq<E>, ev: Event)
    requires |xs| == |Parsed(evs)| && !ev.EntryParsed?
    ensures |xs| == |Parsed(evs + [ev])|
    ensures Replay(v, evs + [ev], xs) == AddKey(Replay(v, evs, xs), ev)
  {
    ParsedSnoc(evs, ev);
    assert (evs + [ev])[..|evs|] == evs;
  }

  lemma {:induction false} ReplayAppend<E>(v: Index<E>, a: seq<Event>, xa: seq<E>, b: seq<Event>, xb: seq<E>)
    requires |xa| == |Parsed(a)| && |xb| == |Parsed(b)|
    ensures |xa + xb| == |Parsed(a + b)|
    ensures Replay(v, a + b, xa + xb) == Replay(Replay(v, a, xa), b, xb)
    decreases |b|
  {
    ParsedAppend(a, b);
    if b == [] {
      assert a + b == a;
      assert xa + xb == xa;
    } else {
      var init, ev := b[..|b| - 1], b[|b| - 1];
      ParsedSnoc(init, ev);
      assert b == init + [ev];
      assert a + b == (a + init) + [ev];
      if ev.EntryParsed? {
        var xi, x := xb[..|xb| - 1], xb[|xb| - 1];
        assert xb == xi + [x];
        assert xa + xb == (xa + xi) + [x];
        ReplayAppend(v, a, xa, init, xi);
        ReplaySnocEntry(v, a + init, xa + xi, ev, x);
        ReplaySnocEntry(Replay(v, a, xa), init, xi, ev, x);
      } else {
        ReplayAppend(v, a, xa, init, xb);
        ReplaySnocKey(v, a + init, xa + xb, ev);
        ReplaySnocKey(Replay(v, a, xa), init, xb, ev);
      }
    }
  }

  lemma {:induction false} ParsedAppend(a: seq<Event>, b: seq<Event>)
    ensures Parsed(a + b) == Parsed(a) + Parsed(b)
    decreases |b|
  {
    if b == [] {
      assert a + b == a;
    } else {
      var init, ev := b[..|b| - 1], b[|b| - 1];
      assert a + b == (a + init) + [ev];
      ParsedAppend(a, init);
      ParsedSnoc(a + init, ev);
      ParsedSnoc(init, ev);
      assert b == init + [ev];
    }
  }
}
