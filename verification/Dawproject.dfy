/** DAWproject archives: normalised to a snapshot with detached resources, and written back. */
module Dawproject {
  import opened Json

  const MAX_XML_BYTES: nat := 256 * 1024 * 1024
  const MAX_ARCHIVE_ENTRIES: nat := 100_000
  const MAX_ARCHIVE_ENTRY_BYTES: nat := 2 * 1024 * 1024 * 1024
  const SNAPSHOT_SCHEMA_VERSION: nat := 2
  const MIN_SNAPSHOT_SCHEMA_VERSION: nat := 1

  const PROJECT: string := "project.xml"
  const METADATA: string := "metadata.xml"

  // An archive is a list of entries; `declared` is the size its directory claims.
  datatype Entry = Entry(name: string, directory: bool, declared: nat, content: Bytes)

  datatype Resource = Resource(id: string, data: Option<Bytes>, digest: Option<Digest>, size: Option<nat>)

  datatype Snapshot<D> = Snapshot(version: nat, project: D, metadata: Option<D>, resources: seq<Resource>)

  datatype Fault =
    | TooManyEntries
    | UnsafePath(path: string)
    | DuplicateEntry(path: string)
    | TooLarge(path: string)
    | BadXml(path: string)
    | MissingProject
    | NotHydrated(path: string)
    | WrongSize(path: string)
    | WrongHash(path: string)
    | NotRendered

  // What reads, writes, hashes and checks: an XML document is of type D.
  datatype Tools<!D> = Tools(
    parse: Bytes -> Option<D>, render: D -> Option<Bytes>, hash: Bytes -> Digest, valid: D -> bool)

  // -------------------------------------------------------------- safe paths

  /** The parts of a path between slashes. */
  function Components(path: string): seq<string>
    ensures Components(path) != []
  {
    if path == "" then [""]
    else if path[0] == '/' then [""] + Components(path[1..])
    else
      var rest := Components(path[1..]);
      [[path[0]] + rest[0]] + rest[1..]
  }

  // Only ordinary components: no root, no leading "." and no "..".
  predicate SafePath(path: string) {
    && path != "" && '\\' !in path
    && Components(path)[0] != "" && Components(path)[0] != "."
    && ".." !in Components(path)
  }

  // ---------------------------------------------------------------- encoding

  function Limit(path: string): nat {
    if path == PROJECT || path == METADATA then MAX_XML_BYTES else MAX_ARCHIVE_ENTRY_BYTES
  }

  predicate IsResource(e: Entry) {
    !e.directory && e.name != PROJECT && e.name != METADATA
  }

  /** What makes an archive acceptable, without regard to the order of its entries. */
  ghost predicate Encodable<D(!new)>(entries: seq<Entry>, tools: Tools<D>) {
    && |entries| <= MAX_ARCHIVE_ENTRIES
    && (forall e :: e in entries && !e.directory ==> Acceptable(e, tools))
    && NamesOnce(entries)
    && exists e :: e in entries && !e.directory && e.name == PROJECT
  }

  predicate Acceptable<D>(e: Entry, tools: Tools<D>) {
    var document := e.name == "project.xml" || e.name == "metadata.xml";
    var limit := if document then 268_435_456 else 2_147_483_648;
    && SafePath(e.name) && e.declared <= limit && |e.content| <= limit
    && (document ==> tools.parse(e.content).Some?)
  }

  ghost predicate NamesOnce(entries: seq<Entry>) {
    && (forall e, f :: e in entries && f in entries && !e.directory && !f.directory && e.name == f.name ==> e == f)
    && forall e :: e in entries && !e.directory ==> multiset(entries)[e] == 1
  }

  /** The bytes of every resource by its path. */
  ghost function Detached(entries: seq<Entry>): map<string, Bytes>
    requires NamesOnce(entries)
  {
    map e | e in entries && IsResource(e) :: e.name := e.content
  }

  function Described(path: string, content: Bytes, hash: Bytes -> Digest): Resource {
    Resource(path, None, Some(hash(content)), Some(|content|))
  }

  function Listed(paths: seq<string>, detached: map<string, Bytes>, hash: Bytes -> Digest): seq<Resource>
    requires forall path :: path in paths ==> path in detached
  {
    seq(|paths|, i requires 0 <= i < |paths| => Described(paths[i], detached[paths[i]], hash))
  }

  // The document in the file of a name, if there is one.
  ghost predicate HoldsDocument<D(!new)>(entries: seq<Entry>, name: string, document: Option<D>, tools: Tools<D>) {
    match document
    case None => forall e :: e in entries && !e.directory ==> e.name != name
    case Some(_) => exists e :: e in entries && !e.directory && e.name == name && tools.parse(e.content) == document
  }

  ghost predicate Encodes<D(!new)>(
    entries: seq<Entry>, tools: Tools<D>, snapshot: Snapshot<D>, detached: map<string, Bytes>)
  {
    && NamesOnce(entries)
    && snapshot.version == 2
    && HoldsDocument(entries, PROJECT, Some(snapshot.project), tools)
    && HoldsDocument(entries, METADATA, snapshot.metadata, tools)
    && detached == Detached(entries)
    && (forall path :: path in Sorted(detached.Keys) ==> path in detached)
    && snapshot.resources == Listed(Sorted(detached.Keys), detached, tools.hash)
  }

  // The loop's variables, and what they say of the entries read so far.
  datatype Reading<D> = Reading(
    project: Option<D>, metadata: Option<D>, ids: seq<string>, detached: map<string, Bytes>, paths: set<string>)

  ghost predicate Read<D(!new)>(entries: seq<Entry>, reading: Reading<D>, tools: Tools<D>) {
    && (forall e :: e in entries && !e.directory ==> Acceptable(e, tools))
    && NamesOnce(entries)
    && reading.paths == Names(entries)
    && reading.detached == Detached(entries)
    && Ascending(reading.ids) && Elements(reading.ids) == reading.detached.Keys
    && HoldsDocument(entries, PROJECT, reading.project, tools)
    && HoldsDocument(entries, METADATA, reading.metadata, tools)
  }

  method EncodeDawproject<D(!new)>(entries: seq<Entry>, tools: Tools<D>)
    returns (result: Result<(Snapshot<D>, map<string, Bytes>), Fault>)
    ensures result.Ok? <==> Encodable(entries, tools)
    ensures result == Err(TooManyEntries) <==> |entries| > 100_000
    ensures result == Err(MissingProject) ==>
      forall e :: e in entries && !e.directory ==> e.name != "project.xml" && Acceptable(e, tools)
    ensures result.Ok? ==> Encodes(entries, tools, result.value.0, result.value.1)
  {
    if |entries| > MAX_ARCHIVE_ENTRIES {
      return Err(TooManyEntries);
    }
    var read := ReadEntries(entries, tools);
    if read.Err? {
      return Err(read.error);
    }
    var reading := read.value;
    ReadIsEncoded(entries, reading, tools);
    if reading.project.None? {
      return Err(MissingProject);
    }
    var resources := Listed(reading.ids, reading.detached, tools.hash);
    var snapshot := Snapshot(SNAPSHOT_SCHEMA_VERSION, reading.project.value, reading.metadata, resources);
    result := Ok((snapshot, reading.detached));
  }

  lemma ReadIsEncoded<D(!new)>(entries: seq<Entry>, reading: Reading<D>, tools: Tools<D>)
    requires Read(entries, reading, tools) && |entries| <= MAX_ARCHIVE_ENTRIES
    ensures Encodable(entries, tools) <==> reading.project.Some?
    ensures reading.ids == Sorted(reading.detached.Keys)
    ensures forall id :: id in reading.ids <==> id in reading.detached
  {
    AscendingUnique(reading.ids, Sorted(reading.detached.Keys));
    assert forall id :: id in reading.ids <==> id in Elements(reading.ids);
  }

  method ReadEntries<D(!new)>(entries: seq<Entry>, tools: Tools<D>) returns (read: Result<Reading<D>, Fault>)
    ensures read.Ok? ==> Read(entries, read.value, tools)
    ensures read.Err? ==> !Encodable(entries, tools) && !read.error.TooManyEntries? && !read.error.MissingProject?
  {
    var reading: Reading<D> := Reading(None, None, [], map[], {});
    NothingRead(tools);
    assert entries[..0] == [];
    var i := 0;
    while i < |entries|
      invariant 0 <= i <= |entries| && Read(entries[..i], reading, tools)
    {
      assert entries[..i + 1] == entries[..i] + [entries[i]];
      var next := EncodeEntry(entries[..i], reading, entries[i], tools);
      if next.Err? {
        NotEncodable(entries, i, tools);
        return Err(next.error);
      }
      reading := next.value;
      i := i + 1;
    }
    assert entries[..i] == entries;
    read := Ok(reading);
  }

  // What is checked of an entry before it is read: its path, then whether it is new, then its size.
  method CheckEntry(entry: Entry, paths: set<string>) returns (fault: Option<Fault>)
    ensures fault.None? <==>
      var limit := if entry.name == "project.xml" || entry.name == "metadata.xml" then 268_435_456 else 2_147_483_648;
      SafePath(entry.name) && entry.name !in paths && entry.declared <= limit && |entry.content| <= limit
    ensures fault == Some(UnsafePath(entry.name)) <==> !SafePath(entry.name)
    ensures fault == Some(DuplicateEntry(entry.name)) <==> SafePath(entry.name) && entry.name in paths
    ensures fault.Some? ==> fault.value in {UnsafePath(entry.name), DuplicateEntry(entry.name), TooLarge(entry.name)}
  {
    if !SafePath(entry.name) {
      return Some(UnsafePath(entry.name));
    }
    if entry.name in paths {
      return Some(DuplicateEntry(entry.name));
    }
    if entry.declared > Limit(entry.name) || |entry.content| > Limit(entry.name) {
      return Some(TooLarge(entry.name));
    }
    fault := None;
  }

  // One entry of the loop.
  method EncodeEntry<D(!new)>(ghost before: seq<Entry>, reading: Reading<D>, entry: Entry, tools: Tools<D>)
    returns (next: Result<Reading<D>, Fault>)
    requires Read(before, reading, tools)
    ensures next.Ok? <==> entry.directory || (Acceptable(entry, tools) && entry.name !in Names(before))
    ensures next.Err? ==>
      next.error in {UnsafePath(entry.name), DuplicateEntry(entry.name), TooLarge(entry.name), BadXml(entry.name)}
    ensures next == Err(BadXml(entry.name)) ==>
      entry.name in {"project.xml", "metadata.xml"} && tools.parse(entry.content).None?
    ensures next.Ok? ==> Read(before + [entry], next.value, tools)
  {
    if entry.directory {
      OneMore(before, entry, tools);
      return Ok(reading);
    }
    var fault := CheckEntry(entry, reading.paths);
    if fault.Some? {
      return Err(fault.value);
    }
    OneMore(before, entry, tools);
    var paths := reading.paths + {entry.name};
    if entry.name == PROJECT || entry.name == METADATA {
      var document := tools.parse(entry.content);
      if document.None? {
        return Err(BadXml(entry.name));
      }
      next := Ok(if entry.name == PROJECT then reading.(project := document, paths := paths)
                 else reading.(metadata := document, paths := paths));
    } else {
      InsertOrdered(reading.ids, entry.name);
      next := Ok(reading.(
        detached := reading.detached[entry.name := entry.content],
        ids := Insert(reading.ids, entry.name),
        paths := paths));
    }
  }

  lemma NotEncodable<D(!new)>(entries: seq<Entry>, i: nat, tools: Tools<D>)
    requires i < |entries| && !entries[i].directory
    requires !Acceptable(entries[i], tools) || entries[i].name in Names(entries[..i])
    ensures !Encodable(entries, tools)
  {
    if Acceptable(entries[i], tools) {
      Repeated(entries, i);
    } else {
      assert entries[i] in entries;
    }
  }

  ghost function Names(entries: seq<Entry>): set<string> {
    set e | e in entries && !e.directory :: e.name
  }

  lemma NothingRead<D(!new)>(tools: Tools<D>)
    ensures Read([], Reading(None, None, [], map[], {}), tools)
  {
  }

  lemma Repeated(entries: seq<Entry>, i: nat)
    requires i < |entries| && !entries[i].directory && entries[i].name in Names(entries[..i])
    ensures !NamesOnce(entries)
  {
    var e :| e in entries[..i] && !e.directory && e.name == entries[i].name;
    var j :| 0 <= j < i && entries[j] == e;
    if e == entries[i] {
      TwiceCounted(entries, j, i);
    } else {
      assert e in entries && entries[i] in entries;
    }
  }

  lemma TwiceCounted(entries: seq<Entry>, j: nat, i: nat)
    requires j < i < |entries| && entries[i] == entries[j]
    ensures multiset(entries)[entries[i]] >= 2
  {
    var e := entries[i];
    assert entries == entries[..i] + [e] + entries[i + 1..];
    assert entries[..i] == entries[..j] + [e] + entries[j + 1..i];
  }

  // One accepted entry more: its name is still the only one of its kind.
  lemma OnceMore(entries: seq<Entry>, entry: Entry)
    requires NamesOnce(entries) && (entry.directory || entry.name !in Names(entries))
    ensures NamesOnce(entries + [entry])
  {
    var all := entries + [entry];
    assert forall e :: e in all <==> e in entries || e == entry;
    forall e, f | e in all && f in all && !e.directory && !f.directory && e.name == f.name ensures e == f {
      assert e in entries ==> e.name in Names(entries);
      assert f in entries ==> f.name in Names(entries);
    }
    forall e | e in all && !e.directory ensures multiset(all)[e] == 1 {
      assert e in entries ==> e.name in Names(entries);
    }
  }

  // Nothing of an earlier entry changes.
  lemma OneMore<D(!new)>(entries: seq<Entry>, entry: Entry, tools: Tools<D>)
    requires NamesOnce(entries) && (entry.directory || entry.name !in Names(entries))
    ensures NamesOnce(entries + [entry])
    ensures Names(entries + [entry]) == Names(entries) + (if entry.directory then {} else {entry.name})
    ensures Detached(entries + [entry]) ==
            if IsResource(entry) then Detached(entries)[entry.name := entry.content] else Detached(entries)
    ensures forall name, document: Option<D> :: (entry.directory || entry.name != name) ==>
              HoldsDocument(entries, name, document, tools) ==> HoldsDocument(entries + [entry], name, document, tools)
    ensures forall document: Option<D> ::
              document.Some? && tools.parse(entry.content) == document && !entry.directory ==>
              HoldsDocument(entries + [entry], entry.name, document, tools)
  {
    OnceMore(entries, entry);
    DetachedMore(entries, entry);
    var all := entries + [entry];
    assert forall e :: e in all <==> e in entries || e == entry;
    NamesMore(entries, entry);
  }

  lemma NamesMore(entries: seq<Entry>, entry: Entry)
    ensures Names(entries + [entry]) == Names(entries) + (if entry.directory then {} else {entry.name})
  {
    assert forall e :: e in entries + [entry] <==> e in entries || e == entry;
  }

  lemma DetachedMore(entries: seq<Entry>, entry: Entry)
    requires NamesOnce(entries) && NamesOnce(entries + [entry]) && (entry.directory || entry.name !in Names(entries))
    ensures Detached(entries + [entry]) ==
            if IsResource(entry) then Detached(entries)[entry.name := entry.content] else Detached(entries)
  {
    var all, before := entries + [entry], Detached(entries);
    var after := if IsResource(entry) then before[entry.name := entry.content] else before;
    forall e | e in all && IsResource(e) ensures e.name in after && after[e.name] == e.content {
      if e in entries {
        assert e.name in Names(entries);
      }
    }
    forall path | path in after ensures exists e :: e in all && IsResource(e) && e.name == path {
      if path in before {
        var e := DetachedEntry(entries, path);
        assert e in all;
      } else {
        assert entry in all;
      }
    }
    DetachedIs(all, after);
  }

  lemma DetachedIs(entries: seq<Entry>, resources: map<string, Bytes>)
    requires NamesOnce(entries)
    requires forall e :: e in entries && IsResource(e) ==> e.name in resources && resources[e.name] == e.content
    requires forall path :: path in resources ==> exists e :: e in entries && IsResource(e) && e.name == path
    ensures Detached(entries) == resources
  {
  }

  // ------------------------------------------------------- entry order is ignored

  lemma SameEntries(p: seq<Entry>, q: seq<Entry>)
    requires multiset(p) == multiset(q)
    ensures |p| == |q| && forall e :: e in p <==> e in q
  {
    assert |multiset(p)| == |multiset(q)|;
    assert forall e :: e in p <==> e in multiset(p);
    assert forall e :: e in q <==> e in multiset(q);
  }

  // The document of a name is that of the one file with it.
  lemma DocumentUnique<D(!new)>(entries: seq<Entry>, name: string, x: Option<D>, y: Option<D>, tools: Tools<D>)
    requires NamesOnce(entries) && HoldsDocument(entries, name, x, tools) && HoldsDocument(entries, name, y, tools)
    ensures x == y
  {
  }

  /**
   * Two archives with the same entries in different orders are both refused,
   * or both encoded, to the same snapshot and the same resources.
   */
  lemma OrderIgnored<D(!new)>(
    p: seq<Entry>, q: seq<Entry>, tools: Tools<D>, s: Snapshot<D>, d: map<string, Bytes>, t: Snapshot<D>,
    e: map<string, Bytes>)
    requires multiset(p) == multiset(q)
    ensures Encodable(p, tools) <==> Encodable(q, tools)
    ensures Encodes(p, tools, s, d) && Encodes(q, tools, t, e) ==> s == t && d == e
  {
    SameEntries(p, q);
    assert NamesOnce(p) <==> NamesOnce(q);
    if Encodes(p, tools, s, d) && Encodes(q, tools, t, e) {
      assert Detached(p) == Detached(q);
      assert HoldsDocument(q, PROJECT, Some(s.project), tools);
      assert HoldsDocument(q, METADATA, s.metadata, tools);
      DocumentUnique(q, PROJECT, Some(s.project), Some(t.project), tools);
      DocumentUnique(q, METADATA, s.metadata, t.metadata, tools);
    }
  }

  // ---------------------------------------------------------------- decoding

  function Data(resource: Resource, detached: map<string, Bytes>): Option<Bytes> {
    if resource.id in detached then Some(detached[resource.id]) else resource.data
  }

  /** What a resource must satisfy to be written. */
  predicate Hydrated(resource: Resource, detached: map<string, Bytes>, hash: Bytes -> Digest) {
    && SafePath(resource.id) && Data(resource, detached).Some?
    && var data := Data(resource, detached).value;
    && |data| <= 2_147_483_648
    && (resource.size.Some? ==> |data| == resource.size.value)
    && (resource.digest.Some? ==> hash(data) == resource.digest.value)
  }

  function FileEntry(name: string, content: Bytes): Entry {
    Entry(name, false, |content|, content)
  }

  function ResourceEntry(resource: Resource, detached: map<string, Bytes>): Entry {
    match Data(resource, detached)
    case Some(data) => FileEntry(resource.id, data)
    case None => FileEntry(resource.id, [])
  }

  function ResourceEntries(resources: seq<Resource>, detached: map<string, Bytes>): seq<Entry> {
    seq(|resources|, i requires 0 <= i < |resources| => ResourceEntry(resources[i], detached))
  }

  // The archive writer refuses a name it already has.
  predicate Writable(resources: seq<Resource>, names: set<string>) {
    && (forall r :: r in resources ==> r.id !in names)
    && forall i, j :: 0 <= i < j < |resources| ==> resources[i].id != resources[j].id
  }

  predicate Rendered<D>(snapshot: Snapshot<D>, tools: Tools<D>) {
    && tools.render(snapshot.project).Some?
    && (snapshot.metadata.Some? ==> tools.render(snapshot.metadata.value).Some?)
  }

  function XmlEntries<D>(snapshot: Snapshot<D>, tools: Tools<D>): seq<Entry>
    requires Rendered(snapshot, tools)
  {
    [FileEntry(PROJECT, tools.render(snapshot.project).value)] +
    if snapshot.metadata.Some? then [FileEntry(METADATA, tools.render(snapshot.metadata.value).value)] else []
  }

  function XmlNames<D>(snapshot: Snapshot<D>): set<string> {
    if snapshot.metadata.Some? then {PROJECT, METADATA} else {PROJECT}
  }

  /** The rendered documents by name, and behind them each resource by its id, detached bytes before inline ones. */
  ghost predicate Archived<D(!new)>(
    archive: seq<Entry>, snapshot: Snapshot<D>, detached: map<string, Bytes>, tools: Tools<D>)
  {
    var first := if snapshot.metadata.Some? then 2 else 1;
    && |archive| == first + |snapshot.resources|
    && archive[0].name == "project.xml" && Some(archive[0].content) == tools.render(snapshot.project)
    && (snapshot.metadata.Some? ==>
          && archive[1].name == "metadata.xml"
          && Some(archive[1].content) == tools.render(snapshot.metadata.value))
    && (forall e :: e in archive ==> !e.directory && e.declared == |e.content|)
    && forall i :: 0 <= i < |snapshot.resources| ==> Holds(archive[first..][i], snapshot.resources[i], detached)
  }

  predicate Holds(entry: Entry, resource: Resource, detached: map<string, Bytes>) {
    && entry.name == resource.id
    && Some(entry.content) == if resource.id in detached then Some(detached[resource.id]) else resource.data
  }

  lemma ArchivedExactly<D(!new)>(snapshot: Snapshot<D>, detached: map<string, Bytes>, tools: Tools<D>)
    requires Rendered(snapshot, tools) && forall r :: r in snapshot.resources ==> Data(r, detached).Some?
    ensures Archived(XmlEntries(snapshot, tools) + ResourceEntries(snapshot.resources, detached), snapshot, detached,
                     tools)
  {
    var (documents, rest) := (XmlEntries(snapshot, tools), ResourceEntries(snapshot.resources, detached));
    assert (documents + rest)[|documents|..] == rest;
    forall i | 0 <= i < |rest| ensures Holds(rest[i], snapshot.resources[i], detached) {
      assert snapshot.resources[i] in snapshot.resources;
    }
    assert forall e :: e in documents + rest ==> e in documents || e in rest;
  }

  /** Decoding succeeds exactly when every resource has its bytes, with the size and hash recorded for it. */
  method DecodeDawproject<D(!new)>(snapshot: Snapshot<D>, detached: map<string, Bytes>, tools: Tools<D>)
    returns (result: Result<seq<Entry>, Fault>)
    ensures result.Ok? <==>
      && Rendered(snapshot, tools) && Writable(snapshot.resources, XmlNames(snapshot))
      && forall r :: r in snapshot.resources ==> Hydrated(r, detached, tools.hash)
    ensures result.Ok? ==>
      result.value == XmlEntries(snapshot, tools) + ResourceEntries(snapshot.resources, detached)
    // Said of the archive's own entries: the documents first, then each resource.
    ensures result.Ok? ==> Archived(result.value, snapshot, detached, tools)
  {
    var project := tools.render(snapshot.project);
    if project.None? {
      return Err(NotRendered);
    }
    var archive := [FileEntry(PROJECT, project.value)];
    if snapshot.metadata.Some? {
      var metadata := tools.render(snapshot.metadata.value);
      if metadata.None? {
        return Err(NotRendered);
      }
      archive := archive + [FileEntry(METADATA, metadata.value)];
    }
    var written := WriteResources(snapshot.resources, XmlNames(snapshot), detached, tools.hash);
    if written.Ok? {
      ArchivedExactly(snapshot, detached, tools);
    }
    result := match written
      case Err(fault) => Err(fault)
      case Ok(entries) => Ok(archive + entries);
  }

  function IdSet(resources: seq<Resource>): set<string> {
    set r | r in resources :: r.id
  }

  method WriteResources(
    resources: seq<Resource>, before: set<string>, detached: map<string, Bytes>, hash: Bytes -> Digest)
    returns (result: Result<seq<Entry>, Fault>)
    ensures result.Ok? <==> Writable(resources, before) && forall r :: r in resources ==> Hydrated(r, detached, hash)
    ensures result.Ok? ==> result.value == ResourceEntries(resources, detached)
  {
    var archive: seq<Entry> := [];
    var names := before;
    var i := 0;
    while i < |resources|
      invariant 0 <= i <= |resources|
      invariant forall r :: r in resources[..i] ==> Hydrated(r, detached, hash)
      invariant archive == ResourceEntries(resources[..i], detached)
      invariant Writable(resources[..i], before)
      invariant names == before + IdSet(resources[..i])
    {
      WritableStep(resources, i, before);
      EntriesStep(resources, i, detached, hash);
      var data := ReadResource(resources[i], detached, hash);
      if data.Err? {
        return Err(data.error);
      }
      if resources[i].id in names {
        return Err(DuplicateEntry(resources[i].id));
      }
      archive := archive + [FileEntry(resources[i].id, data.value)];
      names := names + {resources[i].id};
      i := i + 1;
    }
    assert resources[..i] == resources;
    result := Ok(archive);
  }

  lemma EntriesStep(resources: seq<Resource>, i: nat, detached: map<string, Bytes>, hash: Bytes -> Digest)
    requires i < |resources|
    ensures resources[i] in resources
    ensures ResourceEntries(resources[..i + 1], detached) ==
            ResourceEntries(resources[..i], detached) + [ResourceEntry(resources[i], detached)]
    ensures (forall r :: r in resources[..i + 1] ==> Hydrated(r, detached, hash)) <==>
            (forall r :: r in resources[..i] ==> Hydrated(r, detached, hash)) && Hydrated(resources[i], detached, hash)
  {
    assert resources[..i + 1] == resources[..i] + [resources[i]];
  }

  lemma WritableStep(resources: seq<Resource>, i: nat, before: set<string>)
    requires i < |resources| && Writable(resources[..i], before)
    ensures Writable(resources[..i + 1], before) <==> resources[i].id !in before + IdSet(resources[..i])
    ensures Writable(resources, before) ==> resources[i].id !in before + IdSet(resources[..i])
    ensures before + IdSet(resources[..i + 1]) == before + IdSet(resources[..i]) + {resources[i].id}
  {
    var (done, next) := (resources[..i], resources[..i + 1]);
    assert next == done + [resources[i]];
    if resources[i].id in IdSet(done) {
      var r :| r in done && r.id == resources[i].id;
      var j :| 0 <= j < i && done[j] == r;
      assert next[j].id == next[i].id && resources[j].id == resources[i].id;
    }
    assert resources[i] in resources && next[i] in next;
    forall j | 0 <= j < i ensures done[j].id in IdSet(done) {
      assert done[j] in done;
    }
  }

  // The bytes of one resource, checked against what is recorded of it.
  method ReadResource(resource: Resource, detached: map<string, Bytes>, hash: Bytes -> Digest)
    returns (data: Result<Bytes, Fault>)
    ensures data.Ok? <==> Hydrated(resource, detached, hash)
    ensures data.Ok? ==> data.value == if resource.id in detached then detached[resource.id] else resource.data.value
    ensures data.Err? ==>
      match data.error
      case UnsafePath(path) => path == resource.id && !SafePath(path)
      case NotHydrated(path) => path == resource.id && path !in detached && resource.data.None?
      case TooLarge(path) => path == resource.id
      case WrongSize(path) => path == resource.id && resource.size.Some?
      case WrongHash(path) => path == resource.id && resource.digest.Some?
      case _ => false
  {
    if !SafePath(resource.id) {
      return Err(UnsafePath(resource.id));
    }
    var found := Data(resource, detached);
    if found.None? {
      return Err(NotHydrated(resource.id));
    }
    if |found.value| > MAX_ARCHIVE_ENTRY_BYTES {
      return Err(TooLarge(resource.id));
    }
    if resource.size.Some? && |found.value| != resource.size.value {
      return Err(WrongSize(resource.id));
    }
    if resource.digest.Some? && hash(found.value) != resource.digest.value {
      return Err(WrongHash(resource.id));
    }
    data := Ok(found.value);
  }

  // -------------------------------------------------------------- validation

  ghost predicate ValidSnapshot<D(!new)>(snapshot: Snapshot<D>, tools: Tools<D>) {
    && MIN_SNAPSHOT_SCHEMA_VERSION <= snapshot.version <= SNAPSHOT_SCHEMA_VERSION
    && tools.valid(snapshot.project) && (snapshot.metadata.Some? ==> tools.valid(snapshot.metadata.value))
    && Writable(snapshot.resources, {})
    && forall r :: r in snapshot.resources ==>
         && SafePath(r.id)
         && (snapshot.version == 1 ==> r.data.Some?)
         && (snapshot.version == 2 ==> r.digest.Some? && r.size.Some? && r.data.None?)
  }

  /** An XML document is only ever parsed into a valid one. */
  ghost predicate ParsesValid<D(!new)>(tools: Tools<D>) {
    forall bytes :: tools.parse(bytes).Some? ==> tools.valid(tools.parse(bytes).value)
  }

  lemma ListedIds(paths: seq<string>, detached: map<string, Bytes>, hash: Bytes -> Digest)
    requires Ascending(paths) && forall path :: path in paths ==> path in detached
    ensures Writable(Listed(paths, detached, hash), {})
  {
    forall i, j | 0 <= i < j < |paths| ensures paths[i] != paths[j] {
      BeforeTotal(paths[i], paths[j]);
    }
  }

  lemma ListedPaths(paths: seq<string>, detached: map<string, Bytes>, hash: Bytes -> Digest)
    requires Elements(paths) == detached.Keys && forall path :: path in paths ==> path in detached
    ensures forall path :: path in detached <==>
      exists i :: 0 <= i < |Listed(paths, detached, hash)| && Listed(paths, detached, hash)[i].id == path
  {
    var listed := Listed(paths, detached, hash);
    forall path ensures path in detached <==> exists i :: 0 <= i < |listed| && listed[i].id == path {
      assert path in detached <==> path in Elements(paths);
      if path in paths {
        var i :| 0 <= i < |paths| && paths[i] == path;
        assert listed[i].id == path;
      }
    }
  }

  /** Resource ids are strictly sorted, are the detached paths, and the snapshot is valid. */
  lemma EncodedIsValid<D(!new)>(entries: seq<Entry>, tools: Tools<D>, s: Snapshot<D>, d: map<string, Bytes>)
    requires Encodable(entries, tools) && Encodes(entries, tools, s, d) && ParsesValid(tools)
    ensures ValidSnapshot(s, tools)
    ensures forall i, j :: 0 <= i < j < |s.resources| ==> Before(s.resources[i].id, s.resources[j].id)
    ensures forall path :: path in d <==> exists i :: 0 <= i < |s.resources| && s.resources[i].id == path
  {
    var paths := Sorted(d.Keys);
    ListedIds(paths, d, tools.hash);
    ListedPaths(paths, d, tools.hash);
    forall r | r in s.resources ensures SafePath(r.id) && r == Described(r.id, d[r.id], tools.hash) {
      ListedMember(paths, d, tools.hash, r);
      var e := DetachedEntry(entries, r.id);
      assert Acceptable(e, tools);
    }
  }

  // -------------------------------------------------------------- round trip

  /**
   * Decoding what was encoded gives every resource back with its exact bytes,
   * and nothing but the XML documents beside them.
   */
  lemma DecodedHasEveryResource<D(!new)>(entries: seq<Entry>, tools: Tools<D>, s: Snapshot<D>, d: map<string, Bytes>)
    requires Encodable(entries, tools) && Encodes(entries, tools, s, d) && Rendered(s, tools)
    ensures Writable(s.resources, XmlNames(s)) && forall r :: r in s.resources ==> Hydrated(r, d, tools.hash)
    ensures var archive := XmlEntries(s, tools) + ResourceEntries(s.resources, d);
            && NamesOnce(archive) && Detached(archive) == Detached(entries)
  {
    EncodedHydrated(entries, tools, s, d);
    ArchiveOnce(s, d, tools);
    ArchiveResources(s, d, tools);
  }

  lemma EncodedHydrated<D(!new)>(entries: seq<Entry>, tools: Tools<D>, s: Snapshot<D>, d: map<string, Bytes>)
    requires Encodable(entries, tools) && Encodes(entries, tools, s, d)
    ensures forall path :: path in d ==> path != PROJECT && path != METADATA
    ensures forall r :: r in s.resources ==> Hydrated(r, d, tools.hash)
    ensures Writable(s.resources, XmlNames(s))
  {
    var paths := Sorted(d.Keys);
    ListedIds(paths, d, tools.hash);
    forall path | path in d
      ensures path != PROJECT && path != METADATA && SafePath(path) && |d[path]| <= MAX_ARCHIVE_ENTRY_BYTES
    {
      var e := DetachedEntry(entries, path);
      assert Acceptable(e, tools);
    }
    forall r | r in s.resources ensures Hydrated(r, d, tools.hash) && r.id !in XmlNames(s) {
      ListedMember(paths, d, tools.hash, r);
    }
  }

  lemma DetachedEntry(entries: seq<Entry>, path: string) returns (e: Entry)
    requires NamesOnce(entries) && path in Detached(entries)
    ensures e in entries && IsResource(e) && e.name == path && e.content == Detached(entries)[path]
  {
    e :| e in entries && IsResource(e) && e.name == path;
  }

  lemma ListedMember(paths: seq<string>, d: map<string, Bytes>, hash: Bytes -> Digest, r: Resource)
    requires (forall path :: path in paths ==> path in d) && r in Listed(paths, d, hash)
    ensures r.id in d && r == Described(r.id, d[r.id], hash)
  {
    var i :| 0 <= i < |paths| && Listed(paths, d, hash)[i] == r;
    assert paths[i] in paths;
  }

  lemma ListedEntries(paths: seq<string>, d: map<string, Bytes>, hash: Bytes -> Digest)
    requires forall path :: path in paths <==> path in d
    ensures var rest := ResourceEntries(Listed(paths, d, hash), d);
            && (forall path :: path in d ==> FileEntry(path, d[path]) in rest)
            && forall e :: e in rest ==> e.name in d && e == FileEntry(e.name, d[e.name])
  {
    var rest := ResourceEntries(Listed(paths, d, hash), d);
    forall path | path in d ensures FileEntry(path, d[path]) in rest {
      var i :| 0 <= i < |paths| && paths[i] == path;
      assert rest[i] == FileEntry(path, d[path]);
    }
    forall e | e in rest ensures e.name in d && e == FileEntry(e.name, d[e.name]) {
      var i :| 0 <= i < |rest| && rest[i] == e;
      assert paths[i] in d;
    }
  }

  lemma ArchiveResources<D(!new)>(s: Snapshot<D>, d: map<string, Bytes>, tools: Tools<D>)
    requires Rendered(s, tools) && (forall path :: path in Sorted(d.Keys) ==> path in d)
    requires s.resources == Listed(Sorted(d.Keys), d, tools.hash)
    requires NamesOnce(XmlEntries(s, tools) + ResourceEntries(s.resources, d))
    requires forall path :: path in d ==> path != PROJECT && path != METADATA
    ensures Detached(XmlEntries(s, tools) + ResourceEntries(s.resources, d)) == d
  {
    var (xml, rest) := (XmlEntries(s, tools), ResourceEntries(s.resources, d));
    assert forall path :: path in Sorted(d.Keys) <==> path in Elements(Sorted(d.Keys));
    ListedEntries(Sorted(d.Keys), d, tools.hash);
    assert forall e :: e in xml ==> !IsResource(e);
    DetachedParts(xml, rest, d);
  }

  lemma DetachedParts(xml: seq<Entry>, rest: seq<Entry>, d: map<string, Bytes>)
    requires NamesOnce(xml + rest) && forall e :: e in xml ==> !IsResource(e)
    requires forall path :: path in d ==> path != PROJECT && path != METADATA && FileEntry(path, d[path]) in rest
    requires forall e :: e in rest ==> e.name in d && e == FileEntry(e.name, d[e.name])
    ensures Detached(xml + rest) == d
  {
    var all := xml + rest;
    forall path | path in d ensures path in Detached(all) && Detached(all)[path] == d[path] {
      var e := FileEntry(path, d[path]);
      assert e in all && IsResource(e);
    }
    forall path | path in Detached(all) ensures path in d {
      var e := DetachedEntry(all, path);
      assert e in rest;
    }
  }

  lemma ArchiveOnce<D(!new)>(s: Snapshot<D>, d: map<string, Bytes>, tools: Tools<D>)
    requires Rendered(s, tools) && Writable(s.resources, XmlNames(s))
    requires forall r :: r in s.resources ==> Hydrated(r, d, tools.hash)
    ensures NamesOnce(XmlEntries(s, tools) + ResourceEntries(s.resources, d))
  {
    ArchiveNames(s, d, tools);
    OnceByPosition(XmlEntries(s, tools) + ResourceEntries(s.resources, d));
  }

  lemma ArchiveNames<D(!new)>(s: Snapshot<D>, d: map<string, Bytes>, tools: Tools<D>)
    requires Rendered(s, tools) && Writable(s.resources, XmlNames(s))
    requires forall r :: r in s.resources ==> Hydrated(r, d, tools.hash)
    ensures var archive := XmlEntries(s, tools) + ResourceEntries(s.resources, d);
            forall i, j :: 0 <= i < j < |archive| ==> archive[i].name != archive[j].name
  {
    var (xml, rest) := (XmlEntries(s, tools), ResourceEntries(s.resources, d));
    var archive := xml + rest;
    forall i, j | 0 <= i < j < |archive| ensures archive[i].name != archive[j].name {
      if j >= |xml| {
        assert archive[j] == rest[j - |xml|] && s.resources[j - |xml|] in s.resources;
      }
    }
  }

  lemma {:induction false} OnceByPosition(entries: seq<Entry>)
    requires forall i, j :: 0 <= i < j < |entries| ==> entries[i].name != entries[j].name
    ensures NamesOnce(entries)
  {
    forall e | e in entries ensures multiset(entries)[e] == 1 {
      var i :| 0 <= i < |entries| && entries[i] == e;
      assert entries == entries[..i] + [e] + entries[i + 1..];
      assert e !in entries[..i] && e !in entries[i + 1..];
    }
  }
}
