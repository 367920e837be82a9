/** DAWproject archives with their documents written and read as XML: when encoding again changes nothing. */
module DawprojectXml {
  import opened Json
  import opened Dawproject
  import X = Xml
  import F = XmlFidelity

  // ------------------------------------------------------ encoding once more

  /** A document that reads back from what is written for it, if that is not too long. */
  predicate Stable<D(==)>(document: D, tools: Tools<D>)
    requires tools.render(document).Some?
  {
    var bytes := tools.render(document).value;
    |bytes| <= MAX_XML_BYTES && tools.parse(bytes) == Some(document)
  }

  ghost predicate AllStable<D(!new)>(s: Snapshot<D>, tools: Tools<D>)
    requires Rendered(s, tools)
  {
    Stable(s.project, tools) && (s.metadata.Some? ==> Stable(s.metadata.value, tools))
  }

  ghost function Archive<D(!new)>(s: Snapshot<D>, d: map<string, Bytes>, tools: Tools<D>): seq<Entry>
    requires Rendered(s, tools)
  {
    XmlEntries(s, tools) + ResourceEntries(s.resources, d)
  }

  lemma {:induction false} NamesFew(entries: seq<Entry>)
    ensures |Names(entries)| <= |entries|
  {
    if entries != [] {
      var last := |entries| - 1;
      NamesFew(entries[..last]);
      NamesMore(entries[..last], entries[last]);
      assert entries == entries[..last] + [entries[last]];
    } else {
      assert Names(entries) == {};
    }
  }

  lemma NextIsNew(entries: seq<Entry>, n: nat)
    requires n < |entries| && forall i, j :: 0 <= i < j < |entries| ==> entries[i].name != entries[j].name
    ensures entries[n].name !in Names(entries[..n]) && entries[..n + 1] == entries[..n] + [entries[n]]
  {
    forall e | e in entries[..n] ensures e.name != entries[n].name {
      var i :| 0 <= i < n && entries[i] == e;
    }
  }

  lemma {:induction false} NamesAll(entries: seq<Entry>, n: nat)
    requires n <= |entries| && forall i :: 0 <= i < |entries| ==> !entries[i].directory
    requires forall i, j :: 0 <= i < j < |entries| ==> entries[i].name != entries[j].name
    ensures |Names(entries[..n])| == n
  {
    if n == 0 {
      assert Names(entries[..n]) == {};
    } else {
      NamesAll(entries, n - 1);
      NextIsNew(entries, n - 1);
      NamesMore(entries[..n - 1], entries[n - 1]);
    }
  }

  // The entries of the decoded archive.
  lemma ArchiveMembers<D(!new)>(s: Snapshot<D>, d: map<string, Bytes>, tools: Tools<D>, e: Entry)
    requires Rendered(s, tools) && e in Archive(s, d, tools)
    requires forall r :: r in s.resources ==> Hydrated(r, d, tools.hash)
    ensures !e.directory && e.declared == |e.content|
    ensures || e == FileEntry(PROJECT, tools.render(s.project).value)
            || (s.metadata.Some? && e == FileEntry(METADATA, tools.render(s.metadata.value).value))
            || (exists r :: r in s.resources && e == ResourceEntry(r, d))
  {
    var xml, rest := XmlEntries(s, tools), ResourceEntries(s.resources, d);
    if e !in xml {
      var i :| 0 <= i < |rest| && rest[i] == e;
      assert s.resources[i] in s.resources && e == ResourceEntry(s.resources[i], d);
    }
  }

  lemma ArchiveHolds<D(!new)>(s: Snapshot<D>, d: map<string, Bytes>, tools: Tools<D>)
    requires Rendered(s, tools)
    ensures FileEntry(PROJECT, tools.render(s.project).value) in Archive(s, d, tools)
    ensures s.metadata.Some? ==> FileEntry(METADATA, tools.render(s.metadata.value).value) in Archive(s, d, tools)
  {
    var xml := XmlEntries(s, tools);
    assert xml[0] in xml && (s.metadata.Some? ==> xml[1] in xml);
  }

  // No more entries than the archive that was encoded.
  lemma ArchiveFits<D(!new)>(entries: seq<Entry>, tools: Tools<D>, s: Snapshot<D>, d: map<string, Bytes>)
    requires Encodable(entries, tools) && Encodes(entries, tools, s, d) && Rendered(s, tools)
    requires Writable(s.resources, XmlNames(s)) && forall r :: r in s.resources ==> Hydrated(r, d, tools.hash)
    ensures |Archive(s, d, tools)| <= MAX_ARCHIVE_ENTRIES
  {
    var archive := Archive(s, d, tools);
    forall i | 0 <= i < |archive| ensures !archive[i].directory {
      ArchiveMembers(s, d, tools, archive[i]);
    }
    ArchiveNames(s, d, tools);
    NamesAll(archive, |archive|);
    assert archive[..|archive|] == archive;
    NamesFew(entries);
    NamesWereThere(entries, tools, s, d);
    SmallerSet(Names(archive), Names(entries));
  }

  lemma NamesWereThere<D(!new)>(entries: seq<Entry>, tools: Tools<D>, s: Snapshot<D>, d: map<string, Bytes>)
    requires Encodable(entries, tools) && Encodes(entries, tools, s, d) && Rendered(s, tools)
    requires forall r :: r in s.resources ==> Hydrated(r, d, tools.hash)
    ensures Names(Archive(s, d, tools)) <= Names(entries)
  {
    forall name | name in Names(Archive(s, d, tools)) ensures name in Names(entries) {
      var e :| e in Archive(s, d, tools) && e.name == name;
      ArchiveMembers(s, d, tools, e);
      NameWasThere(entries, tools, s, d, e);
    }
  }

  lemma SmallerSet<T>(p: set<T>, q: set<T>)
    requires p <= q
    ensures |p| <= |q|
  {
    assert q == p + (q - p);
  }

  lemma NameWasThere<D(!new)>(entries: seq<Entry>, tools: Tools<D>, s: Snapshot<D>, d: map<string, Bytes>, e: Entry)
    requires Encodable(entries, tools) && Encodes(entries, tools, s, d) && Rendered(s, tools)
    requires || e.name == PROJECT || (s.metadata.Some? && e.name == METADATA)
             || (exists r :: r in s.resources && e == ResourceEntry(r, d))
    ensures e.name in Names(entries)
  {
    if exists r :: r in s.resources && e == ResourceEntry(r, d) {
      var r :| r in s.resources && e == ResourceEntry(r, d);
      ListedMember(Sorted(d.Keys), d, tools.hash, r);
      var f := DetachedEntry(entries, r.id);
    }
  }

  /**
   * Encoding the decoded archive gives the same snapshot and the same
   * resources if and only if both documents read back from what is written.
   */
  lemma EncodedAgain<D(!new)>(entries: seq<Entry>, tools: Tools<D>, s: Snapshot<D>, d: map<string, Bytes>)
    requires Encodable(entries, tools) && Encodes(entries, tools, s, d) && Rendered(s, tools)
    ensures Encodable(Archive(s, d, tools), tools) && Encodes(Archive(s, d, tools), tools, s, d) <==>
      AllStable(s, tools)
  {
    var archive := Archive(s, d, tools);
    DecodedHasEveryResource(entries, tools, s, d);
    ArchiveHolds(s, d, tools);
    if AllStable(s, tools) {
      StableIsEncodable(entries, tools, s, d);
      StableEncodes(entries, tools, s, d);
    } else if Encodable(archive, tools) && Encodes(archive, tools, s, d) {
      DocumentRead(archive, tools, PROJECT, s.project, FileEntry(PROJECT, tools.render(s.project).value));
      if s.metadata.Some? {
        var metadata := s.metadata.value;
        DocumentRead(archive, tools, METADATA, metadata, FileEntry(METADATA, tools.render(metadata).value));
      }
      assert false;
    }
  }

  lemma DocumentRead<D(!new)>(archive: seq<Entry>, tools: Tools<D>, name: string, document: D, e: Entry)
    requires Encodable(archive, tools) && HoldsDocument(archive, name, Some(document), tools)
    requires e in archive && e.name == name && !e.directory && (name == PROJECT || name == METADATA)
    ensures |e.content| <= MAX_XML_BYTES && tools.parse(e.content) == Some(document)
  {
    assert Acceptable(e, tools);
  }

  lemma StableIsEncodable<D(!new)>(entries: seq<Entry>, tools: Tools<D>, s: Snapshot<D>, d: map<string, Bytes>)
    requires Encodable(entries, tools) && Encodes(entries, tools, s, d) && Rendered(s, tools) && AllStable(s, tools)
    ensures Encodable(Archive(s, d, tools), tools)
  {
    var archive := Archive(s, d, tools);
    DecodedHasEveryResource(entries, tools, s, d);
    EncodedHydrated(entries, tools, s, d);
    ArchiveHolds(s, d, tools);
    ArchiveFits(entries, tools, s, d);
    DocumentNames(entries, tools, s, d);
    forall e | e in archive ensures Acceptable(e, tools) {
      ArchiveMembers(s, d, tools, e);
      if e.name != PROJECT && e.name != METADATA {
        var r :| r in s.resources && e == ResourceEntry(r, d);
      } else {
        ArchiveDocument(entries, tools, s, d, e);
      }
    }
  }

  // The documents' names are safe, because entries with them were accepted.
  lemma DocumentNames<D(!new)>(entries: seq<Entry>, tools: Tools<D>, s: Snapshot<D>, d: map<string, Bytes>)
    requires Encodable(entries, tools) && Encodes(entries, tools, s, d)
    ensures SafePath(PROJECT) && (s.metadata.Some? ==> SafePath(METADATA))
  {
    var e :| e in entries && !e.directory && e.name == PROJECT;
    assert Acceptable(e, tools);
    if s.metadata.Some? {
      var f :| f in entries && !f.directory && f.name == METADATA;
      assert Acceptable(f, tools);
    }
  }

  // No resource has the name of a document.
  lemma ArchiveDocument<D(!new)>(entries: seq<Entry>, tools: Tools<D>, s: Snapshot<D>, d: map<string, Bytes>, e: Entry)
    requires Encodable(entries, tools) && Encodes(entries, tools, s, d) && Rendered(s, tools)
    requires e in Archive(s, d, tools) && (e.name == PROJECT || e.name == METADATA)
    ensures e == FileEntry(PROJECT, tools.render(s.project).value) ||
            (s.metadata.Some? && e == FileEntry(METADATA, tools.render(s.metadata.value).value))
  {
    EncodedHydrated(entries, tools, s, d);
    ArchiveMembers(s, d, tools, e);
    if exists r :: r in s.resources && e == ResourceEntry(r, d) {
      var r :| r in s.resources && e == ResourceEntry(r, d);
      ListedMember(Sorted(d.Keys), d, tools.hash, r);
    }
  }

  lemma StableEncodes<D(!new)>(entries: seq<Entry>, tools: Tools<D>, s: Snapshot<D>, d: map<string, Bytes>)
    requires Encodable(entries, tools) && Encodes(entries, tools, s, d) && Rendered(s, tools) && AllStable(s, tools)
    ensures Encodes(Archive(s, d, tools), tools, s, d)
  {
    var archive := Archive(s, d, tools);
    DecodedHasEveryResource(entries, tools, s, d);
    ArchiveHolds(s, d, tools);
    if s.metadata.None? {
      forall e | e in archive ensures e.name != METADATA {
        if e.name == METADATA {
          ArchiveDocument(entries, tools, s, d, e);
        }
      }
    }
  }

  // --------------------------------------------------- documents as XML bytes

  // How bytes become events and events bytes; white space and XML names as for the documents themselves.
  datatype Codec = Codec(
    tokens: Bytes -> Option<seq<X.Event>>, text: seq<X.Event> -> Bytes, space: char -> bool, named: string -> bool)

  /** Of a document the reader sees the events that were written, neighbouring runs of text as one. */
  ghost predicate Reads(codec: Codec) {
    forall e :: X.Valid(e, codec.named) && F.NoEmptySections(e) ==>
      codec.tokens(codec.text(X.Document(e))) == Some(X.Tokens(X.Document(e), ""))
  }

  ghost function ParseBytes(codec: Codec, bytes: Bytes): Option<X.Element> {
    if |bytes| > MAX_XML_BYTES || codec.tokens(bytes).None? then None
    else
      match X.Parsed(codec.tokens(bytes).value, codec.space, codec.named)
      case Ok(document) => Some(document)
      case Err(_) => None
  }

  ghost function RenderBytes(codec: Codec, e: X.Element): Option<Bytes> {
    if X.Valid(e, codec.named) then Some(codec.text(X.Document(e))) else None
  }

  ghost function XmlTools(codec: Codec, hash: Bytes -> Digest): Tools<X.Element> {
    Tools(bytes => ParseBytes(codec, bytes), e => RenderBytes(codec, e), hash, e => X.Valid(e, codec.named))
  }

  lemma XmlParsesValid(codec: Codec, hash: Bytes -> Digest)
    ensures ParsesValid(XmlTools(codec, hash))
  {
  }

  lemma DocumentStable(codec: Codec, hash: Bytes -> Digest, e: X.Element)
    requires Reads(codec) && X.Valid(e, codec.named) && F.NoEmptySections(e)
    ensures Stable(e, XmlTools(codec, hash)) <==>
            |codec.text(X.Document(e))| <= MAX_XML_BYTES && F.Faithful(e, codec.space)
  {
    F.XmlRoundTrip(e, codec.space, codec.named);
  }

  // A document that survives being written and read.
  ghost predicate Survives(codec: Codec, e: X.Element) {
    |codec.text(X.Document(e))| <= MAX_XML_BYTES && F.Faithful(e, codec.space)
  }

  /**
   * Encoding an archive, decoding it and encoding it again gives the same
   * snapshot and resources if and only if its documents are faithful and what
   * is written for them is within the limit.
   */
  lemma ArchiveRoundTrip(
    entries: seq<Entry>, codec: Codec, hash: Bytes -> Digest, s: Snapshot<X.Element>, d: map<string, Bytes>)
    requires Reads(codec)
    requires var tools := XmlTools(codec, hash); Encodable(entries, tools) && Encodes(entries, tools, s, d)
    requires F.NoEmptySections(s.project) && (s.metadata.Some? ==> F.NoEmptySections(s.metadata.value))
    ensures Rendered(s, XmlTools(codec, hash))
    ensures var (tools, archive) := (XmlTools(codec, hash), Archive(s, d, XmlTools(codec, hash)));
            Encodable(archive, tools) && Encodes(archive, tools, s, d) <==>
            Survives(codec, s.project) && (s.metadata.Some? ==> Survives(codec, s.metadata.value))
  {
    var tools := XmlTools(codec, hash);
    XmlParsesValid(codec, hash);
    assert tools.valid(s.project) && (s.metadata.Some? ==> tools.valid(s.metadata.value));
    DocumentStable(codec, hash, s.project);
    if s.metadata.Some? {
      DocumentStable(codec, hash, s.metadata.value);
    }
    EncodedAgain(entries, tools, s, d);
  }
}
