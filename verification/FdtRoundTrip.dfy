/** Parsing what `to_string` printed gives the table's normal form. */
module FdtRoundTrip {
  import opened Bytes
  import opened Flute
  import opened Numerals
  import opened Xml
  import opened FdtXml

  // ---------------------------------------------------------------------------------------------
  // Normal forms
  // ---------------------------------------------------------------------------------------------

  function OrDefault(n: U32, default: U32): U32 {
    if n == 0 then default else n
  }

  /** The table's own values: a transfer length and a maximum number of symbols are never printed. */
  function NormalGlobal(g: FecOti): FecOti {
    g.(transferLength := 0, maxNumberOfEncodingSymbols := 0)
  }

  /**
   * What a reader makes of an entry: values of 0 are inherited, a transfer length of 0 is the content length, only
   * 32 bits of it are read, and the expiry survives only as the cache expiry, which no-cache drops.
   */
  function Normal(g: FecOti, e: FileEntry): FileEntry {
    var cacheExpires := if !e.noCache && e.cacheExpires.Some? then Some(e.expires) else None;
    var transferLength: U64 := if e.fecOti.transferLength == 0 then e.contentLength
                               else e.fecOti.transferLength % 0x1_0000_0000;
    e.(fecOti := FecOti(
         e.fecOti.encodingId,
         OrDefault(e.fecOti.instanceId, g.instanceId),
         transferLength,
         OrDefault(e.fecOti.encodingSymbolLength, g.encodingSymbolLength),
         OrDefault(e.fecOti.maxSourceBlockLength, g.maxSourceBlockLength),
         0),
       expires := if cacheExpires.Some? then cacheExpires.value else 0,
       cacheExpires := cacheExpires)
  }

  function NormalAll(g: FecOti, entries: seq<FileEntry>): (r: seq<FileEntry>)
    ensures |r| == |entries|
  {
    seq(|entries|, i requires 0 <= i < |entries| => Normal(g, entries[i]))
  }

  function NormalTable(instanceId: U32, t: Table): Table {
    Table(instanceId, Previous(instanceId), NormalAll(t.globalOti, t.entries), NormalGlobal(t.globalOti), t.expires,
          t.fdtNamespace)
  }

  /**
   * Normalising an entry again changes nothing, except where the transfer length is a non-zero multiple of 2^32:
   * that reads as 0, which the next reader takes for the content length.
   */
  lemma NormalIsIdempotent(g: FecOti, e: FileEntry)
    ensures Normal(NormalGlobal(g), Normal(g, e)) == Normal(g, e) <==>
            !(e.fecOti.transferLength > 0 && e.fecOti.transferLength % 0x1_0000_0000 == 0 && e.contentLength > 0)
  {
    var once := Normal(g, e);
    var twice := Normal(NormalGlobal(g), once);
    if e.fecOti.transferLength > 0 && e.fecOti.transferLength % 0x1_0000_0000 == 0 && e.contentLength > 0 {
      assert twice.fecOti.transferLength != once.fecOti.transferLength;
    } else {
      assert twice.fecOti == once.fecOti;
    }
  }

  // ---------------------------------------------------------------------------------------------
  // Finding printed attributes
  // ---------------------------------------------------------------------------------------------

  lemma {:induction false} LookupCollect(order: seq<AttributeName>, value: AttributeName -> Option<string>,
          a: AttributeName)
    ensures Lookup(Collect(order, value), a) == if a in order then value(a) else None
  {
    if order != [] {
      LookupCollect(order[1..], value, a);
      var rest := Collect(order[1..], value);
      if value(order[0]).Some? {
        assert ([Field(order[0], value(order[0]).value)] + rest)[1..] == rest;
      }
      if order[0] != a && a in order {
        assert a in order[1..];
      }
    }
  }

  /** Unprefixed attributes are found by their name in the namespace of their element. */
  lemma {:induction false} FindField(ns: Namespaces, fields: seq<Field>, a: AttributeName)
    ensures FindIn(ns, Attributes(fields), NameOf(a), ns.defaultNs) == Lookup(fields, a)
  {
    if fields != [] {
      assert Attributes(fields)[1..] == Attributes(fields[1..]);
      FindField(ns, fields[1..], a);
      NamesDiffer(fields[0].name, a);
      NameIsPlain(fields[0].name);
      NoColon(NameOf(fields[0].name));
    }
  }

  /** No field is found under another name. */
  lemma {:induction false} FindNoField(ns: Namespaces, fields: seq<Field>, name: string, wanted: string)
    requires |name| == |FILE_ETAG|
    ensures FindIn(ns, Attributes(fields), name, wanted) == None
  {
    if fields != [] {
      assert Attributes(fields)[1..] == Attributes(fields[1..]);
      FindNoField(ns, fields[1..], name, wanted);
      NameIsPlain(fields[0].name);
      NoColon(NameOf(fields[0].name));
    }
  }

  /** A prefixed attribute is not found under another local name. */
  lemma PrefixedNotFound(ns: Namespaces, prefix: string, local: string, value: string, name: string, wanted: string)
    requires ':' !in prefix && local != name
    ensures FindIn(ns, [Attribute(prefix + ":" + local, value)], name, wanted) == None
  {
    ColonAfterPrefix(prefix, local);
    var one := [Attribute(prefix + ":" + local, value)];
    assert one[1..] == [];
  }

  /** The attributes of the root around its fields are found under none of their names. */
  lemma FindInRoot(ns: Namespaces, t: Table, fields: seq<Attribute>, name: string, wanted: string)
    requires |name| !in {|XMLNS|, |MBMS2007|, |MBMS2012|}
    ensures FindIn(ns, DefaultNamespace(t) + fields + PrefixDeclarations(), name, wanted)
        == FindIn(ns, fields, name, wanted)
  {
    var d, p := DefaultNamespace(t), PrefixDeclarations();
    FindConcat(ns, d + fields, p, name, wanted);
    FindConcat(ns, d, fields, name, wanted);
    NoColon(XMLNS);
    assert d != [] ==> d[0].name == XMLNS && d[1..] == [];
    FindConcat(ns, [p[0]], [p[1]], name, wanted);
    assert p == [p[0]] + [p[1]];
    assert ':' !in XMLNS;
    PrefixedNotFound(ns, XMLNS, MBMS2007, MBMS2007_NS, name, wanted);
    PrefixedNotFound(ns, XMLNS, MBMS2012, MBMS2012_NS, name, wanted);
  }

  lemma FindInFile(ns: Namespaces, e: FileEntry, fields: seq<Attribute>, name: string, wanted: string)
    requires |name| != |FILE_ETAG|
    ensures FindIn(ns, fields + EtagAttribute(e), name, wanted) == FindIn(ns, fields, name, wanted)
  {
    FindConcat(ns, fields, EtagAttribute(e), name, wanted);
    assert ':' !in MBMS2012;
    PrefixedNotFound(ns, MBMS2012, FILE_ETAG, e.etag, name, wanted);
  }

  // ---------------------------------------------------------------------------------------------
  // Namespaces of the printed tree
  // ---------------------------------------------------------------------------------------------

  function PrintedNamespaces(t: Table): Namespaces {
    Namespaces(NamespaceUri(t.fdtNamespace), map[MBMS2007 := MBMS2007_NS, MBMS2012 := MBMS2012_NS])
  }

  lemma DeclarePrefix(ns: Namespaces, prefix: string, uri: string)
    requires prefix !in ns.prefixes
    ensures Declare(ns, Attribute(XMLNS + ":" + prefix, uri)) == ns.(prefixes := ns.prefixes[prefix := uri])
  {
    var name := XMLNS + ":" + prefix;
    assert |XMLNS + ":"| == 6 && name[..6] == XMLNS + ":" && name[6..] == prefix;
    assert name[5] == ':';
  }

  lemma FieldsDeclareNothing(ns: Namespaces, fields: seq<Field>)
    ensures DeclareAll(ns, Attributes(fields)) == ns
  {
    var attributes := Attributes(fields);
    forall i | 0 <= i < |attributes|
      ensures attributes[i].name != XMLNS && (|attributes[i].name| >= 6 ==> attributes[i].name[..6] != XMLNS + ":")
    {
      var name := NameOf(fields[i].name);
      NameIsPlain(fields[i].name);
      if |name| >= 6 {
        assert name[5] in name && (XMLNS + ":")[5] == ':' && name[..6][5] == name[5];
      }
    }
    NothingDeclared(ns, attributes);
  }

  lemma RootNamespaces(t: Table)
    ensures Within(NO_NAMESPACES, ToXml(t)) == PrintedNamespaces(t)
    ensures ElementNamespace(PrintedNamespaces(t), ToXml(t)) == NamespaceUri(t.fdtNamespace)
    ensures Matches(PrintedNamespaces(t), FDT_INSTANCE, FDT_INSTANCE, NamespaceUri(t.fdtNamespace))
  {
    var d, f := DefaultNamespace(t), Attributes(RootFields(t));
    var n1 := Namespaces(NamespaceUri(t.fdtNamespace), map[]);
    DeclareConcat(NO_NAMESPACES, d + f, PrefixDeclarations());
    DeclareConcat(NO_NAMESPACES, d, f);
    assert d != [] ==> d[1..] == [];
    assert DeclareAll(NO_NAMESPACES, d) == n1;
    FieldsDeclareNothing(n1, RootFields(t));
    PrefixesDeclared(n1);
    NoColon(FDT_INSTANCE);
  }

  lemma PrefixesDeclared(ns: Namespaces)
    requires ns.prefixes == map[]
    ensures DeclareAll(ns, PrefixDeclarations())
        == ns.(prefixes := map[MBMS2007 := MBMS2007_NS, MBMS2012 := MBMS2012_NS])
  {
    assert MBMS2007 != MBMS2012 by { assert MBMS2007[7] != MBMS2012[7]; }
    DeclarePrefix(ns, MBMS2007, MBMS2007_NS);
    var one := Declare(ns, PrefixDeclarations()[0]);
    DeclarePrefix(one, MBMS2012, MBMS2012_NS);
    assert PrefixDeclarations()[1..] == [PrefixDeclarations()[1]] && PrefixDeclarations()[1..][1..] == [];
    assert Declare(one, PrefixDeclarations()[1]).prefixes == map[MBMS2007 := MBMS2007_NS, MBMS2012 := MBMS2012_NS];
    assert DeclareAll(one, PrefixDeclarations()[1..]) == Declare(one, PrefixDeclarations()[1]);
  }

  lemma FileNamespaces(ns: Namespaces, g: FecOti, e: FileEntry)
    ensures Within(ns, FileElement(g, e)) == ns
    ensures ElementNamespace(ns, FileElement(g, e)) == ns.defaultNs
    ensures Matches(ns, FILE, FILE, ns.defaultNs)
  {
    DeclareConcat(ns, Attributes(FileFields(g, e)), EtagAttribute(e));
    FieldsDeclareNothing(ns, FileFields(g, e));
    if e.etag != "" {
      var name := MBMS2012 + ":" + FILE_ETAG;
      assert name[0] == 'm' && (XMLNS + ":")[0] == 'x' && XMLNS[0] == 'x';
      assert name[..6][0] == 'm';
      assert EtagAttribute(e)[1..] == [];
    }
    NoColon(FILE);
  }

  // ---------------------------------------------------------------------------------------------
  // Reading the printed tree
  // ---------------------------------------------------------------------------------------------

  lemma RootFound(t: Table)
    ensures Found(PrintedNamespaces(t), ToXml(t), NamespaceUri(t.fdtNamespace)) ==
            RootFoundMap(t)
  {
    var ns := PrintedNamespaces(t);
    RootNamespaces(t);
    forall a: AttributeName
      ensures FindAttribute(ns, ToXml(t), NameOf(a), ns.defaultNs) == RootValue(t, a)
    {
      NameIsPlain(a);
      FindInRoot(ns, t, Attributes(RootFields(t)), NameOf(a), ns.defaultNs);
      FindField(ns, RootFields(t), a);
      LookupCollect(ROOT_ORDER, a => RootValue(t, a), a);
    }
  }

  lemma FileFound(ns: Namespaces, g: FecOti, e: FileEntry)
    ensures Found(ns, FileElement(g, e), ns.defaultNs) ==
            FileFoundMap(g, e)
  {
    FileNamespaces(ns, g, e);
    forall a: AttributeName
      ensures FindAttribute(ns, FileElement(g, e), NameOf(a), ns.defaultNs) == FileValue(g, e, a)
    {
      NameIsPlain(a);
      FindInFile(ns, e, Attributes(FileFields(g, e)), NameOf(a), ns.defaultNs);
      FindField(ns, FileFields(g, e), a);
      LookupCollect(FILE_ORDER, a => FileValue(g, e, a), a);
    }
  }

  lemma EtagFound(ns: Namespaces, g: FecOti, e: FileEntry)
    requires KnowsMbms(ns)
    ensures FindAttribute(ns, FileElement(g, e), FILE_ETAG, MBMS2012_NS) == ValueWhen(e.etag != "", e.etag)
  {
    var f, tag := Attributes(FileFields(g, e)), EtagAttribute(e);
    FileNamespaces(ns, g, e);
    FindConcat(ns, f, tag, FILE_ETAG, MBMS2012_NS);
    FindNoField(ns, FileFields(g, e), FILE_ETAG, MBMS2012_NS);
    ColonAfterPrefix(MBMS2012, FILE_ETAG);
    assert tag != [] ==> tag[1..] == [];
  }

  /** The prefix the cache elements use is declared. */
  ghost predicate KnowsMbms(ns: Namespaces) {
    && MBMS2007 in ns.prefixes && ns.prefixes[MBMS2007] == MBMS2007_NS
    && MBMS2012 in ns.prefixes && ns.prefixes[MBMS2012] == MBMS2012_NS
  }

  lemma PrefixedMatches(ns: Namespaces, name: string, other: string)
    requires KnowsMbms(ns)
    ensures Matches(ns, Prefixed(name), other, MBMS2007_NS) <==> name == other
  {
    assert ':' !in MBMS2007;
    ColonAfterPrefix(MBMS2007, name);
  }

  lemma OnlyChild(ns: Namespaces, parent: Element, child: Element, name: string, other: string)
    requires KnowsMbms(ns) && parent.children == [child] && child.name == Prefixed(name) && child.attributes == []
    ensures FindChild(ns, parent, other, MBMS2007_NS) == if name == other then Some(child) else None
  {
    PrefixedMatches(ns, name, other);
    assert Within(ns, child) == ns;
    assert FindChildren(ns, parent.children[1..], other, MBMS2007_NS) == [];
    assert FindChildren(ns, parent.children, other, MBMS2007_NS) == if name == other then [child] + [] else [] + [];
  }

  lemma CacheControlRead(ns: Namespaces, g: FecOti, e: FileEntry)
    requires KnowsMbms(ns)
    ensures ReadCacheControl(ns, FileElement(g, e)) ==
            (e.noCache, if !e.noCache && e.cacheExpires.Some? then Some(e.expires) else None)
  {
    var file := FileElement(g, e);
    if e.noCache || e.cacheExpires.Some? {
      var cc := file.children[0];
      var name := if e.noCache then NO_CACHE else CACHE_EXPIRES;
      assert NO_CACHE != CACHE_EXPIRES by { assert |NO_CACHE| != |CACHE_EXPIRES|; }
      OnlyChild(ns, file, cc, CACHE_CONTROL, CACHE_CONTROL);
      assert Within(ns, cc) == ns;
      OnlyChild(ns, cc, CacheChild(e), name, NO_CACHE);
      OnlyChild(ns, cc, CacheChild(e), name, CACHE_EXPIRES);
      DecimalRoundTrip(e.expires);
    }
  }

  lemma NumberFound(found: map<AttributeName, string>, a: AttributeName, n: U64, default: U32)
    requires a in found ==> found[a] == Decimal(n)
    ensures NumberOr(found, a, default) == if a in found then n % 0x1_0000_0000 else default
    ensures a in found && n < 0x1_0000_0000 ==> NumberOr(found, a, default) == n
  {
    DecimalRoundTrip(n);
  }

  ghost function FileFoundMap(g: FecOti, e: FileEntry): map<AttributeName, string> {
    map a: AttributeName | FileValue(g, e, a).Some? :: FileValue(g, e, a).value
  }

  lemma FecIdsRead(g: FecOti, e: FileEntry)
    ensures NumberOr(FileFoundMap(g, e), FEC_ENCODING_ID, g.encodingId) == e.fecOti.encodingId
    ensures NumberOr(FileFoundMap(g, e), FEC_INSTANCE_ID, g.instanceId) == OrDefault(e.fecOti.instanceId, g.instanceId)
  {
    NumberFound(FileFoundMap(g, e), FEC_ENCODING_ID, e.fecOti.encodingId, g.encodingId);
    NumberFound(FileFoundMap(g, e), FEC_INSTANCE_ID, e.fecOti.instanceId, g.instanceId);
  }

  lemma FecLengthsRead(g: FecOti, e: FileEntry)
    ensures NumberOr(FileFoundMap(g, e), ENCODING_SYMBOL_LENGTH, g.encodingSymbolLength) ==
            OrDefault(e.fecOti.encodingSymbolLength, g.encodingSymbolLength)
    ensures NumberOr(FileFoundMap(g, e), MAX_SOURCE_BLOCK_LENGTH, g.maxSourceBlockLength) ==
            OrDefault(e.fecOti.maxSourceBlockLength, g.maxSourceBlockLength)
  {
    NumberFound(FileFoundMap(g, e), ENCODING_SYMBOL_LENGTH, e.fecOti.encodingSymbolLength, g.encodingSymbolLength);
    NumberFound(FileFoundMap(g, e), MAX_SOURCE_BLOCK_LENGTH, e.fecOti.maxSourceBlockLength, g.maxSourceBlockLength);
  }

  lemma LengthsRead(g: FecOti, e: FileEntry)
    ensures NumberOr(FileFoundMap(g, e), CONTENT_LENGTH, 0) == e.contentLength
    ensures NumberOr(FileFoundMap(g, e), TRANSFER_LENGTH, e.contentLength) == Normal(g, e).fecOti.transferLength
    ensures NumberOr(FileFoundMap(g, e), MAX_ENCODING_SYMBOLS, 0) == 0
  {
    NumberFound(FileFoundMap(g, e), CONTENT_LENGTH, e.contentLength, 0);
    NumberFound(FileFoundMap(g, e), TRANSFER_LENGTH, e.fecOti.transferLength, e.contentLength);
  }

  lemma OtiRead(g: FecOti, e: FileEntry)
    ensures ReadOti(NormalGlobal(g), FileFoundMap(g, e)) == Normal(g, e).fecOti
  {
    FecIdsRead(g, e);
    FecLengthsRead(g, e);
    LengthsRead(g, e);
  }

  lemma EntryRead(g: FecOti, e: FileEntry)
    ensures ReadEntry(NormalGlobal(g), FileFoundMap(g, e), ValueWhen(e.etag != "", e.etag), e.noCache,
                      Normal(g, e).cacheExpires) == Ok(Normal(g, e))
  {
    hide ReadOti, Decimal, Strtoul;
    OtiRead(g, e);
    LengthsRead(g, e);
    NumberFound(FileFoundMap(g, e), TOI, e.toi, 0);
  }

  lemma FileRoundTrip(ns: Namespaces, g: FecOti, e: FileEntry)
    requires KnowsMbms(ns)
    ensures ReadFile(ns, NormalGlobal(g), ns.defaultNs, FileElement(g, e)) == Ok(Normal(g, e))
  {
    FileNamespaces(ns, g, e);
    FileFound(ns, g, e);
    EtagFound(ns, g, e);
    CacheControlRead(ns, g, e);
    EntryRead(g, e);
  }

  lemma {:induction false} FilesAreFound(ns: Namespaces, g: FecOti, entries: seq<FileEntry>)
    ensures FindChildren(ns, FileElements(g, entries), FILE, ns.defaultNs) == FileElements(g, entries)
  {
    if entries != [] {
      var files := FileElements(g, entries);
      assert files[1..] == FileElements(g, entries[1..]);
      FilesAreFound(ns, g, entries[1..]);
      FileNamespaces(ns, g, entries[0]);
      assert files == [files[0]] + files[1..];
    }
  }

  lemma {:induction false} AllRead(read: Element -> Result<FileEntry>, files: seq<Element>, entries: seq<FileEntry>)
    requires |files| == |entries| && forall i :: 0 <= i < |files| ==> read(files[i]) == Ok(entries[i])
    ensures ReadAll(read, files) == Ok(entries)
  {
    if files != [] {
      AllRead(read, files[1..], entries[1..]);
      assert entries == [entries[0]] + entries[1..];
    }
  }

  lemma FilesRoundTrip(ns: Namespaces, g: FecOti, entries: seq<FileEntry>)
    requires KnowsMbms(ns)
    ensures ReadFiles(ns, NormalGlobal(g), ns.defaultNs, FileElements(g, entries)) == Ok(NormalAll(g, entries))
  {
    var read := file => ReadFile(ns, NormalGlobal(g), ns.defaultNs, file);
    forall i | 0 <= i < |entries|
      ensures read(FileElements(g, entries)[i]) == Ok(NormalAll(g, entries)[i])
    {
      FileRoundTrip(ns, g, entries[i]);
    }
    AllRead(read, FileElements(g, entries), NormalAll(g, entries));
  }

  ghost function RootFoundMap(t: Table): map<AttributeName, string> {
    map a: AttributeName | RootValue(t, a).Some? :: RootValue(t, a).value
  }

  lemma GlobalRead(t: Table)
    ensures ReadGlobalOti(RootFoundMap(t)) == NormalGlobal(t.globalOti)
  {
    hide Decimal;
    var found, g := RootFoundMap(t), t.globalOti;
    NumberFound(found, FEC_ENCODING_ID, g.encodingId, 0);
    NumberFound(found, FEC_INSTANCE_ID, g.instanceId, 0);
    NumberFound(found, ENCODING_SYMBOL_LENGTH, g.encodingSymbolLength, 0);
    NumberFound(found, MAX_SOURCE_BLOCK_LENGTH, g.maxSourceBlockLength, 0);
    assert MAX_ENCODING_SYMBOLS !in found;
  }

  lemma NamespaceRecognised(ns: FdtNamespace)
    ensures RecognisedNamespace(NamespaceUri(ns)) == Ok(ns)
  {
    assert |NamespaceUri(NS_NONE)| == 0 && |NamespaceUri(NS_RFC3926)| == 28;
    assert |NamespaceUri(NS_DRAFT_2005)| == 32 && |NamespaceUri(NS_3GPP_CONSOLIDATED_V2)| == 32;
    assert NamespaceUri(NS_DRAFT_2005)[4] != NamespaceUri(NS_3GPP_CONSOLIDATED_V2)[4];
  }

  /** Parsing the printed form of any table gives its normal form, entry by entry in the same order. */
  lemma TableRoundTrip(instanceId: U32, t: Table)
    ensures ReadTable(instanceId, ToXml(t)) == Ok(NormalTable(instanceId, t))
  {
    hide Found, ReadGlobalOti, ReadFiles, FindChildren, Matches, Within, ElementNamespace, RecognisedNamespace, Decimal,
         Stoull, NormalAll, NormalGlobal, FileElements, NamespaceUri;
    RootNamespaces(t);
    NamespaceRecognised(t.fdtNamespace);
    RootFound(t);
    DecimalRoundTrip(t.expires);
    GlobalRead(t);
    FilesAreFound(PrintedNamespaces(t), t.globalOti, t.entries);
    FilesRoundTrip(PrintedNamespaces(t), t.globalOti, t.entries);
  }

  /** With its FEC values set and a length of 1 to 2^32 - 1 bytes, an entry is cut the same by its reader. */
  lemma EntryKeepsItsCut(g: FecOti, e: FileEntry)
    requires e.fecOti.encodingSymbolLength > 0 && e.fecOti.maxSourceBlockLength > 0
    ensures var n := Normal(g, e).fecOti;
      && n.encodingSymbolLength == e.fecOti.encodingSymbolLength
      && n.maxSourceBlockLength == e.fecOti.maxSourceBlockLength
      && (0 < e.fecOti.transferLength < 0x1_0000_0000 ==> n.transferLength == e.fecOti.transferLength)
      && (e.fecOti.transferLength >= 0x1_0000_0000 ==> n.transferLength != e.fecOti.transferLength)
  {
  }
}
