/** File Delivery Tables as XML: `to_string` and the parsing constructor of src/FileDeliveryTable.cpp. */
module FdtXml {
  import opened Bytes
  import opened Flute
  import opened Numerals
  import opened Xml

  datatype FdtNamespace = NS_NONE | NS_RFC3926 | NS_DRAFT_2005 | NS_3GPP_CONSOLIDATED_V2

  datatype Table = Table(
    instanceId: U32,
    instanceIdSent: U32,
    entries: seq<FileEntry>,
    globalOti: FecOti,
    expires: U64,
    fdtNamespace: FdtNamespace)

  function NamespaceUri(ns: FdtNamespace): string {
    match ns
    case NS_NONE => ""
    case NS_RFC3926 => "http://www.example.com/flute"
    case NS_DRAFT_2005 => "urn:IETF:metadata:2005:FLUTE:FDT"
    case NS_3GPP_CONSOLIDATED_V2 => "urn:3GPP:metadata:2022:FLUTE:FDT"
  }

  function RecognisedNamespace(uri: string): Result<FdtNamespace> {
    if uri == NamespaceUri(NS_NONE) then Ok(NS_NONE)
    else if uri == NamespaceUri(NS_RFC3926) then Ok(NS_RFC3926)
    else if uri == NamespaceUri(NS_DRAFT_2005) then Ok(NS_DRAFT_2005)
    else if uri == NamespaceUri(NS_3GPP_CONSOLIDATED_V2) then Ok(NS_3GPP_CONSOLIDATED_V2)
    else Err("FDT namespace not recognised")
  }

  const MBMS2007 := "mbms2007"
  const MBMS2012 := "mbms2012"
  const MBMS2007_NS := "urn:3GPP:metadata:2007:MBMS:FLUTE:FDT"
  const MBMS2012_NS := "urn:3GPP:metadata:2012:MBMS:FLUTE:FDT"

  // ---------------------------------------------------------------------------------------------
  // Attribute names
  // ---------------------------------------------------------------------------------------------

  datatype AttributeName =
    | EXPIRES | TOI | CONTENT_LOCATION | CONTENT_LENGTH | TRANSFER_LENGTH
    | CONTENT_MD5 | CONTENT_ENCODING | CONTENT_TYPE
    | FEC_ENCODING_ID | FEC_INSTANCE_ID | MAX_SOURCE_BLOCK_LENGTH | ENCODING_SYMBOL_LENGTH | MAX_ENCODING_SYMBOLS

  function NameOf(a: AttributeName): string {
    match a
    case EXPIRES => "Expires"
    case TOI => "TOI"
    case CONTENT_LOCATION => "Content-Location"
    case CONTENT_LENGTH => "Content-Length"
    case TRANSFER_LENGTH => "Transfer-Length"
    case CONTENT_MD5 => "Content-MD5"
    case CONTENT_ENCODING => "Content-Encoding"
    case CONTENT_TYPE => "Content-Type"
    case FEC_ENCODING_ID => "FEC-OTI-FEC-Encoding-ID"
    case FEC_INSTANCE_ID => "FEC-OTI-FEC-Instance-ID"
    case MAX_SOURCE_BLOCK_LENGTH => "FEC-OTI-Maximum-Source-Block-Length"
    case ENCODING_SYMBOL_LENGTH => "FEC-OTI-Encoding-Symbol-Length"
    case MAX_ENCODING_SYMBOLS => "FEC-OTI-Max-Number-of-Encoding-Symbols"
  }

  lemma NamesDiffer(a: AttributeName, b: AttributeName)
    ensures NameOf(a) == NameOf(b) ==> a == b
  {
    if NameOf(a) == NameOf(b) {
      assert |NameOf(a)| == |NameOf(b)|;
      if |NameOf(a)| == 16 {
        assert NameOf(a)[8] == NameOf(b)[8];
      } else if |NameOf(a)| == 23 {
        assert NameOf(a)[12] == NameOf(b)[12];
      }
    }
  }

  /** No name is prefixed, and none is as long as a name that is looked up otherwise. */
  lemma NameIsPlain(a: AttributeName)
    ensures ':' !in NameOf(a) && |NameOf(a)| !in {|XMLNS|, |MBMS2007|, |MBMS2012|, |FILE_ETAG|}
  {
    hide NameOf;
    NameHasOwnLength(a);
    if IsFecName(a) {
      FecNameIsPlain(a);
    } else {
      OtherNameIsPlain(a);
    }
  }

  predicate IsFecName(a: AttributeName) {
    a.FEC_ENCODING_ID? || a.FEC_INSTANCE_ID? || a.MAX_SOURCE_BLOCK_LENGTH? || a.ENCODING_SYMBOL_LENGTH?
    || a.MAX_ENCODING_SYMBOLS?
  }

  lemma FecNameIsPlain(a: AttributeName)
    requires IsFecName(a)
    ensures ':' !in NameOf(a)
  {
  }

  lemma OtherNameIsPlain(a: AttributeName)
    requires !IsFecName(a)
    ensures ':' !in NameOf(a)
  {
  }

  lemma NameHasOwnLength(a: AttributeName)
    ensures |NameOf(a)| !in {|XMLNS|, |MBMS2007|, |MBMS2012|, |FILE_ETAG|}
  {
  }

  datatype Field = Field(name: AttributeName, value: string)

  function Attributes(fields: seq<Field>): (r: seq<Attribute>)
    ensures |r| == |fields|
  {
    seq(|fields|, i requires 0 <= i < |fields| => Attribute(NameOf(fields[i].name), fields[i].value))
  }

  function Lookup(fields: seq<Field>, a: AttributeName): Option<string> {
    if fields == [] then None
    else if fields[0].name == a then Some(fields[0].value)
    else Lookup(fields[1..], a)
  }

  /** The attributes an element is given, in this order, where there is a value for them. */
  function Collect(order: seq<AttributeName>, value: AttributeName -> Option<string>): seq<Field> {
    if order == [] then []
    else
      match value(order[0])
      case None => Collect(order[1..], value)
      case Some(v) => [Field(order[0], v)] + Collect(order[1..], value)
  }

  function ValueWhen(condition: bool, value: string): Option<string> {
    if condition then Some(value) else None
  }

  // ---------------------------------------------------------------------------------------------
  // Printing
  // ---------------------------------------------------------------------------------------------

  const ROOT_ORDER := [EXPIRES, FEC_ENCODING_ID, FEC_INSTANCE_ID, MAX_SOURCE_BLOCK_LENGTH, ENCODING_SYMBOL_LENGTH]

  function RootValue(t: Table, a: AttributeName): Option<string> {
    match a
    case EXPIRES => Some(Decimal(t.expires))
    case FEC_ENCODING_ID => Some(Decimal(t.globalOti.encodingId))
    case FEC_INSTANCE_ID => ValueWhen(t.globalOti.instanceId != 0, Decimal(t.globalOti.instanceId))
    case MAX_SOURCE_BLOCK_LENGTH => Some(Decimal(t.globalOti.maxSourceBlockLength))
    case ENCODING_SYMBOL_LENGTH => Some(Decimal(t.globalOti.encodingSymbolLength))
    case _ => None
  }

  function RootFields(t: Table): seq<Field> {
    Collect(ROOT_ORDER, a => RootValue(t, a))
  }

  function DefaultNamespace(t: Table): seq<Attribute> {
    if t.fdtNamespace == NS_NONE then [] else [Attribute(XMLNS, NamespaceUri(t.fdtNamespace))]
  }

  function PrefixDeclarations(): seq<Attribute> {
    [Attribute(XMLNS + ":" + MBMS2007, MBMS2007_NS), Attribute(XMLNS + ":" + MBMS2012, MBMS2012_NS)]
  }

  const FILE_ORDER := [
    TOI, CONTENT_LOCATION, CONTENT_LENGTH, TRANSFER_LENGTH, CONTENT_MD5, CONTENT_ENCODING, CONTENT_TYPE,
    FEC_ENCODING_ID, FEC_INSTANCE_ID, MAX_SOURCE_BLOCK_LENGTH, ENCODING_SYMBOL_LENGTH]

  /** The entry's own values, and its FEC values where they are set and differ from the table's. */
  function FileValue(g: FecOti, e: FileEntry, a: AttributeName): Option<string> {
    var oti := e.fecOti;
    match a
    case TOI => Some(Decimal(e.toi))
    case CONTENT_LOCATION => Some(e.contentLocation)
    case CONTENT_LENGTH => Some(Decimal(e.contentLength))
    case TRANSFER_LENGTH => ValueWhen(oti.transferLength != 0, Decimal(oti.transferLength))
    case CONTENT_MD5 => ValueWhen(e.contentMd5 != "", e.contentMd5)
    case CONTENT_ENCODING => ValueWhen(e.contentEncoding != "", e.contentEncoding)
    case CONTENT_TYPE => ValueWhen(e.contentType != "", e.contentType)
    case FEC_ENCODING_ID => ValueWhen(oti.encodingId != g.encodingId, Decimal(oti.encodingId))
    case FEC_INSTANCE_ID => ValueWhen(oti.instanceId != 0 && oti.instanceId != g.instanceId, Decimal(oti.instanceId))
    case MAX_SOURCE_BLOCK_LENGTH =>
      ValueWhen(oti.maxSourceBlockLength != 0 && oti.maxSourceBlockLength != g.maxSourceBlockLength,
                Decimal(oti.maxSourceBlockLength))
    case ENCODING_SYMBOL_LENGTH =>
      ValueWhen(oti.encodingSymbolLength != 0 && oti.encodingSymbolLength != g.encodingSymbolLength,
                Decimal(oti.encodingSymbolLength))
    case _ => None
  }

  function FileFields(g: FecOti, e: FileEntry): seq<Field> {
    Collect(FILE_ORDER, a => FileValue(g, e, a))
  }

  const FILE_ETAG := "File-ETag"

  function EtagAttribute(e: FileEntry): seq<Attribute> {
    if e.etag == "" then [] else [Attribute(MBMS2012 + ":" + FILE_ETAG, e.etag)]
  }

  const CACHE_CONTROL := "Cache-Control"
  const NO_CACHE := "no-cache"
  const CACHE_EXPIRES := "Expires"

  function Prefixed(name: string): string {
    MBMS2007 + ":" + name
  }

  function CacheChild(e: FileEntry): Element {
    if e.noCache then Element(Prefixed(NO_CACHE), [], [], "true")
    else Element(Prefixed(CACHE_EXPIRES), [], [], Decimal(e.expires))
  }

  function CacheControl(e: FileEntry): seq<Element> {
    if e.noCache || e.cacheExpires.Some? then [Element(Prefixed(CACHE_CONTROL), [], [CacheChild(e)], "")] else []
  }

  const FILE := "File"
  const FDT_INSTANCE := "FDT-Instance"

  function FileElement(g: FecOti, e: FileEntry): Element {
    Element(FILE, Attributes(FileFields(g, e)) + EtagAttribute(e), CacheControl(e), "")
  }

  function FileElements(g: FecOti, entries: seq<FileEntry>): (r: seq<Element>)
    ensures |r| == |entries|
  {
    seq(|entries|, i requires 0 <= i < |entries| => FileElement(g, entries[i]))
  }

  /** `to_string`, up to the element tree it hands to the XML printer. */
  function ToXml(t: Table): Element {
    RootElement(t, FileElements(t.globalOti, t.entries))
  }

  function RootElement(t: Table, files: seq<Element>): Element {
    Element(FDT_INSTANCE, DefaultNamespace(t) + Attributes(RootFields(t)) + PrefixDeclarations(), files, "")
  }

  // ---------------------------------------------------------------------------------------------
  // Parsing
  // ---------------------------------------------------------------------------------------------

  /** `strtoul` into a 32-bit field. */
  function Read32Bit(s: string): U32 {
    Strtoul(s) % 0x1_0000_0000
  }

  /** What an element has under the attribute names of a namespace. */
  function Found(ns: Namespaces, e: Element, wanted: string): map<AttributeName, string> {
    map a: AttributeName | FindAttribute(ns, e, NameOf(a), wanted).Some? ::
        FindAttribute(ns, e, NameOf(a), wanted).value
  }

  function NumberOr(found: map<AttributeName, string>, a: AttributeName, default: U32): U32 {
    if a in found then Read32Bit(found[a]) else default
  }

  function TextOr(found: map<AttributeName, string>, a: AttributeName): string {
    if a in found then found[a] else ""
  }

  function ReadGlobalOti(found: map<AttributeName, string>): FecOti {
    FecOti(NumberOr(found, FEC_ENCODING_ID, 0), NumberOr(found, FEC_INSTANCE_ID, 0), 0,
           NumberOr(found, ENCODING_SYMBOL_LENGTH, 0), NumberOr(found, MAX_SOURCE_BLOCK_LENGTH, 0),
           NumberOr(found, MAX_ENCODING_SYMBOLS, 0))
  }

  /** The Cache-Control child: whether caching is off, and until when it is allowed. */
  function ReadCacheControl(ns: Namespaces, file: Element): (bool, Option<U64>) {
    match FindChild(ns, file, CACHE_CONTROL, MBMS2007_NS)
    case None => (false, None)
    case Some(cc) =>
      var expires := FindChild(Within(ns, cc), cc, CACHE_EXPIRES, MBMS2007_NS);
      (FindChild(Within(ns, cc), cc, NO_CACHE, MBMS2007_NS).Some?,
       if expires.Some? then Some(Strtoul(expires.value.text)) else None)
  }

  /** A file's FEC values: its own, or the table's, or its content length. */
  function ReadOti(g: FecOti, found: map<AttributeName, string>): FecOti {
    FecOti(
      NumberOr(found, FEC_ENCODING_ID, g.encodingId),
      NumberOr(found, FEC_INSTANCE_ID, g.instanceId),
      NumberOr(found, TRANSFER_LENGTH, NumberOr(found, CONTENT_LENGTH, 0)),
      NumberOr(found, ENCODING_SYMBOL_LENGTH, g.encodingSymbolLength),
      NumberOr(found, MAX_SOURCE_BLOCK_LENGTH, g.maxSourceBlockLength),
      NumberOr(found, MAX_ENCODING_SYMBOLS, g.maxNumberOfEncodingSymbols))
  }

  function ReadEntry(
    g: FecOti, found: map<AttributeName, string>, etag: Option<string>, noCache: bool, cacheExpires: Option<U64>)
    : Result<FileEntry>
  {
    if TOI !in found then Err("Missing TOI attribute on File element")
    else if CONTENT_LOCATION !in found then Err("Missing Content-Location attribute on File element")
    else
      Ok(FileEntry(
        Read32Bit(found[TOI]),
        found[CONTENT_LOCATION],
        NumberOr(found, CONTENT_LENGTH, 0),
        TextOr(found, CONTENT_MD5),
        TextOr(found, CONTENT_TYPE),
        if cacheExpires.Some? then cacheExpires.value else 0,
        ReadOti(g, found),
        noCache,
        cacheExpires,
        TextOr(found, CONTENT_ENCODING),
        if etag.Some? then etag.value else ""))
  }

  function ReadFile(rootNs: Namespaces, g: FecOti, wanted: string, file: Element): Result<FileEntry> {
    var ns := Within(rootNs, file);
    var (noCache, cacheExpires) := ReadCacheControl(ns, file);
    ReadEntry(g, Found(ns, file, wanted), FindAttribute(ns, file, FILE_ETAG, MBMS2012_NS), noCache, cacheExpires)
  }

  /** Reads one element after the other until one fails. */
  function ReadAll(read: Element -> Result<FileEntry>, files: seq<Element>): Result<seq<FileEntry>> {
    if files == [] then Ok([])
    else
      var first := read(files[0]);
      if first.Err? then Err(first.what)
      else
        var rest := ReadAll(read, files[1..]);
        if rest.Err? then rest else Ok([first.value] + rest.value)
  }

  function ReadFiles(rootNs: Namespaces, g: FecOti, wanted: string, files: seq<Element>): Result<seq<FileEntry>> {
    ReadAll(file => ReadFile(rootNs, g, wanted, file), files)
  }

  function Previous(id: U32): U32 {
    if id == 0 then 0xFFFF_FFFF else id - 1
  }

  /** The parsing constructor; a table without Expires is undefined in the source. */
  function ReadTable(instanceId: U32, root: Element): Result<Table> {
    var ns := Within(NO_NAMESPACES, root);
    var wanted := ElementNamespace(ns, root);
    if !Matches(ns, root.name, FDT_INSTANCE, wanted) then Err("Root element is not FDT-Instance")
    else
      var fdtNamespace := RecognisedNamespace(wanted);
      var found := Found(ns, root, wanted);
      if fdtNamespace.Err? then Err(fdtNamespace.what)
      else if EXPIRES !in found then Err("undefined")
      else if Stoull(found[EXPIRES]).Err? then Err(Stoull(found[EXPIRES]).what)
      else
        var g := ReadGlobalOti(found);
        var entries := ReadFiles(ns, g, wanted, FindChildren(ns, root.children, FILE, wanted));
        if entries.Err? then Err(entries.what)
        else
          Ok(Table(instanceId, Previous(instanceId), entries.value, g, Stoull(found[EXPIRES]).value,
                   fdtNamespace.value))
  }
}
