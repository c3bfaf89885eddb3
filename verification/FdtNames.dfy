/** The names of the printed FDT, spelt out (src/FileDeliveryTable.cpp:360-433; section 3.4.2 of RFC 3926). */
module FdtNames {
  import opened Bytes
  import opened Flute
  import opened Numerals
  import opened Xml
  import opened FdtXml
  import opened FdtRoundTrip

  /** The value of the first attribute with exactly this name. */
  ghost function ValueIn(attributes: seq<Attribute>, name: string): Option<string>
    decreases |attributes|
  {
    if attributes == [] then None
    else if attributes[0].name == name then Some(attributes[0].value)
    else ValueIn(attributes[1..], name)
  }

  ghost function Value(e: Element, name: string): Option<string> {
    ValueIn(e.attributes, name)
  }

  /** No two attributes have one name. */
  ghost predicate NamesDistinct(e: Element) {
    forall i, j :: 0 <= i < j < |e.attributes| ==> e.attributes[i].name != e.attributes[j].name
  }

  // ---------------------------------------------------------------------------------------------
  // Looking up printed attributes
  // ---------------------------------------------------------------------------------------------

  lemma {:induction false} ValueConcat(a: seq<Attribute>, b: seq<Attribute>, name: string)
    ensures ValueIn(a + b, name) == if ValueIn(a, name).Some? then ValueIn(a, name) else ValueIn(b, name)
    decreases |a|
  {
    if a == [] {
      assert a + b == b;
    } else {
      assert (a + b)[1..] == a[1..] + b;
      ValueConcat(a[1..], b, name);
    }
  }

  lemma {:induction false} ValueOfField(fields: seq<Field>, a: AttributeName)
    ensures ValueIn(Attributes(fields), NameOf(a)) == Lookup(fields, a)
    decreases |fields|
  {
    hide NameOf;
    if fields != [] {
      assert Attributes(fields)[1..] == Attributes(fields[1..]);
      ValueOfField(fields[1..], a);
      NamesDiffer(fields[0].name, a);
    }
  }

  /** A name that is no field's is found under none. */
  lemma {:induction false} NotAField(fields: seq<Field>, name: string)
    requires ':' in name || |name| == |XMLNS|
    ensures ValueIn(Attributes(fields), name) == None
    decreases |fields|
  {
    hide NameOf;
    if fields != [] {
      assert Attributes(fields)[1..] == Attributes(fields[1..]);
      NotAField(fields[1..], name);
      NameIsPlain(fields[0].name);
    }
  }

  lemma ValueOne(a: Attribute, name: string)
    ensures ValueIn([a], name) == if a.name == name then Some(a.value) else None
  {
    assert [a][1..] == [];
  }

  /** The attributes of the root under the names of its fields. */
  lemma RootField(t: Table, a: AttributeName)
    ensures Value(ToXml(t), NameOf(a)) == RootValue(t, a)
  {
    hide NameOf, RootValue, FileElements;
    var d, f, p := DefaultNamespace(t), Attributes(RootFields(t)), PrefixDeclarations();
    NameIsPlain(a);
    ValueConcat(d + f, p, NameOf(a));
    ValueConcat(d, f, NameOf(a));
    ValueOfField(RootFields(t), a);
    LookupCollect(ROOT_ORDER, a => RootValue(t, a), a);
    RootOrderIsComplete(t, a);
    PrefixesAreNoFields(a);
    if d != [] {
      ValueOne(d[0], NameOf(a));
    }
  }

  lemma RootOrderIsComplete(t: Table, a: AttributeName)
    ensures a !in ROOT_ORDER ==> RootValue(t, a) == None
  {
  }

  lemma PrefixesAreNoFields(a: AttributeName)
    ensures ValueIn(PrefixDeclarations(), NameOf(a)) == None
  {
    hide NameOf;
    NameIsPlain(a);
    var p := PrefixDeclarations();
    assert p == [p[0]] + [p[1]];
    assert ':' in p[0].name && ':' in p[1].name by {
      assert p[0].name[5] == ':' && p[1].name[5] == ':';
    }
    ValueConcat([p[0]], [p[1]], NameOf(a));
    ValueOne(p[0], NameOf(a));
    ValueOne(p[1], NameOf(a));
  }

  /** The attributes of a file under the names of its fields. */
  lemma FileField(g: FecOti, e: FileEntry, a: AttributeName)
    ensures Value(FileElement(g, e), NameOf(a)) == FileValue(g, e, a)
  {
    hide NameOf, FileValue;
    var f, tag := Attributes(FileFields(g, e)), EtagAttribute(e);
    NameIsPlain(a);
    ValueConcat(f, tag, NameOf(a));
    ValueOfField(FileFields(g, e), a);
    LookupCollect(FILE_ORDER, a => FileValue(g, e, a), a);
    FileOrderIsComplete(g, e, a);
    if tag != [] {
      ValueOne(tag[0], NameOf(a));
      assert tag[0].name[8] == ':';
    }
  }

  lemma FileOrderIsComplete(g: FecOti, e: FileEntry, a: AttributeName)
    ensures a !in FILE_ORDER ==> FileValue(g, e, a) == None
  {
  }

  // ---------------------------------------------------------------------------------------------
  // The root
  // ---------------------------------------------------------------------------------------------

  /** The URI of each namespace; without one nothing is declared. */
  lemma NamespacePrinted(t: Table)
    ensures Value(ToXml(t), "xmlns") ==
            match t.fdtNamespace
            case NS_NONE => None
            case NS_RFC3926 => Some("http://www.example.com/flute")
            case NS_DRAFT_2005 => Some("urn:IETF:metadata:2005:FLUTE:FDT")
            case NS_3GPP_CONSOLIDATED_V2 => Some("urn:3GPP:metadata:2022:FLUTE:FDT")
  {
    hide FileElements, RootFields;
    var d, f, p := DefaultNamespace(t), Attributes(RootFields(t)), PrefixDeclarations();
    ValueConcat(d + f, p, "xmlns");
    ValueConcat(d, f, "xmlns");
    NotAField(RootFields(t), "xmlns");
    assert p == [p[0]] + [p[1]];
    ValueConcat([p[0]], [p[1]], "xmlns");
    ValueOne(p[0], "xmlns");
    ValueOne(p[1], "xmlns");
    if d != [] {
      ValueOne(d[0], "xmlns");
    }
  }

  /** The prefixes of clause 7.2.10.2 of 3GPP TS 26.346 are declared. */
  lemma PrefixesPrinted(t: Table)
    ensures Value(ToXml(t), "xmlns:mbms2007") == Some("urn:3GPP:metadata:2007:MBMS:FLUTE:FDT")
    ensures Value(ToXml(t), "xmlns:mbms2012") == Some("urn:3GPP:metadata:2012:MBMS:FLUTE:FDT")
  {
    hide FileElements, RootFields, NamespaceUri;
    var d, f, p := DefaultNamespace(t), Attributes(RootFields(t)), PrefixDeclarations();
    var first, second := "xmlns:mbms2007", "xmlns:mbms2012";
    assert p == [p[0]] + [p[1]];
    assert p[0].name == first && p[1].name == second;
    assert first[13] != second[13] && first[5] == ':' && second[5] == ':';
    forall name | name in {first, second}
      ensures Value(ToXml(t), name) == ValueIn(p, name)
    {
      ValueConcat(d + f, p, name);
      ValueConcat(d, f, name);
      NotAField(RootFields(t), name);
      if d != [] {
        ValueOne(d[0], name);
      }
    }
    ValueConcat([p[0]], [p[1]], first);
    ValueConcat([p[0]], [p[1]], second);
    ValueOne(p[0], first);
    ValueOne(p[0], second);
    ValueOne(p[1], second);
  }

  /** `to_string` under its own names: the root, when it expires, and one child for each entry. */
  lemma RootPrinted(t: Table)
    ensures var root := ToXml(t);
      && root.name == "FDT-Instance" && root.text == "" && |root.children| == |t.entries|
      && Value(root, "Expires") == Some(Decimal(t.expires))
  {
    hide Decimal, FileElement, Value, RootFields;
    RootField(t, EXPIRES);
  }

  lemma FecNames()
    ensures NameOf(FEC_ENCODING_ID) == "FEC-OTI-FEC-Encoding-ID"
    ensures NameOf(FEC_INSTANCE_ID) == "FEC-OTI-FEC-Instance-ID"
    ensures NameOf(MAX_SOURCE_BLOCK_LENGTH) == "FEC-OTI-Maximum-Source-Block-Length"
    ensures NameOf(ENCODING_SYMBOL_LENGTH) == "FEC-OTI-Encoding-Symbol-Length"
    ensures NameOf(MAX_ENCODING_SYMBOLS) == "FEC-OTI-Max-Number-of-Encoding-Symbols"
  {
  }

  /** The FEC values of the table; an instance ID of 0 is left out. */
  lemma RootOtiPrinted(t: Table)
    ensures var root, g := ToXml(t), t.globalOti;
      && Value(root, "FEC-OTI-FEC-Encoding-ID") == Some(Decimal(g.encodingId))
      && Value(root, "FEC-OTI-FEC-Instance-ID") == (if g.instanceId == 0 then None else Some(Decimal(g.instanceId)))
      && Value(root, "FEC-OTI-Maximum-Source-Block-Length") == Some(Decimal(g.maxSourceBlockLength))
      && Value(root, "FEC-OTI-Encoding-Symbol-Length") == Some(Decimal(g.encodingSymbolLength))
      && Value(root, "FEC-OTI-Max-Number-of-Encoding-Symbols") == None
  {
    hide Decimal, ToXml, Value, NameOf;
    FecNames();
    RootField(t, FEC_ENCODING_ID);
    RootField(t, FEC_INSTANCE_ID);
    RootField(t, MAX_SOURCE_BLOCK_LENGTH);
    RootField(t, ENCODING_SYMBOL_LENGTH);
    RootField(t, MAX_ENCODING_SYMBOLS);
  }

  // ---------------------------------------------------------------------------------------------
  // The files
  // ---------------------------------------------------------------------------------------------

  /** A text attribute is printed where there is a text. */
  ghost function Printed(text: string): Option<string> {
    if text == "" then None else Some(text)
  }

  /** A FEC value is printed where it is set and not the table's. */
  ghost function PrintedValue(n: U32, global: U32): Option<string> {
    if n == 0 || n == global then None else Some(Decimal(n))
  }

  /** What each File element says of its object. */
  lemma FilePrinted(t: Table, i: nat)
    requires i < |t.entries|
    ensures var file, e := ToXml(t).children[i], t.entries[i];
      && file.name == "File" && file.text == ""
      && Value(file, "TOI") == Some(Decimal(e.toi))
      && Value(file, "Content-Location") == Some(e.contentLocation)
      && Value(file, "Content-Length") == Some(Decimal(e.contentLength))
      && Value(file, "Transfer-Length") ==
         (if e.fecOti.transferLength == 0 then None else Some(Decimal(e.fecOti.transferLength)))
      && Value(file, "Content-MD5") == Printed(e.contentMd5)
      && Value(file, "Content-Encoding") == Printed(e.contentEncoding)
      && Value(file, "Content-Type") == Printed(e.contentType)
      && Value(file, "mbms2012:File-ETag") == Printed(e.etag)
      && Value(file, "Expires") == None
  {
    hide Decimal, Value, FileFields, RootFields, CacheControl;
    var g, e := t.globalOti, t.entries[i];
    FileField(g, e, TOI);
    FileField(g, e, CONTENT_LOCATION);
    FileField(g, e, CONTENT_LENGTH);
    FileField(g, e, TRANSFER_LENGTH);
    FileField(g, e, CONTENT_MD5);
    FileField(g, e, CONTENT_ENCODING);
    FileField(g, e, CONTENT_TYPE);
    FileField(g, e, EXPIRES);
    EtagPrinted(g, e);
  }

  lemma EtagPrinted(g: FecOti, e: FileEntry)
    ensures Value(FileElement(g, e), "mbms2012:File-ETag") == Printed(e.etag)
  {
    var name := "mbms2012:File-ETag";
    var f, tag := Attributes(FileFields(g, e)), EtagAttribute(e);
    hide FileFields, Attributes;
    assert name[8] == ':';
    ValueConcat(f, tag, name);
    NotAField(FileFields(g, e), name);
    if tag != [] {
      assert tag[0].name == name;
      ValueOne(tag[0], name);
    }
  }

  /** And how it is cut. */
  lemma FileOtiPrinted(t: Table, i: nat)
    requires i < |t.entries|
    ensures var file, g, oti := ToXml(t).children[i], t.globalOti, t.entries[i].fecOti;
      && Value(file, "FEC-OTI-FEC-Encoding-ID") ==
         (if oti.encodingId == g.encodingId then None else Some(Decimal(oti.encodingId)))
      && Value(file, "FEC-OTI-FEC-Instance-ID") == PrintedValue(oti.instanceId, g.instanceId)
      && Value(file, "FEC-OTI-Maximum-Source-Block-Length") ==
         PrintedValue(oti.maxSourceBlockLength, g.maxSourceBlockLength)
      && Value(file, "FEC-OTI-Encoding-Symbol-Length") ==
         PrintedValue(oti.encodingSymbolLength, g.encodingSymbolLength)
      && Value(file, "FEC-OTI-Max-Number-of-Encoding-Symbols") == None
  {
    hide Decimal, Value, FileFields, RootFields, CacheControl, NameOf;
    var g, e := t.globalOti, t.entries[i];
    FecNames();
    FileField(g, e, FEC_ENCODING_ID);
    FileField(g, e, FEC_INSTANCE_ID);
    FileField(g, e, MAX_SOURCE_BLOCK_LENGTH);
    FileField(g, e, ENCODING_SYMBOL_LENGTH);
    FileField(g, e, MAX_ENCODING_SYMBOLS);
  }

  /** Its only child, if any, is the cache directive, with no-cache before an expiry. */
  lemma CachePrinted(t: Table, i: nat)
    requires i < |t.entries|
    ensures var file, e := ToXml(t).children[i], t.entries[i];
      file.children ==
      if e.noCache then
        [Element("mbms2007:Cache-Control", [], [Element("mbms2007:no-cache", [], [], "true")], "")]
      else if e.cacheExpires.Some? then
        [Element("mbms2007:Cache-Control", [], [Element("mbms2007:Expires", [], [], Decimal(e.expires))], "")]
      else []
  {
    hide Decimal, FileFields, RootFields;
    assert Prefixed("Cache-Control") == "mbms2007:Cache-Control";
    assert Prefixed("no-cache") == "mbms2007:no-cache";
    assert Prefixed("Expires") == "mbms2007:Expires";
  }
}
