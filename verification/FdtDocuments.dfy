/**
 * What the parsing constructor makes of any document, whoever printed it, by the names in it
 * (src/FileDeliveryTable.cpp:142-339; section 3.4.2 of RFC 3926).  Attributes come in any order, among any others; the
 * elements of the FDT have no prefix, those of 3GPP have one of the document's choice.
 */
module FdtDocuments {
  import opened Bytes
  import opened Flute
  import opened Numerals
  import opened Xml
  import opened FdtXml
  import opened FdtNames

  // ---------------------------------------------------------------------------------------------
  // Documents
  // ---------------------------------------------------------------------------------------------

  /** The prefixes for the namespaces of clause 7.2.10.2 of 3GPP TS 26.346. */
  datatype Prefixes = Prefixes(of2007: string, of2012: string)

  ghost predicate IsPrefix(prefix: string) {
    prefix != "" && prefix != "xmlns" && ':' !in prefix
  }

  ghost predicate ArePrefixes(p: Prefixes) {
    IsPrefix(p.of2007) && IsPrefix(p.of2012) && p.of2007 != p.of2012
  }

  ghost predicate IsFdtUri(uri: string) {
    || uri == "" || uri == "http://www.example.com/flute" || uri == "urn:IETF:metadata:2005:FLUTE:FDT"
    || uri == "urn:3GPP:metadata:2022:FLUTE:FDT"
  }

  /** An attribute of the root: without prefix, or the declaration of one. */
  ghost predicate RootAttribute(a: Attribute, p: Prefixes) {
    || ':' !in a.name
    || a == Attribute("xmlns:" + p.of2007, "urn:3GPP:metadata:2007:MBMS:FLUTE:FDT")
    || a == Attribute("xmlns:" + p.of2012, "urn:3GPP:metadata:2012:MBMS:FLUTE:FDT")
  }

  ghost predicate FileAttribute(name: string, p: Prefixes) {
    (':' !in name && name != "xmlns") || name == p.of2012 + ":File-ETag"
  }

  ghost predicate StartsWith(name: string, start: string) {
    |start| <= |name| && name[..|start|] == start
  }

  /** An element without attributes, perhaps with the prefix of 2007. */
  ghost predicate Bare(e: Element, p: Prefixes) {
    e.attributes == [] && (':' !in e.name || StartsWith(e.name, p.of2007 + ":"))
  }

  ghost predicate AllBare(children: seq<Element>, p: Prefixes) {
    forall i :: 0 <= i < |children| ==> Bare(children[i], p)
  }

  ghost predicate FileDocument(file: Element, p: Prefixes) {
    && (forall i :: 0 <= i < |file.attributes| ==> FileAttribute(file.attributes[i].name, p))
    && AllBare(file.children, p)
    && (forall i :: 0 <= i < |file.children| ==> AllBare(file.children[i].children, p))
  }

  ghost predicate Document(root: Element, p: Prefixes) {
    && ArePrefixes(p) && NamesDistinct(root) && root.name == "FDT-Instance" && IsFdtUri(TextOf(root, "xmlns"))
    && (forall i :: 0 <= i < |root.attributes| ==> RootAttribute(root.attributes[i], p))
    && (forall i :: 0 <= i < |root.children| ==>
          ':' !in root.children[i].name && (root.children[i].name == "File" ==> FileDocument(root.children[i], p)))
  }

  // ---------------------------------------------------------------------------------------------
  // What is in them
  // ---------------------------------------------------------------------------------------------

  ghost function TextOf(e: Element, name: string): string {
    if Value(e, name).Some? then Value(e, name).value else ""
  }

  ghost function NumberOf(e: Element, name: string, default: U32): U32 {
    if Value(e, name).Some? then Strtoul(Value(e, name).value) % 0x1_0000_0000 else default
  }

  /** The File elements, in order. */
  ghost function FilesOf(children: seq<Element>): seq<Element>
    decreases |children|
  {
    if children == [] then []
    else (if children[0].name == "File" then [children[0]] else []) + FilesOf(children[1..])
  }

  /** The first child with exactly this name. */
  ghost function ChildNamed(children: seq<Element>, name: string): Option<Element>
    decreases |children|
  {
    if children == [] then None
    else if children[0].name == name then Some(children[0])
    else ChildNamed(children[1..], name)
  }

  /** A child with the prefix of 2007, if the root declares it. */
  ghost function Child2007(root: Element, e: Element, p: Prefixes, name: string): Option<Element> {
    if Value(root, "xmlns:" + p.of2007).Some? then ChildNamed(e.children, p.of2007 + ":" + name) else None
  }

  ghost function EtagOf(root: Element, file: Element, p: Prefixes): string {
    if Value(root, "xmlns:" + p.of2012).Some? then TextOf(file, p.of2012 + ":File-ETag") else ""
  }

  /** Whether caching is off, and until when it is allowed. */
  ghost function CacheOf(root: Element, file: Element, p: Prefixes): (bool, Option<U64>) {
    match Child2007(root, file, p, "Cache-Control")
    case None => (false, None)
    case Some(cc) =>
      (Child2007(root, cc, p, "no-cache").Some?,
       match Child2007(root, cc, p, "Expires") case None => None case Some(x) => Some(Strtoul(x.text)))
  }

  /** The FEC values of the table. */
  ghost function TableOti(root: Element): FecOti {
    NO_OTI.(
      encodingId := NumberOf(root, "FEC-OTI-FEC-Encoding-ID", 0),
      instanceId := NumberOf(root, "FEC-OTI-FEC-Instance-ID", 0),
      maxSourceBlockLength := NumberOf(root, "FEC-OTI-Maximum-Source-Block-Length", 0),
      encodingSymbolLength := NumberOf(root, "FEC-OTI-Encoding-Symbol-Length", 0),
      maxNumberOfEncodingSymbols := NumberOf(root, "FEC-OTI-Max-Number-of-Encoding-Symbols", 0))
  }

  /** Those of a file: its own or the table's; without a transfer length its content length. */
  ghost function FileOti(root: Element, file: Element): FecOti {
    var g := TableOti(root);
    NO_OTI.(
      transferLength := NumberOf(file, "Transfer-Length", NumberOf(file, "Content-Length", 0)),
      encodingId := NumberOf(file, "FEC-OTI-FEC-Encoding-ID", g.encodingId),
      instanceId := NumberOf(file, "FEC-OTI-FEC-Instance-ID", g.instanceId),
      maxSourceBlockLength := NumberOf(file, "FEC-OTI-Maximum-Source-Block-Length", g.maxSourceBlockLength),
      encodingSymbolLength := NumberOf(file, "FEC-OTI-Encoding-Symbol-Length", g.encodingSymbolLength),
      maxNumberOfEncodingSymbols :=
        NumberOf(file, "FEC-OTI-Max-Number-of-Encoding-Symbols", g.maxNumberOfEncodingSymbols))
  }

  /** An entry has what its File element says. */
  ghost predicate SaidBy(root: Element, file: Element, p: Prefixes, e: FileEntry) {
    && Value(file, "TOI").Some? && e.toi == NumberOf(file, "TOI", 0)
    && Value(file, "Content-Location") == Some(e.contentLocation)
    && e.contentLength == NumberOf(file, "Content-Length", 0)
    && e.contentMd5 == TextOf(file, "Content-MD5")
    && e.contentEncoding == TextOf(file, "Content-Encoding")
    && e.contentType == TextOf(file, "Content-Type")
    && e.etag == EtagOf(root, file, p)
    && (e.noCache, e.cacheExpires) == CacheOf(root, file, p)
    && e.expires == (if e.cacheExpires.Some? then e.cacheExpires.value else 0)
    && e.fecOti == FileOti(root, file)
  }

  // ---------------------------------------------------------------------------------------------
  // Namespaces
  // ---------------------------------------------------------------------------------------------

  lemma FdtUriIsOther(uri: string)
    requires IsFdtUri(uri)
    ensures uri != MBMS2007_NS && uri != MBMS2012_NS && uri != "xmlns" && (uri == "" || ':' in uri)
    ensures ':' in MBMS2007_NS && ':' in MBMS2012_NS
  {
    assert |MBMS2007_NS| == |MBMS2012_NS| == 37 && MBMS2007_NS[3] == MBMS2012_NS[3] == ':';
    assert uri != "" ==> uri[3] == ':' || uri[4] == ':';
    assert |uri| in {0, 28, 32};
  }

  /** Only the two prefixes are declared, for their namespaces. */
  ghost predicate DeclaresOnly(ns: Namespaces, p: Prefixes) {
    forall x :: x in ns.prefixes ==>
      || (x == p.of2007 && ns.prefixes[x] == "urn:3GPP:metadata:2007:MBMS:FLUTE:FDT")
      || (x == p.of2012 && ns.prefixes[x] == "urn:3GPP:metadata:2012:MBMS:FLUTE:FDT")
  }

  lemma ColonFreeStart(name: string)
    requires ':' !in name
    ensures |name| >= 6 ==> name[..6] != XMLNS + ":"
  {
    if |name| >= 6 {
      assert name[5] in name && name[..6][5] == name[5] && (XMLNS + ":")[5] == ':';
    }
  }

  lemma ColonFreeDeclares(ns: Namespaces, a: Attribute)
    requires ':' !in a.name
    ensures Declare(ns, a) == if a.name == "xmlns" then ns.(defaultNs := a.value) else ns
  {
    ColonFreeStart(a.name);
  }

  lemma {:induction false} NotNamed(attributes: seq<Attribute>, name: string)
    requires forall i :: 0 <= i < |attributes| ==> attributes[i].name != name
    ensures ValueIn(attributes, name) == None
    decreases |attributes|
  {
    if attributes != [] {
      NotNamed(attributes[1..], name);
    }
  }

  ghost function OrElse(value: Option<string>, default: string): string {
    if value.Some? then value.value else default
  }

  ghost predicate RootAttributes(attributes: seq<Attribute>, p: Prefixes) {
    && (forall i :: 0 <= i < |attributes| ==> RootAttribute(attributes[i], p))
    && (forall i, j :: 0 <= i < j < |attributes| ==> attributes[i].name != attributes[j].name)
  }

  /** What the root declares. */
  lemma {:induction false} RootDeclares(ns: Namespaces, attributes: seq<Attribute>, p: Prefixes)
    requires ArePrefixes(p) && RootAttributes(attributes, p) && DeclaresOnly(ns, p)
    ensures var all := DeclareAll(ns, attributes);
      && all.defaultNs == OrElse(ValueIn(attributes, "xmlns"), ns.defaultNs) && DeclaresOnly(all, p)
      && (p.of2007 in all.prefixes <==> p.of2007 in ns.prefixes || ValueIn(attributes, "xmlns:" + p.of2007).Some?)
      && (p.of2012 in all.prefixes <==> p.of2012 in ns.prefixes || ValueIn(attributes, "xmlns:" + p.of2012).Some?)
    decreases |attributes|
  {
    if attributes != [] {
      var a, rest := attributes[0], attributes[1..];
      assert RootAttribute(a, p);
      assert forall i :: 0 <= i < |rest| ==> rest[i] == attributes[i + 1];
      FirstDeclares(ns, a, p);
      RootDeclares(Declare(ns, a), rest, p);
      NotNamed(rest, a.name);
    }
  }

  lemma FirstDeclares(ns: Namespaces, a: Attribute, p: Prefixes)
    requires ArePrefixes(p) && RootAttribute(a, p) && DeclaresOnly(ns, p)
    ensures var next := Declare(ns, a);
      && next.defaultNs == (if a.name == "xmlns" then a.value else ns.defaultNs) && DeclaresOnly(next, p)
      && (p.of2007 in next.prefixes <==> p.of2007 in ns.prefixes || a.name == "xmlns:" + p.of2007)
      && (p.of2012 in next.prefixes <==> p.of2012 in ns.prefixes || a.name == "xmlns:" + p.of2012)
  {
    hide Declare;
    var first, second := "xmlns:" + p.of2007, "xmlns:" + p.of2012;
    assert first[6..] == p.of2007 && second[6..] == p.of2012 && first[5] == ':' && second[5] == ':';
    assert |first| > 5 && |second| > 5;
    if ':' !in a.name {
      ColonFreeDeclares(ns, a);
    } else if a.name == first {
      DeclarationsResolve(ns, p.of2007, a.value);
    } else {
      DeclarationsResolve(ns, p.of2012, a.value);
    }
  }

  /** What holds of the namespaces of a document's root. */
  ghost predicate NamespacesOf(root: Element, p: Prefixes, ns: Namespaces) {
    && DeclaresOnly(ns, p) && ns.defaultNs == TextOf(root, "xmlns") && IsFdtUri(ns.defaultNs)
    && (p.of2007 in ns.prefixes <==> Value(root, "xmlns:" + p.of2007).Some?)
    && (p.of2012 in ns.prefixes <==> Value(root, "xmlns:" + p.of2012).Some?)
  }

  lemma RootNamespaces(root: Element, p: Prefixes)
    requires Document(root, p)
    ensures NamespacesOf(root, p, Within(NO_NAMESPACES, root))
  {
    RootDeclares(NO_NAMESPACES, root.attributes, p);
  }

  // ---------------------------------------------------------------------------------------------
  // Attributes
  // ---------------------------------------------------------------------------------------------

  /** A prefix that stands for another namespace. */
  ghost predicate Elsewhere(ns: Namespaces, name: string, wanted: string) {
    match FirstColon(name)
    case None => false
    case Some(i) => wanted != if name[..i] in ns.prefixes then ns.prefixes[name[..i]] else name[..i]
  }

  /** Where every prefix leads elsewhere, an attribute is found by its bare name. */
  lemma {:induction false} FoundByName(ns: Namespaces, attributes: seq<Attribute>, name: string)
    requires ':' !in name
    requires forall i :: 0 <= i < |attributes| ==>
               ':' !in attributes[i].name || Elsewhere(ns, attributes[i].name, ns.defaultNs)
    ensures FindIn(ns, attributes, name, ns.defaultNs) == ValueIn(attributes, name)
    decreases |attributes|
  {
    if attributes != [] {
      FoundByName(ns, attributes[1..], name);
      var first := attributes[0].name;
      if ':' !in first {
        NoColon(first);
      } else {
        assert first != name;
      }
    }
  }

  lemma PrefixLeadsElsewhere(ns: Namespaces, p: Prefixes, prefix: string, local: string, wanted: string)
    requires ArePrefixes(p) && DeclaresOnly(ns, p) && IsFdtUri(wanted)
    requires prefix == "xmlns" || prefix == p.of2012
    ensures Elsewhere(ns, prefix + ":" + local, wanted)
  {
    assert ':' !in "xmlns";
    ColonAfterPrefix(prefix, local);
    FdtUriIsOther(wanted);
  }

  lemma RootAttributeFound(root: Element, p: Prefixes, ns: Namespaces, name: string)
    requires Document(root, p) && NamespacesOf(root, p, ns) && ':' !in name
    ensures ElementNamespace(ns, root) == ns.defaultNs
    ensures FindAttribute(ns, root, name, ns.defaultNs) == Value(root, name)
  {
    hide Document, FileDocument, RootAttribute, Elsewhere, IsFdtUri, DeclaresOnly, ArePrefixes;
    DocumentRoot(root, p);
    NoColon("FDT-Instance");
    forall i | 0 <= i < |root.attributes| && ':' in root.attributes[i].name
      ensures Elsewhere(ns, root.attributes[i].name, ns.defaultNs)
    {
      DeclarationLeadsElsewhere(ns, p, root.attributes[i], ns.defaultNs);
    }
    FoundByName(ns, root.attributes, name);
    assert ns.(defaultNs := ns.defaultNs) == ns;
  }

  lemma DeclarationLeadsElsewhere(ns: Namespaces, p: Prefixes, a: Attribute, wanted: string)
    requires ArePrefixes(p) && DeclaresOnly(ns, p) && IsFdtUri(wanted) && RootAttribute(a, p) && ':' in a.name
    ensures Elsewhere(ns, a.name, wanted)
  {
    hide Elsewhere, DeclaresOnly, IsFdtUri;
    PrefixLeadsElsewhere(ns, p, "xmlns", p.of2007, wanted);
    PrefixLeadsElsewhere(ns, p, "xmlns", p.of2012, wanted);
    assert "xmlns" + ":" + p.of2007 == "xmlns:" + p.of2007 && "xmlns" + ":" + p.of2012 == "xmlns:" + p.of2012;
  }

  lemma DocumentRoot(root: Element, p: Prefixes)
    requires Document(root, p)
    ensures ArePrefixes(p) && root.name == "FDT-Instance" && ':' !in "FDT-Instance"
    ensures forall i :: 0 <= i < |root.attributes| ==> RootAttribute(root.attributes[i], p)
  {
  }

  lemma FileAttributeFound(file: Element, p: Prefixes, ns: Namespaces, name: string)
    requires ArePrefixes(p) && FileDocument(file, p) && file.name == "File" && ':' !in name
    requires DeclaresOnly(ns, p) && IsFdtUri(ns.defaultNs)
    ensures ElementNamespace(ns, file) == ns.defaultNs
    ensures FindAttribute(ns, file, name, ns.defaultNs) == Value(file, name)
  {
    hide AllBare;
    assert ':' !in "File";
    NoColon("File");
    forall i | 0 <= i < |file.attributes| && ':' in file.attributes[i].name
      ensures Elsewhere(ns, file.attributes[i].name, ns.defaultNs)
    {
      assert FileAttribute(file.attributes[i].name, p);
      PrefixLeadsElsewhere(ns, p, p.of2012, "File-ETag", ns.defaultNs);
      assert p.of2012 + ":" + "File-ETag" == p.of2012 + ":File-ETag";
    }
    FoundByName(ns, file.attributes, name);
    assert ns.(defaultNs := ns.defaultNs) == ns;
  }

  lemma FileDeclaresNothing(file: Element, p: Prefixes, ns: Namespaces)
    requires ArePrefixes(p) && FileDocument(file, p)
    ensures Within(ns, file) == ns
  {
    hide AllBare;
    forall i | 0 <= i < |file.attributes|
      ensures var name := file.attributes[i].name;
        name != XMLNS && (|name| >= 6 ==> name[..6] != XMLNS + ":")
    {
      var name := file.attributes[i].name;
      assert FileAttribute(name, p);
      if ':' !in name {
        ColonFreeStart(name);
      } else {
        PrefixedStart(p.of2012, ":File-ETag");
      }
    }
    NothingDeclared(ns, file.attributes);
  }

  lemma PrefixedStart(prefix: string, tail: string)
    requires IsPrefix(prefix) && tail != "" && tail[0] == ':'
    ensures prefix + tail != XMLNS && (|prefix + tail| >= 6 ==> (prefix + tail)[..6] != XMLNS + ":")
  {
    var name, start := prefix + tail, XMLNS + ":";
    assert name[|prefix|] == ':' && name[|prefix|] in name && ':' !in XMLNS && start[5] == ':';
    if |name| >= 6 {
      var n := |prefix|;
      if n > 5 {
        assert name[..6][5] == prefix[5] && prefix[5] in prefix;
      } else if n < 5 {
        assert name[..6][n] == ':' && start[n] == XMLNS[n] && XMLNS[n] in XMLNS;
      } else {
        assert name[..6][..5] == prefix && start[..5] == XMLNS;
      }
    }
  }

  // ---------------------------------------------------------------------------------------------
  // Children
  // ---------------------------------------------------------------------------------------------

  ghost predicate FdtChildren(children: seq<Element>, p: Prefixes) {
    forall i :: 0 <= i < |children| ==>
      ':' !in children[i].name && (children[i].name == "File" ==> FileDocument(children[i], p))
  }

  lemma {:induction false} FilesFound(ns: Namespaces, children: seq<Element>, p: Prefixes)
    requires ArePrefixes(p) && FdtChildren(children, p)
    ensures FindChildren(ns, children, "File", ns.defaultNs) == FilesOf(children)
    decreases |children|
  {
    hide FileDocument;
    if children != [] {
      var first, rest := children[0], children[1..];
      assert forall i :: 0 <= i < |rest| ==> rest[i] == children[i + 1];
      FilesFound(ns, rest, p);
      NoColon(first.name);
      if first.name == "File" {
        FileDeclaresNothing(first, p, ns);
      }
    }
  }

  lemma {:induction false} FilesAreDocuments(children: seq<Element>, p: Prefixes)
    requires FdtChildren(children, p)
    ensures forall i :: 0 <= i < |FilesOf(children)| ==>
              FilesOf(children)[i].name == "File" && FileDocument(FilesOf(children)[i], p)
    decreases |children|
  {
    hide FileDocument;
    if children != [] {
      var rest := children[1..];
      assert forall i :: 0 <= i < |rest| ==> rest[i] == children[i + 1];
      FilesAreDocuments(rest, p);
    }
  }

  /** A child in the namespace of 2007 is found by its prefixed name. */
  lemma BareMatches(ns: Namespaces, p: Prefixes, child: Element, name: string)
    requires ArePrefixes(p) && DeclaresOnly(ns, p) && IsFdtUri(ns.defaultNs) && Bare(child, p)
    ensures Within(ns, child) == ns
    ensures Matches(ns, child.name, name, MBMS2007_NS) <==>
            p.of2007 in ns.prefixes && child.name == p.of2007 + ":" + name
  {
    FdtUriIsOther(ns.defaultNs);
    var whole := p.of2007 + ":" + name;
    assert whole[|p.of2007|] == ':' && whole[|p.of2007|] in whole;
    if ':' !in child.name {
      NoColon(child.name);
    } else {
      var local := child.name[|p.of2007| + 1..];
      assert child.name == p.of2007 + ":" + local;
      ColonAfterPrefix(p.of2007, local);
      ColonAfterPrefix(p.of2007, name);
    }
  }

  lemma {:induction false} ChildFound(ns: Namespaces, p: Prefixes, children: seq<Element>, name: string)
    requires ArePrefixes(p) && DeclaresOnly(ns, p) && IsFdtUri(ns.defaultNs) && AllBare(children, p)
    ensures var found := FindChildren(ns, children, name, MBMS2007_NS);
      (if found == [] then None else Some(found[0])) ==
      if p.of2007 in ns.prefixes then ChildNamed(children, p.of2007 + ":" + name) else None
    decreases |children|
  {
    hide Bare, Matches, IsFdtUri, DeclaresOnly, ArePrefixes;
    if children != [] {
      assert Bare(children[0], p);
      BareMatches(ns, p, children[0], name);
      ChildFound(ns, p, children[1..], name);
    }
  }

  lemma ChildOfDocument(root: Element, p: Prefixes, ns: Namespaces, e: Element, name: string)
    requires ArePrefixes(p) && NamespacesOf(root, p, ns) && AllBare(e.children, p)
    ensures FindChild(ns, e, name, MBMS2007_NS) == Child2007(root, e, p, name)
  {
    hide AllBare, IsFdtUri, DeclaresOnly, ArePrefixes;
    ChildFound(ns, p, e.children, name);
  }

  lemma {:induction false} NamedIsChild(children: seq<Element>, name: string)
    ensures var c := ChildNamed(children, name);
      c.Some? ==> exists i :: 0 <= i < |children| && children[i] == c.value
    decreases |children|
  {
    if children != [] && children[0].name != name {
      NamedIsChild(children[1..], name);
    }
  }

  lemma CacheRead(root: Element, file: Element, p: Prefixes, ns: Namespaces)
    requires ArePrefixes(p) && NamespacesOf(root, p, ns) && FileDocument(file, p)
    ensures ReadCacheControl(ns, file) == CacheOf(root, file, p)
  {
    hide NamespacesOf, ArePrefixes, IsFdtUri, FindChild, Strtoul;
    assert AllBare(file.children, p);
    ChildOfDocument(root, p, ns, file, "Cache-Control");
    var cc := Child2007(root, file, p, "Cache-Control");
    if cc.Some? {
      NamedIsChild(file.children, p.of2007 + ":Cache-Control");
      assert p.of2007 + ":" + "Cache-Control" == p.of2007 + ":Cache-Control";
      assert Bare(cc.value, p) && AllBare(cc.value.children, p);
      ChildOfDocument(root, p, ns, cc.value, "no-cache");
      ChildOfDocument(root, p, ns, cc.value, "Expires");
    }
  }

  // ---------------------------------------------------------------------------------------------
  // The entity tag
  // ---------------------------------------------------------------------------------------------

  lemma {:induction false} EtagFound(ns: Namespaces, p: Prefixes, attributes: seq<Attribute>)
    requires ArePrefixes(p) && DeclaresOnly(ns, p) && IsFdtUri(ns.defaultNs)
    requires forall i :: 0 <= i < |attributes| ==> FileAttribute(attributes[i].name, p)
    ensures FindIn(ns, attributes, "File-ETag", MBMS2012_NS) ==
            if p.of2012 in ns.prefixes then ValueIn(attributes, p.of2012 + ":File-ETag") else None
    decreases |attributes|
  {
    hide IsFdtUri, DeclaresOnly, FileAttribute, Matches;
    if attributes != [] {
      EtagFound(ns, p, attributes[1..]);
      EtagMatches(ns, p, attributes[0].name);
    }
  }

  lemma EtagMatches(ns: Namespaces, p: Prefixes, name: string)
    requires ArePrefixes(p) && DeclaresOnly(ns, p) && IsFdtUri(ns.defaultNs) && FileAttribute(name, p)
    ensures Matches(ns, name, "File-ETag", MBMS2012_NS) <==>
            p.of2012 in ns.prefixes && name == p.of2012 + ":File-ETag"
  {
    FdtUriIsOther(ns.defaultNs);
    var whole := p.of2012 + ":File-ETag";
    assert whole == p.of2012 + ":" + "File-ETag";
    assert whole[|p.of2012|] == ':' && whole[|p.of2012|] in whole;
    ColonAfterPrefix(p.of2012, "File-ETag");
    if ':' !in name {
      NoColon(name);
    }
  }

  lemma EtagRead(root: Element, file: Element, p: Prefixes, ns: Namespaces)
    requires ArePrefixes(p) && NamespacesOf(root, p, ns) && FileDocument(file, p) && file.name == "File"
    ensures OrElse(FindAttribute(ns, file, "File-ETag", MBMS2012_NS), "") == EtagOf(root, file, p)
  {
    hide IsFdtUri, DeclaresOnly, ArePrefixes, FileAttribute;
    assert ':' !in "File";
    NoColon("File");
    assert ns.(defaultNs := ns.defaultNs) == ns;
    EtagFound(ns, p, file.attributes);
  }

  // ---------------------------------------------------------------------------------------------
  // Entries and tables
  // ---------------------------------------------------------------------------------------------

  /** What is found under the names of attributes is what an element has under them. */
  ghost predicate FoundIn(found: map<AttributeName, string>, e: Element) {
    forall a: AttributeName ::
      (a in found <==> Value(e, NameOf(a)).Some?) && (a in found ==> Value(e, NameOf(a)) == Some(found[a]))
  }

  lemma NumberIn(found: map<AttributeName, string>, e: Element, a: AttributeName, default: U32)
    requires FoundIn(found, e)
    ensures NumberOr(found, a, default) == NumberOf(e, NameOf(a), default)
    ensures TextOr(found, a) == TextOf(e, NameOf(a))
  {
  }

  lemma RootFound(root: Element, p: Prefixes, ns: Namespaces)
    requires Document(root, p) && NamespacesOf(root, p, ns)
    ensures FoundIn(Found(ns, root, ns.defaultNs), root)
  {
    hide Document, NamespacesOf, FindAttribute, NameOf;
    forall a: AttributeName
      ensures FindAttribute(ns, root, NameOf(a), ns.defaultNs) == Value(root, NameOf(a))
    {
      NameIsPlain(a);
      RootAttributeFound(root, p, ns, NameOf(a));
    }
  }

  lemma FileFound(root: Element, file: Element, p: Prefixes, ns: Namespaces)
    requires ArePrefixes(p) && NamespacesOf(root, p, ns) && FileDocument(file, p) && file.name == "File"
    ensures FoundIn(Found(ns, file, ns.defaultNs), file)
  {
    hide FileDocument, ArePrefixes, IsFdtUri, DeclaresOnly, FindAttribute, NameOf;
    forall a: AttributeName
      ensures FindAttribute(ns, file, NameOf(a), ns.defaultNs) == Value(file, NameOf(a))
    {
      NameIsPlain(a);
      FileAttributeFound(file, p, ns, NameOf(a));
    }
  }

  lemma GlobalRead(found: map<AttributeName, string>, root: Element)
    requires FoundIn(found, root)
    ensures ReadGlobalOti(found) == TableOti(root)
  {
    hide FoundIn, NumberOr, NumberOf, NameOf;
    FecNames();
    NumberIn(found, root, FEC_ENCODING_ID, 0);
    NumberIn(found, root, FEC_INSTANCE_ID, 0);
    NumberIn(found, root, MAX_SOURCE_BLOCK_LENGTH, 0);
    NumberIn(found, root, ENCODING_SYMBOL_LENGTH, 0);
    NumberIn(found, root, MAX_ENCODING_SYMBOLS, 0);
  }

  lemma OtiRead(found: map<AttributeName, string>, root: Element, file: Element)
    requires FoundIn(found, file)
    ensures ReadOti(TableOti(root), found) == FileOti(root, file)
  {
    hide FoundIn, NumberOr, NumberOf, NameOf, TableOti;
    var g := TableOti(root);
    FecNames();
    FileNames();
    NumberIn(found, file, FEC_ENCODING_ID, g.encodingId);
    NumberIn(found, file, FEC_INSTANCE_ID, g.instanceId);
    NumberIn(found, file, MAX_SOURCE_BLOCK_LENGTH, g.maxSourceBlockLength);
    NumberIn(found, file, ENCODING_SYMBOL_LENGTH, g.encodingSymbolLength);
    NumberIn(found, file, MAX_ENCODING_SYMBOLS, g.maxNumberOfEncodingSymbols);
    NumberIn(found, file, CONTENT_LENGTH, 0);
    NumberIn(found, file, TRANSFER_LENGTH, NumberOf(file, "Content-Length", 0));
  }

  lemma FileNames()
    ensures NameOf(EXPIRES) == "Expires" && NameOf(TOI) == "TOI" && NameOf(CONTENT_LOCATION) == "Content-Location"
    ensures NameOf(CONTENT_LENGTH) == "Content-Length" && NameOf(TRANSFER_LENGTH) == "Transfer-Length"
    ensures NameOf(CONTENT_MD5) == "Content-MD5" && NameOf(CONTENT_ENCODING) == "Content-Encoding"
    ensures NameOf(CONTENT_TYPE) == "Content-Type"
  {
  }

  /** A File element is read as what it says; without a TOI, or else without a location, it is refused. */
  lemma FileRead(root: Element, file: Element, p: Prefixes, ns: Namespaces)
    requires ArePrefixes(p) && NamespacesOf(root, p, ns) && FileDocument(file, p) && file.name == "File"
    ensures var r := ReadFile(ns, TableOti(root), ns.defaultNs, file);
      if Value(file, "TOI").None? then r == Err("Missing TOI attribute on File element")
      else if Value(file, "Content-Location").None? then r == Err("Missing Content-Location attribute on File element")
      else r.Ok? && SaidBy(root, file, p, r.value)
  {
    hide FileDocument, ArePrefixes, NamespacesOf, FoundIn, Found, NameOf, Strtoul, ReadOti, FileOti, TableOti,
         ReadCacheControl, CacheOf, EtagOf, FindAttribute, Value;
    var found := Found(ns, file, ns.defaultNs);
    FileDeclaresNothing(file, p, ns);
    FileFound(root, file, p, ns);
    CacheRead(root, file, p, ns);
    EtagRead(root, file, p, ns);
    OtiRead(found, root, file);
    FileNames();
    IsIn(found, file, TOI);
    IsIn(found, file, CONTENT_LOCATION);
    NumberIn(found, file, CONTENT_LENGTH, 0);
    NumberIn(found, file, CONTENT_MD5, 0);
    NumberIn(found, file, CONTENT_ENCODING, 0);
    NumberIn(found, file, CONTENT_TYPE, 0);
  }

  lemma IsIn(found: map<AttributeName, string>, e: Element, a: AttributeName)
    requires FoundIn(found, e)
    ensures a in found <==> Value(e, NameOf(a)).Some?
    ensures a in found ==> Value(e, NameOf(a)) == Some(found[a])
  {
  }

  // ---------------------------------------------------------------------------------------------
  // Whole documents
  // ---------------------------------------------------------------------------------------------

  ghost predicate Complete(file: Element) {
    Value(file, "TOI").Some? && Value(file, "Content-Location").Some?
  }

  /** The first file that lacks something decides what is thrown. */
  ghost predicate RefusedFor(files: seq<Element>, what: string) {
    exists i :: 0 <= i < |files| && !Complete(files[i]) && (forall j :: 0 <= j < i ==> Complete(files[j]))
      && what == if Value(files[i], "TOI").None? then "Missing TOI attribute on File element"
                 else "Missing Content-Location attribute on File element"
  }

  /** The files up to the first that lacks something. */
  lemma {:induction false} FilesRead(read: Element -> Result<FileEntry>, files: seq<Element>)
    requires forall i :: 0 <= i < |files| ==> (read(files[i]).Ok? <==> Complete(files[i]))
    ensures var r := ReadAll(read, files);
      && (r.Ok? <==> forall i :: 0 <= i < |files| ==> Complete(files[i]))
      && (r.Ok? ==> |r.value| == |files| && forall i :: 0 <= i < |files| ==> read(files[i]) == Ok(r.value[i]))
      && (r.Err? ==> exists i :: 0 <= i < |files| && !Complete(files[i]) && read(files[i]) == Err(r.what)
                                && forall j :: 0 <= j < i ==> Complete(files[j]))
    decreases |files|
  {
    hide Complete;
    if files != [] {
      var rest := files[1..];
      assert forall i :: 0 <= i < |rest| ==> rest[i] == files[i + 1];
      FilesRead(read, rest);
      var r, s := ReadAll(read, files), ReadAll(read, rest);
      if !Complete(files[0]) {
        assert read(files[0]) == Err(r.what);
      } else if s.Err? {
        var i :| 0 <= i < |rest| && !Complete(rest[i]) && read(rest[i]) == Err(s.what)
              && forall j :: 0 <= j < i ==> Complete(rest[j]);
        forall j | 0 <= j < i + 1
          ensures Complete(files[j])
        {
          assert j > 0 ==> files[j] == rest[j - 1];
        }
        assert files[i + 1] == rest[i];
      } else {
        assert forall i :: 0 < i < |files| ==> files[i] == rest[i - 1] && r.value[i] == s.value[i - 1];
      }
    }
  }

  /** The namespace of each URI. */
  lemma UriRecognised(uri: string)
    requires IsFdtUri(uri)
    ensures RecognisedNamespace(uri) ==
            if uri == "" then Ok(NS_NONE)
            else if uri == "http://www.example.com/flute" then Ok(NS_RFC3926)
            else if uri == "urn:IETF:metadata:2005:FLUTE:FDT" then Ok(NS_DRAFT_2005)
            else Ok(NS_3GPP_CONSOLIDATED_V2)
  {
  }

  lemma RootMatches(root: Element, p: Prefixes, ns: Namespaces)
    requires Document(root, p) && NamespacesOf(root, p, ns)
    ensures ElementNamespace(ns, root) == ns.defaultNs && Matches(ns, root.name, FDT_INSTANCE, ns.defaultNs)
  {
    hide NamespacesOf, FdtChildren;
    DocumentRoot(root, p);
    NoColon("FDT-Instance");
  }

  lemma FilesOfDocument(root: Element, p: Prefixes, ns: Namespaces)
    requires Document(root, p) && NamespacesOf(root, p, ns)
    ensures ReadFiles(ns, TableOti(root), ns.defaultNs, FindChildren(ns, root.children, FILE, ns.defaultNs)) ==
            ReadAll(file => ReadFile(ns, TableOti(root), ns.defaultNs, file), FilesOf(root.children))
    ensures var files := FilesOf(root.children);
      forall i :: 0 <= i < |files| ==> files[i].name == "File" && FileDocument(files[i], p)
  {
    hide NamespacesOf, FileDocument, NamesDistinct, RootAttribute;
    FilesFound(ns, root.children, p);
    FilesAreDocuments(root.children, p);
  }

  /** One entry for each File element, in order, with what it says. */
  ghost predicate FilesSaid(root: Element, p: Prefixes, entries: seq<FileEntry>) {
    var files := FilesOf(root.children);
    |entries| == |files| && forall i :: 0 <= i < |entries| ==> SaidBy(root, files[i], p, entries[i])
  }

  /** What a table has of its document. */
  ghost predicate TableOf(root: Element, p: Prefixes, t: Table) {
    && t.globalOti == TableOti(root) && FilesSaid(root, p, t.entries)
    && TextOf(root, "xmlns") ==
       match t.fdtNamespace
       case NS_NONE => ""
       case NS_RFC3926 => "http://www.example.com/flute"
       case NS_DRAFT_2005 => "urn:IETF:metadata:2005:FLUTE:FDT"
       case NS_3GPP_CONSOLIDATED_V2 => "urn:3GPP:metadata:2022:FLUTE:FDT"
  }

  /**
   * Any document with a decimal expiry is read: to a table with exactly what its root says and, in order, its File
   * elements say, or to the error for the first of these that lacks its TOI or its location.
   */
  lemma DocumentRead(instanceId: U32, root: Element, p: Prefixes)
    requires Document(root, p)
    ensures var r, files := ReadTable(instanceId, root), FilesOf(root.children);
      match Value(root, "Expires")
      case None => r == Err("undefined")
      case Some(at) =>
        if Stoull(at).Err? then r == Err(Stoull(at).what)
        else if forall i :: 0 <= i < |files| ==> Complete(files[i]) then
          && r.Ok? && r.value.expires == Stoull(at).value && TableOf(root, p, r.value)
          && r.value.instanceId == instanceId
          && r.value.instanceIdSent == (if instanceId == 0 then 0xFFFF_FFFF else instanceId - 1)
        else
          r.Err? && RefusedFor(files, r.what)
  {
    hide Document, NamespacesOf, Found, FoundIn, Value, TextOf, TableOti, FilesSaid, Stoull, ReadFiles, FindChildren,
         RefusedFor, FilesOf,
         Within, Matches, ElementNamespace, RecognisedNamespace, ReadGlobalOti, NameOf, Complete;
    var ns := Within(NO_NAMESPACES, root);
    var found := Found(ns, root, ns.defaultNs);
    RootNamespaces(root, p);
    RootMatches(root, p, ns);
    NamespaceRead(root, p, ns);
    RootFound(root, p, ns);
    FileNames();
    IsIn(found, root, EXPIRES);
    GlobalRead(found, root);
    AllFilesRead(root, p, ns);
  }

  /** The files of a document, read from the namespaces of its root. */
  lemma AllFilesRead(root: Element, p: Prefixes, ns: Namespaces)
    requires Document(root, p) && NamespacesOf(root, p, ns)
    ensures var files := FilesOf(root.children);
      var r := ReadFiles(ns, TableOti(root), ns.defaultNs, FindChildren(ns, root.children, FILE, ns.defaultNs));
      if forall i :: 0 <= i < |files| ==> Complete(files[i]) then r.Ok? && FilesSaid(root, p, r.value)
      else
        r.Err? && RefusedFor(files, r.what)
  {
    hide Document, NamespacesOf, Value, TableOti, FileDocument, SaidBy, ReadFile, ReadFiles, FindChildren, ArePrefixes;
    var files := FilesOf(root.children);
    FilesOfDocument(root, p, ns);
    DocumentRoot(root, p);
    var read := file => ReadFile(ns, TableOti(root), ns.defaultNs, file);
    forall i | 0 <= i < |files|
      ensures read(files[i]).Ok? <==> Complete(files[i])
      ensures Complete(files[i]) ==> SaidBy(root, files[i], p, read(files[i]).value)
      ensures !Complete(files[i]) ==>
        read(files[i]) == Err(if Value(files[i], "TOI").None? then "Missing TOI attribute on File element"
                              else "Missing Content-Location attribute on File element")
    {
      FileRead(root, files[i], p, ns);
    }
    FilesRead(read, files);
  }

  lemma NamespaceRead(root: Element, p: Prefixes, ns: Namespaces)
    requires NamespacesOf(root, p, ns)
    ensures RecognisedNamespace(ns.defaultNs).Ok?
    ensures TextOf(root, "xmlns") ==
            match RecognisedNamespace(ns.defaultNs).value
            case NS_NONE => ""
            case NS_RFC3926 => "http://www.example.com/flute"
            case NS_DRAFT_2005 => "urn:IETF:metadata:2005:FLUTE:FDT"
            case NS_3GPP_CONSOLIDATED_V2 => "urn:3GPP:metadata:2022:FLUTE:FDT"
  {
    hide DeclaresOnly, RecognisedNamespace;
    UriRecognised(ns.defaultNs);
  }

  /** Another root is refused, and so is another default namespace. */
  lemma OtherRootRefused(instanceId: U32, root: Element)
    requires ':' !in root.name && root.name != "FDT-Instance"
    ensures ReadTable(instanceId, root) == Err("Root element is not FDT-Instance")
  {
    NoColon(root.name);
  }

  lemma OtherNamespaceRefused(instanceId: U32, root: Element, p: Prefixes)
    requires ArePrefixes(p) && RootAttributes(root.attributes, p) && root.name == "FDT-Instance"
    requires !IsFdtUri(TextOf(root, "xmlns"))
    ensures ReadTable(instanceId, root) == Err("FDT namespace not recognised")
  {
    hide Found, ReadFiles, ReadGlobalOti, FindChildren, Stoull, NameOf, Matches, ElementNamespace, Within,
         RecognisedNamespace, IsFdtUri;
    var ns := Within(NO_NAMESPACES, root);
    assert ns.defaultNs == TextOf(root, "xmlns") by {
      DefaultNamespaceOf(root, p);
    }
    PlainRootMatches(root, ns);
    UriUnknown(ns.defaultNs);
  }

  lemma DefaultNamespaceOf(root: Element, p: Prefixes)
    requires ArePrefixes(p) && RootAttributes(root.attributes, p)
    ensures Within(NO_NAMESPACES, root).defaultNs == TextOf(root, "xmlns")
  {
    RootDeclares(NO_NAMESPACES, root.attributes, p);
  }

  lemma PlainRootMatches(root: Element, ns: Namespaces)
    requires root.name == "FDT-Instance"
    ensures ElementNamespace(ns, root) == ns.defaultNs && Matches(ns, root.name, FDT_INSTANCE, ns.defaultNs)
  {
    assert ':' !in "FDT-Instance";
    NoColon("FDT-Instance");
  }

  lemma UriUnknown(uri: string)
    requires !IsFdtUri(uri)
    ensures RecognisedNamespace(uri) == Err("FDT namespace not recognised")
  {
  }

  // ---------------------------------------------------------------------------------------------
  // Printed documents
  // ---------------------------------------------------------------------------------------------

  ghost predicate FieldsDistinct(fields: seq<Field>) {
    forall i, j :: 0 <= i < j < |fields| ==> fields[i].name != fields[j].name
  }

  lemma {:induction false} CollectedDistinct(order: seq<AttributeName>, value: AttributeName -> Option<string>)
    requires forall i, j :: 0 <= i < j < |order| ==> order[i] != order[j]
    ensures FieldsDistinct(Collect(order, value))
    ensures forall i :: 0 <= i < |Collect(order, value)| ==> Collect(order, value)[i].name in order
    decreases |order|
  {
    if order != [] {
      CollectedDistinct(order[1..], value);
      assert forall a :: a in order[1..] ==> a in order && a != order[0];
    }
  }

  lemma FieldNamesDistinct(fields: seq<Field>)
    requires FieldsDistinct(fields)
    ensures var names := Attributes(fields);
      forall i, j :: 0 <= i < j < |names| ==> names[i].name != names[j].name
  {
    hide NameOf;
    forall i, j | 0 <= i < j < |fields|
      ensures NameOf(fields[i].name) != NameOf(fields[j].name)
    {
      NamesDiffer(fields[i].name, fields[j].name);
    }
  }

  lemma FieldsArePlain(fields: seq<Field>)
    ensures var names := Attributes(fields);
      forall i :: 0 <= i < |names| ==> ':' !in names[i].name && names[i].name != "xmlns"
  {
    hide NameOf;
    forall i | 0 <= i < |fields|
      ensures ':' !in NameOf(fields[i].name) && NameOf(fields[i].name) != "xmlns"
    {
      NameIsPlain(fields[i].name);
    }
  }

  const PRINTED := Prefixes("mbms2007", "mbms2012")

  lemma PrintedPrefixes()
    ensures ArePrefixes(PRINTED)
    ensures PrefixDeclarations() == [
              Attribute("xmlns:mbms2007", "urn:3GPP:metadata:2007:MBMS:FLUTE:FDT"),
              Attribute("xmlns:mbms2012", "urn:3GPP:metadata:2012:MBMS:FLUTE:FDT")]
    ensures "xmlns:mbms2007" == "xmlns:" + PRINTED.of2007 && "xmlns:mbms2012" == "xmlns:" + PRINTED.of2012
    ensures "xmlns:mbms2007" != "xmlns:mbms2012" && ':' in "xmlns:mbms2007" && ':' in "xmlns:mbms2012"
    ensures ':' !in "xmlns"
  {
    assert PRINTED.of2007[7] != PRINTED.of2012[7] && "xmlns:mbms2007"[13] != "xmlns:mbms2012"[13];
    assert "xmlns:mbms2007"[5] == ':' == "xmlns:mbms2012"[5];
    assert |PRINTED.of2007| == |PRINTED.of2012| == 8;
    assert XMLNS + ":" + MBMS2007 == "xmlns:mbms2007" == "xmlns:" + PRINTED.of2007;
    assert XMLNS + ":" + MBMS2012 == "xmlns:mbms2012" == "xmlns:" + PRINTED.of2012;
  }

  lemma RootFieldsDistinct(t: Table)
    ensures FieldsDistinct(RootFields(t))
  {
    hide RootValue;
    CollectedDistinct(ROOT_ORDER, a => RootValue(t, a));
  }

  lemma PrintedRootAttributes(t: Table)
    ensures RootAttributes(ToXml(t).attributes, PRINTED)
  {
    hide NamespaceUri, FileElements, Attributes, RootFields, NameOf, PrefixDeclarations, ArePrefixes;
    var d, names, q := DefaultNamespace(t), Attributes(RootFields(t)), PrefixDeclarations();
    PrintedPrefixes();
    RootFieldsDistinct(t);
    FieldNamesDistinct(RootFields(t));
    FieldsArePlain(RootFields(t));
    var all := d + names + q;
    forall i | 0 <= i < |all|
      ensures RootAttribute(all[i], PRINTED)
    {
    }
    assert forall i, j :: 0 <= i < j < |all| ==> all[i].name != all[j].name;
  }

  lemma PrintedFile(g: FecOti, e: FileEntry)
    ensures FileDocument(FileElement(g, e), PRINTED) && ':' !in "File"
  {
    hide Attributes, FileFields, NameOf, Decimal;
    var file := FileElement(g, e);
    FieldsArePlain(FileFields(g, e));
    var names, tag := Attributes(FileFields(g, e)), EtagAttribute(e);
    assert tag != [] ==> tag[0].name == PRINTED.of2012 + ":File-ETag";
    forall i | 0 <= i < |file.attributes|
      ensures FileAttribute(file.attributes[i].name, PRINTED)
    {
      assert i < |names| ==> file.attributes[i] == names[i];
    }
  }

  /** `to_string` prints such documents. */
  lemma PrintedIsDocument(t: Table)
    ensures Document(ToXml(t), PRINTED)
  {
    hide FileElement, FileDocument, RootFields, Attributes, NameOf;
    PrintedRootAttributes(t);
    PrintedPrefixes();
    NamespacePrinted(t);
    forall i | 0 <= i < |t.entries|
      ensures FileDocument(FileElement(t.globalOti, t.entries[i]), PRINTED)
      ensures ':' !in FileElement(t.globalOti, t.entries[i]).name
    {
      PrintedFile(t.globalOti, t.entries[i]);
      FilePrinted(t, i);
    }
    assert ToXml(t).name == "FDT-Instance";
  }
}
