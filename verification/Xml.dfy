/** Element trees and the namespace lookups of src/FileDeliveryTable.cpp:24-123. */
module Xml {
  import opened Bytes

  datatype Attribute = Attribute(name: string, value: string)

  datatype Element = Element(name: string, attributes: seq<Attribute>, children: seq<Element>, text: string)

  /** The default namespace and the prefixes in scope. */
  datatype Namespaces = Namespaces(defaultNs: string, prefixes: map<string, string>)

  const NO_NAMESPACES := Namespaces("", map[])

  /** The position of the first colon. */
  function FirstColon(s: string): (r: Option<nat>)
    ensures r.Some? ==> r.value < |s| && s[r.value] == ':'
  {
    if s == "" then None
    else if s[0] == ':' then Some(0)
    else
      match FirstColon(s[1..])
      case None => None
      case Some(i) => Some(i + 1)
  }

  const XMLNS := "xmlns"

  /** The declarations of one attribute; a prefix that is already known keeps its namespace. */
  function Declare(ns: Namespaces, a: Attribute): Namespaces {
    if a.name == XMLNS then ns.(defaultNs := a.value)
    else if |a.name| >= 6 && a.name[..6] == XMLNS + ":" then
      if a.name[6..] in ns.prefixes then ns else ns.(prefixes := ns.prefixes[a.name[6..] := a.value])
    else ns
  }

  function DeclareAll(ns: Namespaces, attributes: seq<Attribute>): Namespaces
    decreases |attributes|
  {
    if attributes == [] then ns else DeclareAll(Declare(ns, attributes[0]), attributes[1..])
  }

  /** The namespaces in scope inside an element. */
  function Within(ns: Namespaces, e: Element): Namespaces {
    DeclareAll(ns, e.attributes)
  }

  /** `matches`: an unknown prefix stands for itself. */
  predicate Matches(ns: Namespaces, prefixedName: string, name: string, wanted: string) {
    match FirstColon(prefixedName)
    case None => name == prefixedName && wanted == ns.defaultNs
    case Some(i) =>
      var prefix := prefixedName[..i];
      name == prefixedName[i + 1..] && wanted == if prefix in ns.prefixes then ns.prefixes[prefix] else prefix
  }

  function ElementNamespace(ns: Namespaces, e: Element): string {
    match FirstColon(e.name)
    case None => ns.defaultNs
    case Some(i) => if e.name[..i] in ns.prefixes then ns.prefixes[e.name[..i]] else "<Unknown>"
  }

  function FindIn(ns: Namespaces, attributes: seq<Attribute>, name: string, wanted: string): Option<string> {
    if attributes == [] then None
    else if Matches(ns, attributes[0].name, name, wanted) then Some(attributes[0].value)
    else FindIn(ns, attributes[1..], name, wanted)
  }

  /** `findAttribute`: unprefixed attributes are in the namespace of their element. */
  function FindAttribute(ns: Namespaces, e: Element, name: string, wanted: string): Option<string> {
    FindIn(ns.(defaultNs := ElementNamespace(ns, e)), e.attributes, name, wanted)
  }

  /** The children `findChildElement` and then `findSiblingElement` go through. */
  function FindChildren(ns: Namespaces, children: seq<Element>, name: string, wanted: string): seq<Element> {
    if children == [] then []
    else
      (if Matches(Within(ns, children[0]), children[0].name, name, wanted) then [children[0]] else [])
      + FindChildren(ns, children[1..], name, wanted)
  }

  function FindChild(ns: Namespaces, e: Element, name: string, wanted: string): Option<Element> {
    var found := FindChildren(ns, e.children, name, wanted);
    if found == [] then None else Some(found[0])
  }

  // ---------------------------------------------------------------------------------------------
  // Lookups in lists put together from parts
  // ---------------------------------------------------------------------------------------------

  lemma {:induction false} NoColon(s: string)
    requires ':' !in s
    ensures FirstColon(s) == None
  {
    if s != "" {
      NoColon(s[1..]);
    }
  }

  lemma {:induction false} ColonAfterPrefix(prefix: string, name: string)
    requires ':' !in prefix
    ensures FirstColon(prefix + ":" + name) == Some(|prefix|)
    ensures (prefix + ":" + name)[..|prefix|] == prefix && (prefix + ":" + name)[|prefix| + 1..] == name
  {
    if prefix != "" {
      assert (prefix + ":" + name)[1..] == prefix[1..] + ":" + name;
      ColonAfterPrefix(prefix[1..], name);
    }
  }

  lemma {:induction false} FindConcat(ns: Namespaces, a: seq<Attribute>, b: seq<Attribute>, name: string,
          wanted: string)
    ensures FindIn(ns, a + b, name, wanted) ==
            if FindIn(ns, a, name, wanted).Some? then FindIn(ns, a, name, wanted) else FindIn(ns, b, name, wanted)
  {
    if a == [] {
      assert a + b == b;
    } else {
      assert (a + b)[1..] == a[1..] + b;
      FindConcat(ns, a[1..], b, name, wanted);
    }
  }

  lemma {:induction false} DeclareConcat(ns: Namespaces, a: seq<Attribute>, b: seq<Attribute>)
    ensures DeclareAll(ns, a + b) == DeclareAll(DeclareAll(ns, a), b)
    decreases |a|
  {
    if a == [] {
      assert a + b == b;
    } else {
      assert (a + b)[1..] == a[1..] + b;
      DeclareConcat(Declare(ns, a[0]), a[1..], b);
    }
  }

  /** Attributes that declare nothing. */
  lemma {:induction false} NothingDeclared(ns: Namespaces, attributes: seq<Attribute>)
    requires forall i :: 0 <= i < |attributes| ==>
               attributes[i].name != XMLNS && (|attributes[i].name| >= 6 ==> attributes[i].name[..6] != XMLNS + ":")
    ensures DeclareAll(ns, attributes) == ns
  {
    if attributes != [] {
      NothingDeclared(ns, attributes[1..]);
    }
  }

  /** A prefixed name: its local part, in the namespace its prefix is declared for, or else named by the prefix. */
  lemma PrefixResolves(ns: Namespaces, prefix: string, local: string, name: string, wanted: string)
    requires ':' !in prefix
    ensures Matches(ns, prefix + ":" + local, name, wanted) <==>
            local == name && wanted == if prefix in ns.prefixes then ns.prefixes[prefix] else prefix
    ensures ':' !in local ==> (Matches(ns, local, name, wanted) <==> local == name && wanted == ns.defaultNs)
  {
    ColonAfterPrefix(prefix, local);
    if ':' !in local {
      NoColon(local);
    }
  }

  /** The namespace of an element, which is also that of its attributes without prefix. */
  lemma ElementResolves(ns: Namespaces, e: Element, prefix: string, local: string)
    requires ':' !in prefix && ':' !in local
    ensures e.name == prefix + ":" + local ==>
              ElementNamespace(ns, e) == if prefix in ns.prefixes then ns.prefixes[prefix] else "<Unknown>"
    ensures e.name == local ==> ElementNamespace(ns, e) == ns.defaultNs
  {
    ColonAfterPrefix(prefix, local);
    NoColon(local);
  }

  /** An inner default namespace replaces the outer one; of a prefix the outermost declaration counts. */
  lemma DeclarationsResolve(ns: Namespaces, prefix: string, uri: string)
    ensures Declare(ns, Attribute("xmlns", uri)) == Namespaces(uri, ns.prefixes)
    ensures Declare(ns, Attribute("xmlns:" + prefix, uri)) ==
            if prefix in ns.prefixes then ns else Namespaces(ns.defaultNs, ns.prefixes[prefix := uri])
  {
    var name := "xmlns:" + prefix;
    assert name[..6] == "xmlns:" && name[6..] == prefix && name[5] == ':';
  }
}
