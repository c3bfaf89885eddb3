/** The mutable `FileDeliveryTable` of src/FileDeliveryTable.cpp. */
module FdtObject {
  import opened Bytes
  import opened Flute
  import opened Numerals
  import opened Xml
  import opened FdtXml
  import opened FdtNames
  import opened FdtDocuments

  // ---------------------------------------------------------------------------------------------
  // What each operation does to a table
  // ---------------------------------------------------------------------------------------------

  function Next(id: U32): U32 {
    (id + 1) % 0x1_0000_0000
  }

  function NewTable(instanceId: U32, oti: FecOti, ns: FdtNamespace): Table {
    Table(instanceId, Previous(instanceId), [], oti, 0, ns)
  }

  /** A change after the table was sent starts a new instance; further changes before it is sent do not. */
  function Changed(t: Table): Table {
    if t.instanceId == t.instanceIdSent then t.(instanceId := Next(t.instanceId)) else t
  }

  function AddEntry(t: Table, e: FileEntry): Table {
    Changed(t).(entries := t.entries + [e])
  }

  function Without(entries: seq<FileEntry>, toi: U32): seq<FileEntry> {
    if entries == [] then []
    else if entries[0].toi == toi then Without(entries[1..], toi)
    else [entries[0]] + Without(entries[1..], toi)
  }

  function RemoveEntry(t: Table, toi: U32): Table {
    Changed(t).(entries := Without(t.entries, toi))
  }

  function MarkSent(t: Table): Table {
    t.(instanceIdSent := t.instanceId)
  }

  /** The instance ID as a file keeps it, in 16 bits, and a packet of the file carries it. */
  function WireId(t: Table): U16 {
    t.instanceId % 0x1_0000
  }

  /** No entry of the removed object is left, and every other entry is. */
  lemma {:induction false} WithoutKeepsOthers(entries: seq<FileEntry>, toi: U32)
    ensures forall e :: e in Without(entries, toi) <==> e in entries && e.toi != toi
  {
    if entries != [] {
      WithoutKeepsOthers(entries[1..], toi);
      assert entries == [entries[0]] + entries[1..];
    }
  }

  /** `kept` are the entries at these positions, in their order. */
  ghost predicate PickedAt(kept: seq<FileEntry>, entries: seq<FileEntry>, at: seq<nat>) {
    && |at| == |kept| && (forall i :: 0 <= i < |at| ==> at[i] < |entries| && kept[i] == entries[at[i]])
    && (forall i, j :: 0 <= i < j < |at| ==> at[i] < at[j])
  }

  function Shifted(at: seq<nat>): (r: seq<nat>)
    ensures |r| == |at| && forall i :: 0 <= i < |r| ==> r[i] > 0
  {
    seq(|at|, i requires 0 <= i < |at| => at[i] + 1)
  }

  lemma InShifted(at: seq<nat>, x: nat)
    ensures x in Shifted(at) <==> x > 0 && x - 1 in at
  {
    if x > 0 && x - 1 in at {
      var i :| 0 <= i < |at| && at[i] == x - 1;
      assert Shifted(at)[i] == x;
    }
  }

  lemma PickedBehind(kept: seq<FileEntry>, entries: seq<FileEntry>, at: seq<nat>)
    requires entries != [] && PickedAt(kept, entries[1..], at)
    ensures PickedAt(kept, entries, Shifted(at))
  {
    assert forall i :: 0 <= i < |kept| ==> kept[i] == entries[1..][at[i]] == entries[at[i] + 1];
  }

  lemma FirstPicked(kept: seq<FileEntry>, entries: seq<FileEntry>, at: seq<nat>)
    requires entries != [] && PickedAt(kept, entries, at) && forall i :: 0 <= i < |at| ==> at[i] > 0
    ensures PickedAt([entries[0]] + kept, entries, [0] + at)
  {
  }

  /** Exactly the positions of other objects stay, and the order is kept. */
  lemma {:induction false} WithoutKeepsOrder(entries: seq<FileEntry>, toi: U32) returns (at: seq<nat>)
    ensures PickedAt(Without(entries, toi), entries, at)
    ensures forall x: nat :: x < |entries| ==> (x in at <==> entries[x].toi != toi)
  {
    hide PickedAt, Shifted;
    if entries == [] {
      at := [];
      assert PickedAt(Without(entries, toi), entries, at) by {
        NothingPicked();
      }
    } else {
      var rest := WithoutKeepsOrder(entries[1..], toi);
      PickedBehind(Without(entries[1..], toi), entries, rest);
      FirstPicked(Without(entries[1..], toi), entries, Shifted(rest));
      at := if entries[0].toi == toi then Shifted(rest) else [0] + Shifted(rest);
      forall x: nat | x < |entries|
        ensures x in at <==> entries[x].toi != toi
      {
        InShifted(rest, x);
        if x > 0 {
          assert entries[1..][x - 1] == entries[x];
        }
      }
    }
  }

  lemma NothingPicked()
    ensures PickedAt([], [], [])
  {
  }

  // ---------------------------------------------------------------------------------------------
  // The object
  // ---------------------------------------------------------------------------------------------

  class FileDeliveryTable {
    var instanceId: U32
    var instanceIdSent: U32
    var fileEntries: seq<FileEntry>
    var globalFecOti: FecOti
    var expires: U64
    var fdtNamespace: FdtNamespace

    ghost function State(): Table
      reads this
    {
      Table(instanceId, instanceIdSent, fileEntries, globalFecOti, expires, fdtNamespace)
    }

    constructor (instanceId: U32, oti: FecOti, fdtNamespace: FdtNamespace)
      ensures State() == NewTable(instanceId, oti, fdtNamespace)
    {
      this.instanceId, instanceIdSent := instanceId, Previous(instanceId);
      fileEntries, globalFecOti, expires := [], oti, 0;
      this.fdtNamespace := fdtNamespace;
    }

    constructor Of(t: Table)
      ensures State() == t
    {
      instanceId, instanceIdSent, fileEntries := t.instanceId, t.instanceIdSent, t.entries;
      globalFecOti, expires, fdtNamespace := t.globalOti, t.expires, t.fdtNamespace;
    }

    method Add(e: FileEntry)
      modifies this`instanceId, this`fileEntries
      ensures State() == AddEntry(old(State()), e)
    {
      if instanceId == instanceIdSent {
        instanceId := (instanceId + 1) % 0x1_0000_0000;
      }
      fileEntries := fileEntries + [e];
    }

    method Remove(toi: U32)
      modifies this`instanceId, this`fileEntries
      ensures State() == RemoveEntry(old(State()), toi)
    {
      Erase(toi);
      if instanceId == instanceIdSent {
        instanceId := (instanceId + 1) % 0x1_0000_0000;
      }
    }

    /** Erases while iterating. */
    method Erase(toi: U32)
      modifies this`fileEntries
      ensures fileEntries == Without(old(fileEntries), toi)
    {
      var it := 0;
      while it < |fileEntries|
        invariant 0 <= it <= |fileEntries|
        invariant Without(old(fileEntries), toi) == fileEntries[..it] + Without(fileEntries[it..], toi)
        decreases |fileEntries| - it
      {
        ghost var before := fileEntries;
        SplitAt(before, it, Without(before[it + 1..], toi));
        if fileEntries[it].toi == toi {
          fileEntries := fileEntries[..it] + fileEntries[it + 1..];
          assert fileEntries[..it] == before[..it] && fileEntries[it..] == before[it + 1..];
        } else {
          it := it + 1;
        }
      }
      assert fileEntries[..it] + [] == fileEntries;
    }

    method SetExpires(at: U64)
      modifies this`expires
      ensures State() == old(State()).(expires := at)
    {
      expires := at;
    }

    method Sent()
      modifies this`instanceIdSent
      ensures State() == MarkSent(old(State()))
    {
      instanceIdSent := instanceId;
    }

    /** `to_string`, up to the element tree. */
    method Print() returns (root: Element)
      ensures root == ToXml(State())
      ensures root.name == "FDT-Instance" && |root.children| == |fileEntries|
      ensures Value(root, "Expires") == Some(Decimal(expires))
      ensures Value(root, "FEC-OTI-Maximum-Source-Block-Length") == Some(Decimal(globalFecOti.maxSourceBlockLength))
      ensures Value(root, "FEC-OTI-Encoding-Symbol-Length") == Some(Decimal(globalFecOti.encodingSymbolLength))
    {
      hide Value, Decimal;
      RootPrinted(State());
      RootOtiPrinted(State());
      var files := PrintFiles();
      return RootElement(Table(instanceId, instanceIdSent, fileEntries, globalFecOti, expires, fdtNamespace), files);
    }

    /** The loop of `to_string`. */
    method PrintFiles() returns (files: seq<Element>)
      ensures files == FileElements(globalFecOti, fileEntries)
    {
      hide FileElement;
      files := [];
      for i := 0 to |fileEntries|
        invariant files == FileElements(globalFecOti, fileEntries[..i])
      {
        FileElementsAppend(globalFecOti, fileEntries[..i], fileEntries[i]);
        assert fileEntries[..i + 1] == fileEntries[..i] + [fileEntries[i]];
        files := files + [FileElement(globalFecOti, fileEntries[i])];
      }
      assert fileEntries[..|fileEntries|] == fileEntries;
    }

    /** The parsing constructor, up to storing what it read. */
    static method Parse(instanceId: U32, root: Element) returns (r: Result<Table>)
      ensures r == ReadTable(instanceId, root)
      ensures r.Ok? ==> forall p: Prefixes :: Document(root, p) ==> TableOf(root, p, r.value)
    {
      DocumentsRead(instanceId, root);
      hide Matches, RecognisedNamespace, Found, Stoull, ReadGlobalOti, ReadFiles, FindChildren, Document, TableOf;
      var ns := Within(NO_NAMESPACES, root);
      var wanted := ElementNamespace(ns, root);
      if !Matches(ns, root.name, FDT_INSTANCE, wanted) {
        return Err("Root element is not FDT-Instance");
      }
      var fdtNamespace := RecognisedNamespace(wanted);
      if fdtNamespace.Err? {
        return Err(fdtNamespace.what);
      }
      var found := Found(ns, root, wanted);
      if EXPIRES !in found {
        return Err("undefined");
      }
      var expires := Stoull(found[EXPIRES]);
      if expires.Err? {
        return Err(expires.what);
      }
      var g := ReadGlobalOti(found);
      var entries := ParseFiles(ns, g, wanted, FindChildren(ns, root.children, FILE, wanted));
      if entries.Err? {
        return Err(entries.what);
      }
      return Ok(Table(instanceId, Previous(instanceId), entries.value, g, expires.value, fdtNamespace.value));
    }

    /** The loop of the parsing constructor over the File elements. */
    static method ParseFiles(rootNs: Namespaces, g: FecOti, wanted: string, files: seq<Element>)
      returns (r: Result<seq<FileEntry>>)
      ensures r == ReadFiles(rootNs, g, wanted, files)
    {
      ghost var read := file => ReadFile(rootNs, g, wanted, file);
      var entries: seq<FileEntry> := [];
      var i := 0;
      AfterNothing(entries, ReadAll(read, files));
      assert files[0..] == files;
      while i < |files|
        invariant 0 <= i <= |files|
        invariant ReadAll(read, files) == After(entries, ReadAll(read, files[i..]))
      {
        var e := ReadFile(rootNs, g, wanted, files[i]);
        ReadAllStep(read, files, i, entries, e);
        if e.Err? {
          return Err(e.what);
        }
        entries := entries + [e.value];
        i := i + 1;
      }
      assert files[i..] == [] && entries + [] == entries;
      return Ok(entries);
    }
  }

  lemma DocumentsRead(instanceId: U32, root: Element)
    ensures var r := ReadTable(instanceId, root);
      r.Ok? ==> forall p: Prefixes :: Document(root, p) ==> TableOf(root, p, r.value)
  {
    hide ReadTable, Document, TableOf, Value, Stoull;
    forall p: Prefixes | Document(root, p) && ReadTable(instanceId, root).Ok?
      ensures TableOf(root, p, ReadTable(instanceId, root).value)
    {
      DocumentRead(instanceId, root, p);
    }
  }

  lemma SplitAt(entries: seq<FileEntry>, it: nat, rest: seq<FileEntry>)
    requires it < |entries|
    ensures entries[it..] == [entries[it]] + entries[it + 1..] && entries[it..][1..] == entries[it + 1..]
    ensures entries[..it] + ([entries[it]] + rest) == entries[..it + 1] + rest
  {
    assert entries[..it + 1] == entries[..it] + [entries[it]];
  }

  lemma FileElementsAppend(g: FecOti, entries: seq<FileEntry>, e: FileEntry)
    ensures FileElements(g, entries + [e]) == FileElements(g, entries) + [FileElement(g, e)]
  {
  }

  ghost function After(entries: seq<FileEntry>, rest: Result<seq<FileEntry>>): Result<seq<FileEntry>> {
    if rest.Err? then rest else Ok(entries + rest.value)
  }

  lemma AfterNothing(entries: seq<FileEntry>, rest: Result<seq<FileEntry>>)
    requires entries == []
    ensures After(entries, rest) == rest
  {
    assert rest.Ok? ==> entries + rest.value == rest.value;
  }

  lemma ReadAllStep(
    read: Element -> Result<FileEntry>, files: seq<Element>, i: nat, entries: seq<FileEntry>, e: Result<FileEntry>)
    requires i < |files| && read(files[i]) == e
    ensures e.Err? ==> ReadAll(read, files[i..]) == Err(e.what)
    ensures e.Ok? ==>
      After(entries, ReadAll(read, files[i..])) == After(entries + [e.value], ReadAll(read, files[i + 1..]))
  {
    assert files[i..][1..] == files[i + 1..] && files[i..][0] == files[i];
    var rest := ReadAll(read, files[i + 1..]);
    if e.Ok? && rest.Ok? {
      assert entries + ([e.value] + rest.value) == entries + [e.value] + rest.value;
    }
  }
}
