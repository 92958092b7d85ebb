/**
 * The blueprint catalogue and the host synthesizer (engine/host_generator.py).
 *
 * Reading the blueprint directory and parsing YAML are outside the model: a
 * directory is the sequence of (file name, parsed document) pairs in the
 * order the scan visits them, and a parsed document keeps only what the
 * generator looks at.
 */
module HostGen {
  import opened Common

  /** One emulated service of a blueprint: `{port, name}`. */
  datatype Service = Service(port: int, name: string)

  /** A fake file-system facade: each path mapped to the entries listed under it. */
  type FileTree = map<string, seq<string>>

  /** The `metadata` section of a blueprint: the declared `type` and the OS label `name`. */
  datatype Metadata = Metadata(kind: Option<string>, name: Option<string>)

  /** The value under one key of a YAML mapping: the key is missing, present with a null value, or given. */
  datatype Entry<+T> = Missing | Null | Given(value: T)

  /** `mapping.get(key, default)`: the default only for a missing key; a null value reads as `None`. */
  function GetOr<T>(e: Entry<T>, default: T): Option<T>
  {
    match e
    case Missing => Some(default)
    case Null => None
    case Given(v) => Some(v)
  }

  /** The `emulation` section: the service list and the file tree. */
  datatype Emulation = Emulation(services: Entry<seq<Service>>, fileTree: Entry<FileTree>)

  /** What loading one blueprint file gives. */
  datatype Document =
    | Unreadable   // opening or parsing the file raised an error
    | NotAMapping  // the file parsed to a scalar, a list or nothing
    | Mapping(metadata: Option<Metadata>, emulation: Option<Emulation>)

  /** A blueprint directory, as (file name, document) pairs in scan order. */
  type Directory = seq<(string, Document)>

  /** Host type mapped to the names of the blueprint files registered under it. */
  type Catalog = map<string, seq<string>>

  /** The emulated-attribute part of a host record; `None` is a JSON `null`. */
  datatype HostPayload = HostPayload(
    blueprintOrig: string,
    osName: Option<string>,
    emulatedServices: Option<seq<Service>>,
    fileTree: Option<FileTree>)

  const ValidHostTypes: seq<string> := ["server", "infra", "workstation"]

  /** The payload used when a host type has no blueprint. */
  const FallbackBlueprint: HostPayload :=
    HostPayload("generic-fallback.yml", Some("Unknown OS"), Some([Service(0, "icmp/ping")]), Some(map["/" := ["README.txt"]]))

  /** The catalogue `__init__` sets up before scanning: each valid type with no blueprint. */
  const EmptyCatalog: Catalog := map["server" := [], "infra" := [], "workstation" := []]

  /** The fresh catalogue has exactly the valid host types as keys, each with no blueprint. */
  lemma EmptyCatalogKeys()
    ensures EmptyCatalog.Keys == set t | t in ValidHostTypes
    ensures forall t :: t in EmptyCatalog ==> EmptyCatalog[t] == []
    ensures NoneFound(EmptyCatalog)
  {
  }

  /** File names in a directory listing are distinct. */
  predicate DistinctNames(dir: Directory)
  {
    forall i, j :: 0 <= i < j < |dir| ==> dir[i].0 != dir[j].0
  }

  /** `metadata.type` of a document that is a mapping and has it; `None` where the scan skips the file before looking at the type. */
  function DeclaredType(doc: Document): Option<string>
  {
    match doc
    case Mapping(Some(Metadata(Some(kind), _)), _) => Some(kind)
    case _ => None
  }

  /** One step of the scan: a file is appended to the list of its declared type when that type is a catalogue key. */
  function Register(c: Catalog, entry: (string, Document)): (c': Catalog)
    ensures c'.Keys == c.Keys
    ensures forall t :: t in c ==>
      c'[t] == if DeclaredType(entry.1) == Some(t) then c[t] + [entry.0] else c[t]
  {
    match DeclaredType(entry.1)
    case Some(kind) => if kind in c then c[kind := c[kind] + [entry.0]] else c
    case None => c
  }

  /** The catalogue after scanning `dir` starting from `c`. */
  function Scan(c: Catalog, dir: Directory): Catalog
  {
    if dir == [] then c else Register(Scan(c, dir[..|dir| - 1]), dir[|dir| - 1])
  }

  /** The catalogue a new generator builds from `dir`. */
  function Catalogue(dir: Directory): Catalog
  {
    Scan(EmptyCatalog, dir)
  }

  /** Reference definition: the names of the files in `dir` that declare type `t`, in scan order. */
  function Names(dir: Directory, t: string): seq<string>
  {
    if dir == [] then []
    else (if DeclaredType(dir[0].1) == Some(t) then [dir[0].0] else []) + Names(dir[1..], t)
  }

  lemma {:induction false} NamesAppend(dir: Directory, e: (string, Document), t: string)
    ensures Names(dir + [e], t) == Names(dir, t) + (if DeclaredType(e.1) == Some(t) then [e.0] else [])
  {
    if dir != [] {
      assert (dir + [e])[0] == dir[0];
      assert (dir + [e])[1..] == dir[1..] + [e];
      NamesAppend(dir[1..], e, t);
    }
  }

  lemma AppendAssoc(a: seq<string>, b: seq<string>, e: seq<string>)
    ensures a + b + e == a + (b + e)
  {
  }

  /** `Names` read from the end: the last file contributes last. */
  lemma NamesLast(dir: Directory, t: string)
    requires dir != []
    ensures Names(dir, t) == Names(dir[..|dir| - 1], t)
      + (if DeclaredType(dir[|dir| - 1].1) == Some(t) then [dir[|dir| - 1].0] else [])
  {
    var init, last := dir[..|dir| - 1], dir[|dir| - 1];
    assert init + [last] == dir;
    NamesAppend(init, last, t);
  }

  /** Scanning keeps the keys of the catalogue. */
  lemma {:induction false} ScanKeys(c: Catalog, dir: Directory)
    ensures Scan(c, dir).Keys == c.Keys
  {
    if dir != [] {
      ScanKeys(c, dir[..|dir| - 1]);
    }
  }

  /** Scanning grows the list of each key `t` by exactly the files declaring `t`, in scan order. */
  lemma {:induction false} ScanIsFilter(c: Catalog, dir: Directory, t: string)
    requires t in c
    ensures t in Scan(c, dir)
    ensures Scan(c, dir)[t] == c[t] + Names(dir, t)
  {
    ScanKeys(c, dir);
    if dir != [] {
      var init := dir[..|dir| - 1];
      var last := dir[|dir| - 1];
      var added := if DeclaredType(last.1) == Some(t) then [last.0] else [];
      ScanIsFilter(c, init, t);
      assert Scan(c, dir)[t] == Scan(c, init)[t] + added by {
        ScanKeys(c, init);
        assert Scan(c, dir) == Register(Scan(c, init), last);
      }
      NamesLast(dir, t);
      AppendAssoc(c[t], Names(init, t), added);
    }
  }

  /** A name is listed for `t` exactly when some file of that name declares `t`. */
  lemma {:induction false} NamesMember(dir: Directory, t: string, n: string)
    ensures n in Names(dir, t) <==> exists i :: 0 <= i < |dir| && dir[i].0 == n && DeclaredType(dir[i].1) == Some(t)
  {
    if dir != [] {
      NamesMember(dir[1..], t, n);
      if n in Names(dir[1..], t) {
        var i :| 0 <= i < |dir[1..]| && dir[1..][i].0 == n && DeclaredType(dir[1..][i].1) == Some(t);
        assert dir[i + 1] == dir[1..][i];
      }
      if exists i :: 0 <= i < |dir| && dir[i].0 == n && DeclaredType(dir[i].1) == Some(t) {
        var i :| 0 <= i < |dir| && dir[i].0 == n && DeclaredType(dir[i].1) == Some(t);
        if i > 0 { assert dir[1..][i - 1] == dir[i]; }
      }
    }
  }

  /**
   * A new catalogue has exactly the three valid types as keys, and lists
   * a file under `t` exactly when the file is a mapping declaring type `t`;
   * every other file (unreadable, not a mapping, no `metadata.type`, an
   * unknown type) is in no list.
   */
  lemma CatalogueContents(dir: Directory, t: string, n: string)
    ensures Catalogue(dir).Keys == {"server", "infra", "workstation"}
    ensures t in Catalogue(dir) <==> t in ValidHostTypes
    ensures t in Catalogue(dir) ==>
      (n in Catalogue(dir)[t] <==> exists i :: 0 <= i < |dir| && dir[i].0 == n && DeclaredType(dir[i].1) == Some(t))
  {
    ScanKeys(EmptyCatalog, dir);
    if t in EmptyCatalog {
      ScanIsFilter(EmptyCatalog, dir, t);
      NamesMember(dir, t, n);
    }
  }

  /** True when every list of the catalogue is empty: the fatal case of the scan. */
  predicate NoneFound(c: Catalog)
  {
    forall t :: t in c ==> c[t] == []
  }

  /** The scan registers the file: it is a mapping whose `metadata.type` is a valid type. */
  predicate Accepted(doc: Document)
  {
    DeclaredType(doc).Some? && DeclaredType(doc).value in ValidHostTypes
  }

  /** An accepted file is listed under its type, so that list is not empty. */
  lemma AcceptedIsListed(dir: Directory, i: nat)
    requires i < |dir| && Accepted(dir[i].1)
    ensures DeclaredType(dir[i].1).value in Catalogue(dir)
    ensures Catalogue(dir)[DeclaredType(dir[i].1).value] != []
  {
    var t := DeclaredType(dir[i].1).value;
    ScanIsFilter(EmptyCatalog, dir, t);
    NamesMember(dir, t, dir[i].0);
  }

  /** A non-empty list of the catalogue comes from an accepted file. */
  lemma ListedIsAccepted(dir: Directory, t: string)
    requires t in Catalogue(dir) && Catalogue(dir)[t] != []
    ensures exists i :: 0 <= i < |dir| && Accepted(dir[i].1)
  {
    ScanKeys(EmptyCatalog, dir);
    ScanIsFilter(EmptyCatalog, dir, t);
    var n := Catalogue(dir)[t][0];
    NamesMember(dir, t, n);
    var i :| 0 <= i < |dir| && dir[i].0 == n && DeclaredType(dir[i].1) == Some(t);
    assert Accepted(dir[i].1);
  }

  /** Indexing fails exactly when no file of the directory is accepted. */
  lemma CatalogueEmptyIff(dir: Directory)
    ensures NoneFound(Catalogue(dir)) <==> forall i :: 0 <= i < |dir| ==> !Accepted(dir[i].1)
  {
    if exists i :: 0 <= i < |dir| && Accepted(dir[i].1) {
      var i :| 0 <= i < |dir| && Accepted(dir[i].1);
      AcceptedIsListed(dir, i);
    }
    if !NoneFound(Catalogue(dir)) {
      var t :| t in Catalogue(dir) && Catalogue(dir)[t] != [];
      ListedIsAccepted(dir, t);
    }
  }

  /** The document of the file called `name`, as reopening it finds it. */
  function Find(dir: Directory, name: string): Option<Document>
  {
    if dir == [] then None
    else if dir[0].0 == name then Some(dir[0].1)
    else Find(dir[1..], name)
  }

  lemma {:induction false} FindAt(dir: Directory, i: nat)
    requires DistinctNames(dir) && i < |dir|
    ensures Find(dir, dir[i].0) == Some(dir[i].1)
  {
    if i > 0 {
      assert dir[1..][i - 1] == dir[i];
      FindAt(dir[1..], i - 1);
    }
  }

  /** Every name in the catalogue reopens as a mapping declaring the type it is listed under. */
  predicate CatalogueSound(c: Catalog, dir: Directory)
  {
    forall t, n :: t in c && n in c[t] ==>
      Find(dir, n).Some? && Find(dir, n).value.Mapping? && DeclaredType(Find(dir, n).value) == Some(t)
  }

  /** The catalogue built from a directory listing only names files that reopen as valid blueprints. */
  lemma CatalogueIsSound(dir: Directory)
    requires DistinctNames(dir)
    ensures CatalogueSound(Catalogue(dir), dir)
  {
    forall t, n | t in Catalogue(dir) && n in Catalogue(dir)[t]
      ensures Find(dir, n).Some? && Find(dir, n).value.Mapping? && DeclaredType(Find(dir, n).value) == Some(t)
    {
      CatalogueContents(dir, t, n);
      var i :| 0 <= i < |dir| && dir[i].0 == n && DeclaredType(dir[i].1) == Some(t);
      FindAt(dir, i);
    }
  }

  /** `catalog.get(node_type, [])`: the blueprint names available for a host type. */
  function Available(c: Catalog, nodeType: string): (names: seq<string>)
    ensures nodeType !in c ==> names == []
  {
    if nodeType in c then c[nodeType] else []
  }

  /** `pick` is an index `random.choice` could draw from the available names. */
  predicate PickFits(c: Catalog, nodeType: string, pick: nat)
  {
    Available(c, nodeType) != [] ==> pick < |Available(c, nodeType)|
  }

  /**
   * `generate_host(node_type)` of a generator with catalogue `c` over `dir`,
   * `pick` being the index `random.choice` draws: the fallback payload when
   * no blueprint is available for the type (an unknown type included),
   * otherwise the chosen file's OS label, service list and file tree, with
   * `[]` and `{}` for a missing list or tree and `null` for a null one.
   */
  function GenerateHost(c: Catalog, dir: Directory, nodeType: string, pick: nat): (p: HostPayload)
    requires CatalogueSound(c, dir)
    requires PickFits(c, nodeType, pick)
    ensures Available(c, nodeType) == [] ==> p == FallbackBlueprint
    ensures Available(c, nodeType) != [] ==>
      && p.blueprintOrig in Available(c, nodeType)
      && p.blueprintOrig == Available(c, nodeType)[pick]
      && Find(dir, p.blueprintOrig).Some?
      && var doc := Find(dir, p.blueprintOrig).value;
         && doc.Mapping?
         && p.osName == doc.metadata.value.name
         && (doc.emulation.None? || doc.emulation.value.services.Missing? ==> p.emulatedServices == Some([]))
         && (doc.emulation.Some? && doc.emulation.value.services.Null? ==> p.emulatedServices.None?)
         && (doc.emulation.Some? && doc.emulation.value.services.Given? ==>
               p.emulatedServices == Some(doc.emulation.value.services.value))
         && (doc.emulation.None? || doc.emulation.value.fileTree.Missing? ==> p.fileTree == Some(map[]))
         && (doc.emulation.Some? && doc.emulation.value.fileTree.Null? ==> p.fileTree.None?)
         && (doc.emulation.Some? && doc.emulation.value.fileTree.Given? ==>
               p.fileTree == Some(doc.emulation.value.fileTree.value))
  {
    var available := Available(c, nodeType);
    if available == [] then FallbackBlueprint
    else
      var name := available[pick];
      var doc := Find(dir, name).value;
      var emulation := if doc.emulation.Some? then doc.emulation.value else Emulation(Missing, Missing);
      HostPayload(name, doc.metadata.value.name, GetOr(emulation.services, []), GetOr(emulation.fileTree, map[]))
  }

  /** The failure `__init__` raises when the directory holds no valid blueprint. */
  datatype IndexError = NoValidBlueprints

  class HostGenerator {
    const directory: Directory
    var catalog: Catalog

    /** `__init__` before the scan: every valid type mapped to an empty list. */
    constructor (directory: Directory)
      ensures this.directory == directory
      ensures catalog == EmptyCatalog
    {
      this.directory := directory;
      catalog := EmptyCatalog;
    }

    /**
     * `_index_blueprints`: append each valid file's name to the list of its
     * type, skipping the others; `ok` is false in the fatal case, when all
     * lists are still empty after the scan.
     */
    method IndexBlueprints() returns (ok: bool)
      modifies this
      ensures catalog == Scan(old(catalog), directory)
      ensures ok <==> !NoneFound(catalog)
    {
      var i := 0;
      while i < |directory|
        invariant 0 <= i <= |directory|
        invariant catalog == Scan(old(catalog), directory[..i])
      {
        var name := directory[i].0;
        var doc := directory[i].1;
        if doc.Mapping? && doc.metadata.Some? && doc.metadata.value.kind.Some? {
          var kind := doc.metadata.value.kind.value;
          if kind in catalog {
            catalog := catalog[kind := catalog[kind] + [name]];
          }
        }
        assert directory[..i + 1][..i] == directory[..i];
        i := i + 1;
      }
      assert directory[..i] == directory;
      ok := exists t | t in catalog :: catalog[t] != [];
    }

    /** `HostGenerator(path)`: a generator over `directory`, or the fatal error when it holds no valid blueprint. */
    static method Create(directory: Directory) returns (r: Result<HostGenerator, IndexError>)
      ensures r.Failure? <==> NoneFound(Catalogue(directory))
      ensures r.Failure? ==> r.error == NoValidBlueprints
      ensures r.Success? ==> fresh(r.value) && r.value.directory == directory
      ensures r.Success? ==> r.value.catalog == Catalogue(directory)
    {
      var g := new HostGenerator(directory);
      var ok := g.IndexBlueprints();
      if ok {
        r := Success(g);
      } else {
        r := Failure(NoValidBlueprints);
      }
    }
  }
}
