/** The directory tree stored on a volume, and what get_file makes of it. */
module FatTree {
  import opened Bytes
  import opened Disk
  import opened FatVolume
  import opened FatNames
  import opened FatListing
  import opened FatPath

  datatype Node = FileNode(info: FileInfo) | DirNode(entries: map<seq<byte>, Node>)

  /** The entries "." and "..", which no tree of directories contains. */
  predicate IsDots(name: seq<byte>) {
    name == [0x2E] || name == [0x2E, 0x2E]
  }

  predicate UniqueNames(files: seq<FileInfo>) {
    forall i, j :: 0 <= i < j < |files| ==> files[i].name != files[j].name
  }

  /** The directory stored from cluster c on is this node: its entries are the node's, the directories
      among them are stored as the node's subdirectories, and no name occurs twice. */
  ghost predicate Represents(card: Card, v: Volume, c: nat, t: Node)
    decreases t
  {
    && t.DirNode? && HasChain(card, v, c)
    && var files := ListFrom(RecordsOf(card, v, c), 0);
       && UniqueNames(files)
       && (forall name :: name in t.entries ==> Listed(files, name))
       && (forall f :: f in files && !IsDots(f.name) ==>
             && f.name in t.entries
             && if f.isDirectory then Represents(card, v, f.cluster, t.entries[f.name])
                else t.entries[f.name] == FileNode(f))
  }

  ghost predicate Listed(files: seq<FileInfo>, name: seq<byte>) {
    exists f :: f in files && f.name == name
  }

  /** The names lead to a file: through directories to an entry that is none. */
  predicate Leads(t: Node, names: seq<seq<byte>>, info: FileInfo)
    decreases |names|
  {
    && t.DirNode? && |names| > 0 && names[0] in t.entries
    && if |names| == 1 then t.entries[names[0]] == FileNode(info) else Leads(t.entries[names[0]], names[1..], info)
  }

  ghost predicate NoDots(names: seq<seq<byte>>) {
    |names| > 0 && forall i :: 0 <= i < |names| ==> !IsDots(names[i])
  }

  // ----- searching one directory -----

  lemma {:induction false} PickFails(files: seq<FileInfo>, marked: bool, name: seq<byte>, final: bool)
    requires !Listed(files, name)
    ensures Pick(files, marked, name, final).Failed?
    decreases |files|
  {
    if files != [] {
      assert files[0] in files;
      forall f | f in files[1..] ensures f.name != name {
        assert f in files;
      }
      PickFails(files[1..], marked, name, final);
    }
  }

  /** Where names are unique, the search finds the entry of that name if it is of the right kind. */
  lemma {:induction false} PickFinds(files: seq<FileInfo>, marked: bool, f: FileInfo, final: bool)
    requires UniqueNames(files) && f in files
    ensures var outcome := Pick(files, marked, f.name, final);
            if f.isDirectory != final then outcome == Outcome.Found(f) else outcome.Failed?
    decreases |files|
  {
    if files[0] == f {
      if !f.isDirectory && !final {
        forall g | g in files[1..] ensures g.name != f.name {
          var i :| 0 <= i < |files[1..]| && files[1..][i] == g;
          assert files[1 + i] == g;
        }
        PickFails(files[1..], marked, f.name, final);
      }
    } else {
      var i :| 0 <= i < |files| && files[i] == f;
      assert files[1..][i - 1] == f;
      assert files[0].name != f.name;
      PickFinds(files[1..], marked, f, final);
    }
  }

  // ----- walking the tree -----

  /** One step, in the tree and on the card. */
  lemma SearchNode(card: Card, v: Volume, c: nat, t: Node, name: seq<byte>, final: bool)
    requires Represents(card, v, c, t) && !IsDots(name)
    ensures match Search(card, v, c, name, final)
            case Found(f) => name in t.entries && if final then t.entries[name] == FileNode(f)
                                                  else Represents(card, v, f.cluster, t.entries[name])
            case Failed(_) => name in t.entries ==> t.entries[name].FileNode? != final
  {
    var recs := RecordsOf(card, v, c);
    var files := ListFrom(recs, 0);
    if name in t.entries {
      assert Listed(files, name);
      var f :| f in files && f.name == name;
      PickFinds(files, Marked(recs, 0), f, final);
    } else {
      assert !Listed(files, name);
      PickFails(files, Marked(recs, 0), name, final);
    }
  }

  /** On a volume that stores a tree, the walk is never stranded, and it ends with a file exactly when the
      names lead to that file in the tree. */
  lemma {:induction false} ResolveIsLookup(card: Card, v: Volume, c: nat, t: Node, names: seq<seq<byte>>)
    requires Represents(card, v, c, t) && NoDots(names)
    ensures Walkable(card, v, c, names)
    ensures forall info :: Resolve(card, v, c, names) == Outcome.Found(info) <==> Leads(t, names, info)
    decreases |names|
  {
    SearchNode(card, v, c, t, names[0], |names| == 1);
    if |names| > 1 {
      match Search(card, v, c, names[0], false)
      case Found(d) =>
        assert NoDots(names[1..]);
        ResolveIsLookup(card, v, d.cluster, t.entries[names[0]], names[1..]);
      case Failed(_) =>
    }
  }

  /** get_file on an absolute path agrees with the lookup in the tree. */
  method FindFile(card: Card, v: Volume, path: seq<byte>, ghost t: Node) returns (err: FatError, info: FileInfo)
    requires |path| > 0 && path[0] == 0x2F && 0 !in path
    requires Represents(card, v, v.root, t) && NoDots(Components(path[1..]))
    ensures err == ReadFail ==> !card.reliable
    ensures err == Success ==> Leads(t, Components(path[1..]), info)
    ensures err != Success && err != ReadFail ==> forall i :: !Leads(t, Components(path[1..]), i)
  {
    ResolveIsLookup(card, v, v.root, t, Components(path[1..]));
    err, info := GetFile(card, v, path);
  }
}
