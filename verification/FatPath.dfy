/** The path walker of src/driver/fs/FAT32.c (get_file), against a lookup in the abstract tree of
    directories. */
module FatPath {
  import opened Bytes
  import opened Disk
  import opened FatVolume
  import opened FatGeometry
  import opened FatNames
  import opened FatNameReading
  import opened FatDir
  import opened FatListing

  const SLASH: byte := 0x2F

  // ----- paths -----

  /** The characters before the first slash. */
  function Word(p: seq<byte>): (w: seq<byte>)
    ensures |w| <= |p| && w == p[..|w|] && SLASH !in w && (|w| < |p| ==> p[|w|] == SLASH)
  {
    if p == [] || p[0] == SLASH then [] else [p[0]] + Word(p[1..])
  }

  /** The names a path (without its first character) goes through: empty ones do not count, except the
      last; a name is cut to 255 characters. */
  function Components(p: seq<byte>): (names: seq<seq<byte>>)
    ensures |names| > 0
    decreases |p|
  {
    var w := Word(p);
    if |w| == |p| then [Cut(p)]
    else if w == [] then Components(p[1..])
    else [Cut(w)] + Components(p[|w| + 1..])
  }

  /** Names joined by single slashes, character 0x2F. */
  function JoinedPath(names: seq<seq<byte>>): seq<byte>
    requires |names| > 0
  {
    if |names| == 1 then names[0] else names[0] + [0x2F] + JoinedPath(names[1..])
  }

  predicate PlainName(name: seq<byte>) {
    0 < |name| <= 255 && 0x2F !in name
  }

  lemma WordOf(w: seq<byte>, rest: seq<byte>)
    requires SLASH !in w && (rest != [] ==> rest[0] == SLASH)
    ensures Word(w + rest) == w
  {
    assert (w + rest)[..|w|] == w;
  }

  lemma OneComponent(w: seq<byte>, p: seq<byte>)
    requires SLASH !in w && w != []
    ensures Components(w + [SLASH] + p) == [Cut(w)] + Components(p)
  {
    var path := w + [SLASH] + p;
    assert path == w + ([SLASH] + p);
    WordOf(w, [SLASH] + p);
    assert path[|w| + 1..] == p;
  }

  lemma LastComponent(w: seq<byte>)
    requires SLASH !in w
    ensures Components(w) == [Cut(w)]
  {
    WordOf(w, []);
    assert w + [] == w;
  }

  ghost predicate PlainNames(names: seq<seq<byte>>) {
    |names| > 0 && forall i :: 0 <= i < |names| ==> PlainName(names[i])
  }

  lemma PlainParts(names: seq<seq<byte>>)
    requires PlainNames(names)
    ensures PlainName(names[0]) && Cut(names[0]) == names[0]
    ensures |names| > 1 ==> PlainNames(names[1..])
    ensures names == if |names| == 1 then [names[0]] else [names[0]] + names[1..]
  {
    assert PlainName(names[0]);
  }

  /** Splitting a joined path gives back its names. */
  lemma {:induction false} SplitJoined(names: seq<seq<byte>>)
    requires PlainNames(names)
    ensures Components(JoinedPath(names)) == names
    decreases |names|
  {
    PlainParts(names);
    if |names| == 1 {
      LastComponent(names[0]);
    } else {
      SplitJoined(names[1..]);
      OneComponent(names[0], JoinedPath(names[1..]));
    }
  }

  /** A slash more changes nothing, neither at the start nor behind a name. */
  lemma ExtraSlash(name: seq<byte>, p: seq<byte>)
    requires PlainName(name)
    ensures Components([0x2F] + p) == Components(p)
    ensures Components(name + [0x2F] + ([0x2F] + p)) == Components(name + [0x2F] + p)
  {
    assert ([SLASH] + p)[1..] == p;
    OneComponent(name, [SLASH] + p);
    OneComponent(name, p);
  }

  // ----- what the walk finds -----

  datatype Outcome = Found(info: FileInfo) | Failed(err: FatError)

  /** Searching one directory's list: on the way, the first directory of that name; at the end of the
      path, the first entry of that name, which must be no directory. */
  function Pick(files: seq<FileInfo>, marked: bool, name: seq<byte>, final: bool): Outcome {
    if files == [] then Failed(if marked then FileNotFound else EndOfChain)
    else if files[0].name == name && (files[0].isDirectory || final) then
      if final && files[0].isDirectory then Failed(FileNotFound) else Outcome.Found(files[0])
    else Pick(files[1..], marked, name, final)
  }

  ghost predicate HasChain(card: Card, v: Volume, c: nat) {
    exists ch :: Chain(card, v, ch) && ch[0] == c
  }

  /** The chain of a cluster. There is only one (FatGeometry.ChainUnique). */
  ghost function ChainOf(card: Card, v: Volume, c: nat): (ch: seq<nat>)
    requires HasChain(card, v, c)
    ensures Chain(card, v, ch) && ch[0] == c && OnCard(card, v, ch)
  {
    var ch :| Chain(card, v, ch) && ch[0] == c;
    ChainOnCard(card, v, ch);
    ch
  }

  /** The records of the directory that starts at cluster c. */
  ghost function RecordsOf(card: Card, v: Volume, c: nat): seq<Record>
    requires HasChain(card, v, c)
  {
    DirRecords(card, v, ChainOf(card, v, c))
  }

  ghost function Search(card: Card, v: Volume, c: nat, name: seq<byte>, final: bool): Outcome
    requires HasChain(card, v, c)
  {
    var recs := RecordsOf(card, v, c);
    Pick(ListFrom(recs, 0), Marked(recs, 0), name, final)
  }

  /** Every directory the walk enters has a proper chain. This leaves out the walk through ".." to the
      root, which is stored as cluster 0. */
  ghost predicate Walkable(card: Card, v: Volume, c: nat, names: seq<seq<byte>>)
    decreases |names|
  {
    && HasChain(card, v, c)
    && (|names| > 1 ==>
          match Search(card, v, c, names[0], false)
          case Found(d) => Walkable(card, v, d.cluster, names[1..])
          case Failed(_) => true)
  }

  ghost function Resolve(card: Card, v: Volume, c: nat, names: seq<seq<byte>>): Outcome
    requires |names| > 0 && Walkable(card, v, c, names)
    decreases |names|
  {
    if |names| == 1 then Search(card, v, c, names[0], true)
    else match Search(card, v, c, names[0], false)
         case Found(d) => Resolve(card, v, d.cluster, names[1..])
         case Failed(err) => Failed(err)
  }

  // ----- the walker -----

  /** The name at position `start` of the path, and where the next one starts, if it is not the last. */
  ghost predicate NextName(path: seq<byte>, start: nat, w: seq<byte>, next: nat, final: bool) {
    && start <= next <= |path| && w == Word(path[start..])
    && final == (start + |w| == |path|)
    && next == if final then |path| else start + |w| + 1
  }

  /** The loop that copies one component of the path into the name buffer, and the step over the slash. */
  method ReadComponent(path: seq<byte>, start: nat, nameBuffer: array<byte>) returns (next: nat, final: bool)
    requires start <= |path| && nameBuffer.Length == 256
    modifies nameBuffer
    ensures Holds(nameBuffer[..], Cut(Word(path[start..])))
    ensures NextName(path, start, Word(path[start..]), next, final)
  {
    var i, p := 0, start;
    while p < |path| && path[p] != SLASH
      invariant start <= p <= |path| && SLASH !in path[start..p]
      invariant Holding(nameBuffer[..], path[start..p], i)
    {
      if i < 255 {
        nameBuffer[i] := path[p];
        i := i + 1;
      }
      p := p + 1;
      HoldsMore(path, start, p);
    }
    nameBuffer[i] := 0;
    WordEnds(path, start, p);
    final := p == |path|;
    next := if final then p else p + 1;
  }

  /** The buffer's first i bytes are the word so far, cut. */
  predicate Holding(buffer: seq<byte>, w: seq<byte>, i: nat) {
    |buffer| == 256 && i == |Cut(w)| && buffer[..i] == Cut(w)
  }

  lemma HoldsMore(path: seq<byte>, start: nat, p: nat)
    requires start < p <= |path|
    ensures path[start..p] == path[start..p - 1] + [path[p - 1]]
  {
  }

  lemma WordEnds(path: seq<byte>, start: nat, p: nat)
    requires start <= p <= |path| && SLASH !in path[start..p] && (p < |path| ==> path[p] == SLASH)
    ensures Word(path[start..]) == path[start..p]
  {
    assert path[start..] == path[start..p] + path[p..];
    WordOf(path[start..p], path[p..]);
  }

  /** One search result, in the terms of Pick. */
  ghost predicate Answer(outcome: Outcome, err: FatError, info: FileInfo) {
    match outcome
    case Found(i) => err == Success && info == i
    case Failed(e) => err == e && err != Success
  }

  /** The do-while loop: from the cursor on, to the entry looked for. */
  method SearchOn(card: Card, v: Volume, iter: DirIterator, name: seq<byte>, final: bool, ghost recs: seq<Record>)
    returns (err: FatError, info: FileInfo)
    requires iter.Ready(card, v) && iter.lfnChecksum == 0 && recs == DirRecords(card, v, iter.chain)
    modifies iter, iter.buffer
    ensures err == ReadFail ==> !card.reliable
    ensures err != ReadFail ==> var i := old(iter.idx);
                                Answer(Pick(ListFrom(recs, i), Marked(recs, i), name, final), err, info)
  {
    ghost var outcome := Pick(ListFrom(recs, iter.idx), Marked(recs, iter.idx), name, final);
    while true
      invariant iter.Ready(card, v) && iter.lfnChecksum == 0 && iter.chain == old(iter.chain)
      invariant outcome == Pick(ListFrom(recs, iter.idx), Marked(recs, iter.idx), name, final)
      decreases |recs| - iter.idx
    {
      ghost var idx := iter.idx;
      err, info := iter.Next(card, v);
      if err != ReadFail {
        FindsPicked(recs, idx, err, info, iter.idx, name, final);
      }
      if err == Success {
        if info.name == name {
          if info.isDirectory && !final {
            return;
          } else if final && !info.isDirectory {
            return;
          } else if final && info.isDirectory {
            return FileNotFound, info;
          }
        }
      } else if err == NoMoreEntries {
        return FileNotFound, info;
      } else {
        return;
      }
    }
  }

  lemma FindsPicked(recs: seq<Record>, i: nat, err: FatError, info: FileInfo, next: nat, name: seq<byte>, final: bool)
    requires Finds(recs, i, 0, err, info, next)
    ensures err == Success ==> i < next <= |recs|
    ensures Pick(ListFrom(recs, i), Marked(recs, i), name, final)
            == if err == Success then
                 if info.name == name && (info.isDirectory || final) then
                   if final && info.isDirectory then Failed(FileNotFound) else Outcome.Found(info)
                 else Pick(ListFrom(recs, next), Marked(recs, next), name, final)
               else Failed(if err == NoMoreEntries then FileNotFound else EndOfChain)
  {
    FindsListed(recs, i, err, info, next);
  }

  /** The walk has come to a directory, with the path from pos on still to go. */
  ghost predicate Walking(card: Card, v: Volume, path: seq<byte>, pos: nat, dir: nat, outcome: Outcome) {
    && pos <= |path| && Walkable(card, v, dir, Components(path[pos..]))
    && outcome == Resolve(card, v, dir, Components(path[pos..]))
  }

  lemma WalkLast(card: Card, v: Volume, path: seq<byte>, pos: nat, dir: nat, outcome: Outcome, w: seq<byte>, next: nat)
    requires Walking(card, v, path, pos, dir, outcome) && NextName(path, pos, w, next, true)
    ensures HasChain(card, v, dir) && outcome == Search(card, v, dir, Cut(w), true)
  {
    assert w == path[pos..];
  }

  lemma WalkSkips(card: Card, v: Volume, path: seq<byte>, pos: nat, dir: nat, outcome: Outcome, next: nat)
    requires Walking(card, v, path, pos, dir, outcome) && NextName(path, pos, [], next, false)
    ensures Walking(card, v, path, next, dir, outcome) && pos < next
  {
    assert path[pos..][1..] == path[pos + 1..];
  }

  lemma WalkEnters(card: Card, v: Volume, path: seq<byte>, pos: nat, dir: nat, outcome: Outcome,
                   w: seq<byte>, next: nat)
    requires Walking(card, v, path, pos, dir, outcome) && NextName(path, pos, w, next, false) && w != []
    ensures HasChain(card, v, dir) && pos < next
    ensures match Search(card, v, dir, Cut(w), false)
            case Found(d) => Walking(card, v, path, next, d.cluster, outcome)
            case Failed(err) => outcome == Failed(err)
  {
    assert path[pos..][|w| + 1..] == path[next..];
    var names := Components(path[pos..]);
    assert names[0] == Cut(w) && names[1..] == Components(path[next..]);
  }

  lemma WalkingHere(card: Card, v: Volume, path: seq<byte>, pos: nat, dir: nat, outcome: Outcome)
    requires Walking(card, v, path, pos, dir, outcome)
    ensures HasChain(card, v, dir)
  {
  }

  /** get_file: what the walk over the path's names finds. */
  method GetFile(card: Card, v: Volume, path: seq<byte>) returns (err: FatError, info: FileInfo)
    requires |path| > 0 && 0 !in path
    requires Walkable(card, v, v.root, Components(path[1..]))
    ensures err == ReadFail ==> !card.reliable
    ensures err != ReadFail ==> Answer(Resolve(card, v, v.root, Components(path[1..])), err, info)
  {
    ghost var outcome := Resolve(card, v, v.root, Components(path[1..]));
    var nameBuffer := new byte[256];
    var iter := new DirIterator();
    ghost var dir := v.root;
    Enter(card, v, iter, v.root);
    var pos, done := 1, false;
    err, info := Success, FileInfo([], 0, 0, 0, false);
    while !done
      invariant pos <= |path| && fresh(iter) && fresh(iter.buffer) && fresh(nameBuffer)
      invariant !done ==> Walking(card, v, path, pos, dir, outcome) && AtFirst(card, v, iter, dir)
      invariant done && err == ReadFail ==> !card.reliable
      invariant done && err != ReadFail ==> Answer(outcome, err, info)
      decreases !done, |path| - pos
    {
      done, err, info, pos, dir := WalkComponent(card, v, path, pos, iter, nameBuffer, dir, outcome);
    }
  }

  /** The iterator stands before the first record of the directory. */
  ghost predicate AtFirst(card: Card, v: Volume, iter: DirIterator, dir: nat)
    reads iter, iter.buffer
  {
    && HasChain(card, v, dir) && iter.chain == ChainOf(card, v, dir)
    && iter.Ready(card, v) && iter.lfnChecksum == 0 && iter.idx == 0
  }

  method Enter(card: Card, v: Volume, iter: DirIterator, dir: u32)
    requires HasChain(card, v, dir) && iter.buffer.Length == SECTOR
    modifies iter, iter.buffer
    ensures AtFirst(card, v, iter, dir)
  {
    iter.Init(card, v, dir, ChainOf(card, v, dir));
  }

  method SearchDir(card: Card, v: Volume, iter: DirIterator, name: seq<byte>, final: bool, ghost dir: nat)
    returns (err: FatError, info: FileInfo)
    requires AtFirst(card, v, iter, dir)
    modifies iter, iter.buffer
    ensures err == ReadFail ==> !card.reliable
    ensures err != ReadFail ==> Answer(Search(card, v, dir, name, final), err, info)
  {
    err, info := SearchOn(card, v, iter, name, final, RecordsOf(card, v, dir));
  }

  /** One pass of the outer loop of get_file: one name of the path. */
  method WalkComponent(card: Card, v: Volume, path: seq<byte>, pos: nat, iter: DirIterator, nameBuffer: array<byte>,
                       ghost dir: u32, ghost outcome: Outcome)
    returns (done: bool, err: FatError, info: FileInfo, next: nat, ghost dir': u32)
    requires 0 !in path && nameBuffer.Length == 256 && nameBuffer != iter.buffer
    requires Walking(card, v, path, pos, dir, outcome) && AtFirst(card, v, iter, dir)
    modifies iter, iter.buffer, nameBuffer
    ensures pos <= next <= |path|
    ensures !done ==> Walking(card, v, path, next, dir', outcome) && AtFirst(card, v, iter, dir') && pos < next
    ensures done && err == ReadFail ==> !card.reliable
    ensures done && err != ReadFail ==> Answer(outcome, err, info)
  {
    err, info, dir' := Success, FileInfo([], 0, 0, 0, false), dir;
    ghost var w := Word(path[pos..]);
    var final;
    next, final := ReadComponent(path, pos, nameBuffer);
    assert 0 !in w;
    EmptyName(nameBuffer[..], w);
    if nameBuffer[0] == 0 && !final {
      WalkSkips(card, v, path, pos, dir, outcome, next);
      return false, err, info, next, dir';
    }
    var name := NameIn(nameBuffer, w);
    done, err, info, dir' := WalkName(card, v, path, pos, iter, w, name, next, final, dir, outcome);
  }

  method WalkName(card: Card, v: Volume, ghost path: seq<byte>, ghost pos: nat, iter: DirIterator, ghost w: seq<byte>,
                  name: seq<byte>, ghost next: nat, final: bool, ghost dir: u32, ghost outcome: Outcome)
    returns (done: bool, err: FatError, info: FileInfo, ghost dir': u32)
    requires NextName(path, pos, w, next, final) && name == Cut(w) && (final || w != [])
    requires Walking(card, v, path, pos, dir, outcome) && AtFirst(card, v, iter, dir)
    modifies iter, iter.buffer
    ensures !done ==> Walking(card, v, path, next, dir', outcome) && AtFirst(card, v, iter, dir') && pos < next
    ensures done && err == ReadFail ==> !card.reliable
    ensures done && err != ReadFail ==> Answer(outcome, err, info)
  {
    dir' := dir;
    err, info := SearchDir(card, v, iter, name, final, dir);
    if final {
      WalkLast(card, v, path, pos, dir, outcome, w, next);
      return true, err, info, dir';
    }
    WalkEnters(card, v, path, pos, dir, outcome, w, next);
    if err != Success {
      return true, err, info, dir';
    }
    dir' := info.cluster;
    WalkingHere(card, v, path, next, info.cluster, outcome);
    Enter(card, v, iter, info.cluster);
    return false, err, info, dir';
  }

  lemma EmptyName(buffer: seq<byte>, w: seq<byte>)
    requires Holds(buffer, Cut(w)) && 0 !in w
    ensures buffer[0] == 0 <==> w == []
  {
    if w != [] {
      assert buffer[0] == Cut(w)[0] == w[0];
    }
  }

  method NameIn(buffer: array<byte>, ghost w: seq<byte>) returns (name: seq<byte>)
    requires Holds(buffer[..], Cut(w)) && 0 !in w
    ensures name == Cut(w)
  {
    HeldString(buffer[..], Cut(w));
    name := CString(buffer[..]);
  }
}
