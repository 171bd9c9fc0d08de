/** What the calls of the directory iterator list: the plain short records, in order. */
module FatListing {
  import opened Bytes
  import opened Disk
  import opened FatVolume
  import opened FatNames
  import opened FatLongNames
  import opened FatDir

  /** The short records up to the first end marker: no deleted ones, no long-name records, no labels. */
  function ShortRecords(recs: seq<Record>, i: nat): seq<Record>
    decreases |recs| - i
  {
    if i >= |recs| || IsEnd(recs[i]) then []
    else (if IsShort(recs[i]) then [recs[i]] else []) + ShortRecords(recs, i + 1)
  }

  /** Whether the listing ends at an end marker, not at the end of the directory's chain. */
  predicate Marked(recs: seq<Record>, i: nat)
    decreases |recs| - i
  {
    i < |recs| && (IsEnd(recs[i]) || Marked(recs, i + 1))
  }

  /** What a record says apart from its name. */
  function Details(r: Record): FileInfo {
    Named([], r)
  }

  function WithoutName(info: FileInfo): FileInfo {
    info.(name := [])
  }

  /** The scan took the first short record from i on, or there is none. */
  predicate TakesFirst(recs: seq<Record>, i: nat, scan: Scan) {
    match scan
    case Hit(info, next) =>
      && i < next <= |recs| && IsShort(recs[next - 1]) && WithoutName(info) == Details(recs[next - 1])
      && ShortRecords(recs, i) == [recs[next - 1]] + ShortRecords(recs, next)
      && Marked(recs, i) == Marked(recs, next)
    case Miss(marker) => ShortRecords(recs, i) == [] && marker == Marked(recs, i)
  }

  /** One call stops at the next short record, whatever long name is pending, and only there. */
  lemma {:induction false} ScanTakesFirst(recs: seq<Record>, i: nat, l: Lfn)
    requires |l.parts| == MAX_PARTS
    ensures TakesFirst(recs, i, ScanFrom(recs, i, l))
    decreases |recs| - i
  {
    if i < |recs| {
      ScanStep(recs, i, l);
      if !IsEnd(recs[i]) && !IsShort(recs[i]) {
        ScanTakesFirst(recs, i + 1, Skip(l, recs[i]));
        SkipKeepsFirst(recs, i, ScanFrom(recs, i + 1, Skip(l, recs[i])));
      }
    }
  }

  // ----- how many parts can be pending -----

  /** The long name pending at the record the scan stops at. */
  function Pending(recs: seq<Record>, i: nat, l: Lfn): (p: Lfn)
    requires |l.parts| == MAX_PARTS
    ensures |p.parts| == MAX_PARTS
    decreases |recs| - i
  {
    if i >= |recs| || IsEnd(recs[i]) || IsShort(recs[i]) then l else Pending(recs, i + 1, Skip(l, recs[i]))
  }

  /** The long-name records among records i to j - 1. */
  function LongRecords(recs: seq<Record>, i: nat, j: nat): nat
    requires j <= |recs|
    decreases j - i
  {
    if i >= j then 0 else (if Passed(recs[i]) then 1 else 0) + LongRecords(recs, i + 1, j)
  }

  /** The scan reports what p says of its short record, and p counts only long-name records it passed. */
  ghost predicate Counted(recs: seq<Record>, i: nat, l: Lfn, scan: Scan, p: Lfn)
    requires |p.parts| == MAX_PARTS
  {
    && scan.Hit? && i < scan.next <= |recs| && scan.info == InfoFor(p, recs[scan.next - 1])
    && p.found <= l.found + LongRecords(recs, i, scan.next - 1)
  }

  /** The reported name comes from the pending one. With at most twenty long-name records before the short
      one, its count of parts stays within the part buffers. */
  lemma {:induction false} PartsInBounds(recs: seq<Record>, i: nat, l: Lfn)
    requires |l.parts| == MAX_PARTS && ScanFrom(recs, i, l).Hit?
    ensures Counted(recs, i, l, ScanFrom(recs, i, l), Pending(recs, i, l))
    decreases |recs| - i
  {
    if IsShort(recs[i]) {
      TakenHere(recs, i, l);
    } else {
      var l' := Skip(l, recs[i]);
      PassedOver(recs, i, l);
      PartsInBounds(recs, i + 1, l');
      SkipCounts(l, recs[i]);
      CountsAdd(recs, i, l, l', ScanFrom(recs, i + 1, l'), Pending(recs, i + 1, l'));
    }
  }

  lemma TakenHere(recs: seq<Record>, i: nat, l: Lfn)
    requires |l.parts| == MAX_PARTS && i < |recs| && IsShort(recs[i])
    ensures Counted(recs, i, l, ScanFrom(recs, i, l), Pending(recs, i, l))
  {
    ScanStep(recs, i, l);
  }

  lemma PassedOver(recs: seq<Record>, i: nat, l: Lfn)
    requires |l.parts| == MAX_PARTS && i < |recs| && !IsEnd(recs[i]) && !IsShort(recs[i])
    ensures ScanFrom(recs, i, l) == ScanFrom(recs, i + 1, Skip(l, recs[i]))
    ensures Pending(recs, i, l) == Pending(recs, i + 1, Skip(l, recs[i]))
  {
    ScanStep(recs, i, l);
  }

  lemma SkipCounts(l: Lfn, r: Record)
    requires |l.parts| == MAX_PARTS && !IsEnd(r)
    ensures Skip(l, r).found <= l.found + if Passed(r) then 1 else 0
  {
  }

  lemma CountsAdd(recs: seq<Record>, i: nat, l: Lfn, l': Lfn, scan: Scan, p: Lfn)
    requires |p.parts| == MAX_PARTS && i < |recs| && Counted(recs, i + 1, l', scan, p)
    requires l'.found <= l.found + if Passed(recs[i]) then 1 else 0
    ensures Counted(recs, i, l, scan, p)
  {
  }

  /** A long-name record that claims to be the last one and number 1. */
  predicate LastAndFirst(r: Record) {
    Passed(r) && IsLast(r) && Number(r) == 1
  }

  /** Only a damaged directory has more: of n such records in a row n are counted, up to the eight bits of
      the counter. */
  lemma {:induction false} PartsOutOfBounds(recs: seq<Record>, i: nat, l: Lfn, n: nat)
    requires |l.parts| == MAX_PARTS && l.found < 0x100 && i + n < |recs| && IsShort(recs[i + n])
    requires forall j :: i <= j < i + n ==> LastAndFirst(recs[j])
    ensures Pending(recs, i, l).found == (l.found + n) % 0x100
    decreases n
  {
    if n > 0 {
      var l' := Skip(l, recs[i]);
      OneCounted(recs, i, l, l');
      PartsOutOfBounds(recs, i + 1, l', n - 1);
      AddWrapped(l.found, n);
    }
  }

  lemma AddWrapped(a: nat, n: nat)
    requires n > 0
    ensures ((a + 1) % 0x100 + (n - 1)) % 0x100 == (a + n) % 0x100
  {
  }

  lemma OneCounted(recs: seq<Record>, i: nat, l: Lfn, l': Lfn)
    requires |l.parts| == MAX_PARTS && i < |recs| && LastAndFirst(recs[i]) && l' == Skip(l, recs[i])
    ensures |l'.parts| == MAX_PARTS && l'.found == (l.found + 1) % 0x100
    ensures Pending(recs, i, l) == Pending(recs, i + 1, l')
  {
  }

  lemma SkipKeepsFirst(recs: seq<Record>, i: nat, scan: Scan)
    requires i < |recs| && !IsEnd(recs[i]) && !IsShort(recs[i]) && TakesFirst(recs, i + 1, scan)
    ensures TakesFirst(recs, i, scan)
  {
  }

  /** All calls together list exactly the short records, in order, none twice. */
  lemma {:induction false} ListIsFilter(recs: seq<Record>, i: nat)
    ensures var files, shorts := ListFrom(recs, i), ShortRecords(recs, i);
            |files| == |shorts| && forall k :: 0 <= k < |files| ==> WithoutName(files[k]) == Details(shorts[k])
    decreases |recs| - i
  {
    ScanTakesFirst(recs, i, NoLfn());
    if ScanFrom(recs, i, NoLfn()).Hit? {
      ListIsFilter(recs, ScanFrom(recs, i, NoLfn()).next);
    }
  }

  lemma FindsListed(recs: seq<Record>, i: nat, err: FatError, info: FileInfo, next: nat)
    requires Finds(recs, i, 0, err, info, next)
    ensures err == Success ==> i < next <= |recs| && ListFrom(recs, i) == [info] + ListFrom(recs, next)
    ensures err == Success ==> Marked(recs, i) == Marked(recs, next)
    ensures err != Success ==> ListFrom(recs, i) == [] && err == if Marked(recs, i) then NoMoreEntries else EndOfChain
  {
    ScanTakesFirst(recs, i, NoLfn());
  }

  /** Reading a directory to its end: unless a read fails, the calls report exactly the list. */
  method ReadDirectory(card: Card, v: Volume, start: u32, ghost ch: seq<nat>)
    returns (err: FatError, files: seq<FileInfo>)
    requires Chain(card, v, ch) && ch[0] == start
    ensures OnCard(card, v, ch)
    ensures err == NoMoreEntries || err == EndOfChain ==> files == ListFrom(DirRecords(card, v, ch), 0)
    ensures err != NoMoreEntries && err != EndOfChain ==> err == ReadFail && !card.reliable
  {
    var iter := new DirIterator();
    iter.Init(card, v, start, ch);
    ghost var recs := DirRecords(card, v, ch);
    files := [];
    err := Success;
    while err == Success
      invariant fresh(iter) && fresh(iter.buffer) && iter.chain == ch
      invariant err == Success ==> iter.Ready(card, v) && iter.lfnChecksum == 0
      invariant err == Success ==> files + ListFrom(recs, iter.idx) == ListFrom(recs, 0)
      invariant Ended(err, card, files, ListFrom(recs, 0))
      decreases err == Success, |recs| - iter.idx
    {
      err, files := ListOne(card, v, iter, files, recs);
    }
  }

  ghost predicate Ended(err: FatError, card: Card, files: seq<FileInfo>, list: seq<FileInfo>) {
    || err == Success
    || (err == ReadFail && !card.reliable)
    || ((err == NoMoreEntries || err == EndOfChain) && files == list)
  }

  method ListOne(card: Card, v: Volume, iter: DirIterator, files: seq<FileInfo>, ghost recs: seq<Record>)
    returns (err: FatError, files': seq<FileInfo>)
    requires iter.Ready(card, v) && iter.lfnChecksum == 0 && recs == DirRecords(card, v, iter.chain)
    modifies iter, iter.buffer
    ensures iter.chain == old(iter.chain)
    ensures err == Success ==> iter.Ready(card, v) && iter.lfnChecksum == 0 && old(iter.idx) < iter.idx <= |recs|
    ensures err == Success ==> files' + ListFrom(recs, iter.idx) == files + ListFrom(recs, old(iter.idx))
    ensures Ended(err, card, files', files + ListFrom(recs, old(iter.idx)))
  {
    ghost var idx := iter.idx;
    var info;
    err, info := iter.Next(card, v);
    if err != ReadFail {
      FindsListed(recs, idx, err, info, iter.idx);
    }
    files' := if err == Success then files + [info] else files;
    if err == Success {
      Append(files, info, ListFrom(recs, iter.idx));
    }
  }

  lemma Append(files: seq<FileInfo>, info: FileInfo, rest: seq<FileInfo>)
    ensures files + [info] + rest == files + ([info] + rest)
  {
  }
}
