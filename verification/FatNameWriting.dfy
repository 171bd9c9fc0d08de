/** Writing long names (Microsoft FAT Specification, section 7), and reading them back. */
module FatNameWriting {
  import opened Bytes
  import opened FatNames
  import opened FatRecords
  import opened FatLongNames

  /** n stored units from unit j on, little-endian. */
  function WideBytes(units: seq<u16>, j: nat, n: nat): (s: seq<byte>)
    ensures |s| == 2 * n
    ensures forall i :: 0 <= i < n ==> Le16(s, 2 * i) == Stored(units, j + i)
  {
    var low := (i: nat) => Stored(units, j + i / 2) % 0x100;
    var high := (i: nat) => Stored(units, j + i / 2) / 0x100;
    var s := seq(2 * n, i requires 0 <= i < 2 * n => if i % 2 == 0 then low(i) else high(i));
    s
  }

  /** Record number k of the run that stores the name (Microsoft FAT Specification, section 7). */
  function EncodePart(units: seq<u16>, k: nat, sum: byte): Record
    requires NameUnits(units) && 1 <= k <= PartCount(units)
  {
    var j := 13 * (k - 1);
    var order: byte := (PartNumbers(units, PartCount(units)); if k == PartCount(units) then k + 0x40 else k);
    [order] + WideBytes(units, j, 5) + [0x0F, 0, sum] + WideBytes(units, j + 5, 6)
    + [0, 0] + WideBytes(units, j + 11, 2)
  }

  /** Records k, k - 1, ..., 1. */
  function EncodeRun(units: seq<u16>, k: nat, sum: byte): (recs: seq<Record>)
    requires NameUnits(units) && k <= PartCount(units)
    ensures |recs| == k
  {
    if k == 0 then [] else [EncodePart(units, k, sum)] + EncodeRun(units, k - 1, sum)
  }

  lemma UnitsAt(r: Record, o: nat, n: nat, units: seq<u16>, j: nat)
    requires o + 2 * n <= 32 && r[o..o + 2 * n] == WideBytes(units, j, n)
    ensures StoresFrom(Units(r, o, n), units, j)
  {
    var s := WideBytes(units, j, n);
    forall i | 0 <= i < n ensures Units(r, o, n)[i] == Le16(s, 2 * i) {
      assert s[2 * i] == r[o + 2 * i] && s[2 * i + 1] == r[o + 2 * i + 1];
    }
  }

  lemma EncodedPart(units: seq<u16>, k: nat, sum: byte)
    requires NameUnits(units) && 1 <= k <= PartCount(units)
    ensures StoresPart(EncodePart(units, k, sum), units, k, sum)
  {
    PartNumbers(units, PartCount(units));
    var r, j := EncodePart(units, k, sum), 13 * (k - 1);
    UnitsAt(r, 1, 5, units, j);
    UnitsAt(r, 14, 6, units, j + 5);
    UnitsAt(r, 28, 2, units, j + 11);
  }

  lemma Shift(before: seq<Record>, r: Record, run: seq<Record>, after: seq<Record>)
    ensures before + ([r] + run) + after == before + [r] + run + after
    ensures |before| < |before + ([r] + run) + after| && (before + ([r] + run) + after)[|before|] == r
  {
  }

  lemma {:induction false} EncodedRun(before: seq<Record>, after: seq<Record>, units: seq<u16>, k: nat, sum: byte)
    requires NameUnits(units) && k <= PartCount(units)
    ensures Run(before + EncodeRun(units, k, sum) + after, |before|, units, k, sum)
    decreases k
  {
    if k > 0 {
      var r := EncodePart(units, k, sum);
      EncodedPart(units, k, sum);
      EncodedRun(before + [r], after, units, k - 1, sum);
      Shift(before, r, EncodeRun(units, k - 1, sum), after);
    }
  }

  // ----- writing a directory -----

  /** A record that does not count: a deleted one, of which 31 bytes are left, or a label. */
  datatype Junk = Deleted(rest: seq<byte>) | Label(record: ShortEntry)

  predicate GoodJunk(j: Junk) {
    match j
    case Deleted(rest) => |rest| == 31
    case Label(r) => Plain(r) && r.flags.volume && !r.flags.directory && !LongMark(r.flags)
  }

  function WriteJunk(j: Junk): Record
    requires GoodJunk(j)
  {
    match j
    case Deleted(rest) => [0xE5] + rest
    case Label(r) => WriteShort(r)
  }

  /** An entry as it is stored: records that do not count, the long name's records unless it has none, the
      short record. */
  datatype DirEntry = DirEntry(junk: seq<Junk>, units: seq<u16>, short: ShortEntry)

  ghost predicate Storable(e: DirEntry) {
    && Plain(e.short) && Lists(e.short.flags)
    && (e.units != [] ==> NameUnits(e.units) && SectionSum(NameField(e.short)) != 0)
    && forall i :: 0 <= i < |e.junk| ==> GoodJunk(e.junk[i])
  }

  function NameRecords(e: DirEntry): seq<Record>
    requires Plain(e.short) && (e.units != [] ==> NameUnits(e.units))
  {
    if e.units == [] then [] else EncodeRun(e.units, PartCount(e.units), SectionSum(NameField(e.short)))
  }

  function WriteJunks(js: seq<Junk>): (recs: seq<Record>)
    requires forall i :: 0 <= i < |js| ==> GoodJunk(js[i])
    ensures |recs| == |js| && forall i :: 0 <= i < |js| ==> recs[i] == WriteJunk(js[i])
  {
    seq(|js|, i requires 0 <= i < |js| => WriteJunk(js[i]))
  }

  ghost function EncodeEntry(e: DirEntry): (recs: seq<Record>)
    requires Storable(e)
    ensures |recs| == |e.junk| + |NameRecords(e)| + 1
  {
    WriteJunks(e.junk) + NameRecords(e) + [WriteShort(e.short)]
  }

  ghost predicate AllStorable(es: seq<DirEntry>) {
    forall i :: 0 <= i < |es| ==> Storable(es[i])
  }

  ghost function EncodeDirectory(es: seq<DirEntry>): seq<Record>
    requires AllStorable(es)
  {
    if es == [] then [] else
      assert Storable(es[0]);
      EncodeEntry(es[0]) + EncodeDirectory(es[1..])
  }

  // ----- what reading it should report -----

  /** A long name as it is shown: a question mark for what is not ASCII, and 255 characters at most. */
  function Shown(units: seq<u16>): (s: seq<byte>)
    ensures |s| == Min(|units|, 255)
    ensures forall i :: 0 <= i < |s| ==> s[i] == if units[i] < 0x80 then units[i] else 0x3F
  {
    seq(Min(|units|, 255), i requires 0 <= i < Min(|units|, 255) => if units[i] < 0x80 then units[i] else 0x3F)
  }

  lemma ShownIs(units: seq<u16>)
    ensures Cut(NarrowAll(units)) == Shown(units)
  {
  }

  /** The long name if there is one, otherwise the 8.3 name; and cluster, size, attributes as written. */
  function InfoOf(e: DirEntry): FileInfo {
    InfoWritten(e.short, if e.units == [] then DottedName(e.short) else Shown(e.units))
  }

  function InfosOf(es: seq<DirEntry>): seq<FileInfo> {
    if es == [] then [] else [InfoOf(es[0])] + InfosOf(es[1..])
  }

  // ----- reading it back -----

  lemma JunkOne(recs: seq<Record>, i: nat, j: Junk)
    requires i < |recs| && GoodJunk(j) && recs[i] == WriteJunk(j)
    ensures ScanFrom(recs, i, NoLfn()) == ScanFrom(recs, i + 1, NoLfn())
  {
    match j
    case Deleted(_) => GoesOn(recs, i, NoLfn(), Flags(false, false, false, false, false, false, false, false));
    case Label(r) =>
      FieldsAt(r);
      GoesOn(recs, i, NoLfn(), r.flags);
      assert NoLfn().(found := 0, sum := 0) == NoLfn();
  }

  lemma {:induction false} JunkPassed(recs: seq<Record>, i: nat, js: seq<Junk>)
    requires forall k :: 0 <= k < |js| ==> GoodJunk(js[k])
    requires i + |js| <= |recs| && forall k :: 0 <= k < |js| ==> recs[i + k] == WriteJunk(js[k])
    ensures ScanFrom(recs, i, NoLfn()) == ScanFrom(recs, i + |js|, NoLfn())
    decreases |js|
  {
    if js != [] {
      var last := |js| - 1;
      JunkPassed(recs, i, js[..last]);
      assert recs[i + last] == WriteJunk(js[last]);
      JunkOne(recs, i + last, js[last]);
    }
  }

  lemma EntryParts(before: seq<Record>, junk: seq<Record>, run: seq<Record>, short: Record, after: seq<Record>)
    ensures var recs := before + (junk + run + [short]) + after;
            && recs == (before + junk) + run + ([short] + after)
            && (forall k :: 0 <= k < |junk| ==> recs[|before| + k] == junk[k])
            && recs[|before| + |junk| + |run|] == short
  {
  }

  /** The entry's records stand in the directory from record i on. */
  ghost predicate StandsAt(recs: seq<Record>, i: nat, e: DirEntry)
    requires Storable(e)
  {
    var j, k := i + |e.junk|, i + |e.junk| + |NameRecords(e)|;
    && k < |recs| && recs[k] == WriteShort(e.short)
    && (forall x :: 0 <= x < |e.junk| ==> recs[i + x] == WriteJunk(e.junk[x]))
    && (e.units != [] ==> Run(recs, j, e.units, PartCount(e.units), SectionSum(NameField(e.short))))
  }

  lemma EntryPlaces(recs: seq<Record>, before: seq<Record>, e: DirEntry, junk: seq<Record>, run: seq<Record>,
                    short: Record, after: seq<Record>)
    requires Storable(e) && junk == WriteJunks(e.junk) && run == NameRecords(e) && short == WriteShort(e.short)
    requires recs == before + (junk + run + [short]) + after
    ensures StandsAt(recs, |before|, e)
  {
    EntryParts(before, junk, run, short, after);
    if e.units != [] {
      RunPlaced(recs, before + junk, e.units, run, [short] + after, SectionSum(NameField(e.short)));
    }
  }

  lemma RunPlaced(recs: seq<Record>, before: seq<Record>, units: seq<u16>, run: seq<Record>, after: seq<Record>,
                  sum: byte)
    requires NameUnits(units) && run == EncodeRun(units, PartCount(units), sum) && recs == before + run + after
    ensures Run(recs, |before|, units, PartCount(units), sum)
  {
    EncodedRun(before, after, units, PartCount(units), sum);
  }

  /** One stored entry is read back as it was, wherever it stands in the directory. */
  lemma EntryReadBack(recs: seq<Record>, i: nat, e: DirEntry)
    requires Storable(e) && StandsAt(recs, i, e)
    ensures ScanFrom(recs, i, NoLfn()) == Hit(InfoOf(e), i + |e.junk| + |NameRecords(e)| + 1)
  {
    NameScanned(recs, i + |e.junk|, e, |NameRecords(e)|);
    JunkPassed(recs, i, e.junk);
  }

  /** The name's records and the short one. */
  lemma NameScanned(recs: seq<Record>, i: nat, e: DirEntry, n: nat)
    requires Storable(e) && n == |NameRecords(e)| && i + n < |recs| && recs[i + n] == WriteShort(e.short)
    requires e.units != [] ==> Run(recs, i, e.units, PartCount(e.units), SectionSum(NameField(e.short)))
    ensures ScanFrom(recs, i, NoLfn()) == Hit(InfoOf(e), i + n + 1)
  {
    if e.units == [] {
      PlainScanned(recs, i, NoLfn(), e.short);
    } else {
      RunScanned(recs, i, e, PartCount(e.units), SectionSum(NameField(e.short)));
    }
  }

  lemma RunScanned(recs: seq<Record>, i: nat, e: DirEntry, n: nat, sum: byte)
    requires Storable(e) && e.units != [] && n == PartCount(e.units) && sum == SectionSum(NameField(e.short))
    requires i + n < |recs| && recs[i + n] == WriteShort(e.short) && Run(recs, i, e.units, n, sum)
    ensures ScanFrom(recs, i, NoLfn()) == Hit(InfoOf(e), i + n + 1)
  {
    FieldsAt(e.short);
    FlagsRead(recs[i + n], e.short.flags);
    LongNameReported(recs, i, NoLfn(), e.units, sum);
    ShownIs(e.units);
    FieldsRead(e.short, Shown(e.units));
  }

  lemma ListStep(recs: seq<Record>, i: nat, info: FileInfo, next: nat)
    requires ScanFrom(recs, i, NoLfn()) == Hit(info, next)
    ensures i < next <= |recs| && ListFrom(recs, i) == [info] + ListFrom(recs, next)
  {
    ScanAdvances(recs, i, NoLfn());
  }

  lemma AllStorableRest(es: seq<DirEntry>)
    requires AllStorable(es) && es != []
    ensures Storable(es[0]) && AllStorable(es[1..])
  {
    forall i | 0 <= i < |es[1..]| ensures Storable(es[1..][i]) {
      assert Storable(es[i + 1]);
    }
  }

  lemma ListEnds(before: seq<Record>, after: seq<Record>)
    requires after == [] || IsEnd(after[0])
    ensures ListFrom(before + after, |before|) == []
  {
    assert after != [] ==> (before + after)[|before|] == after[0];
  }

  lemma Regroup(before: seq<Record>, first: seq<Record>, rest: seq<Record>, after: seq<Record>)
    ensures before + (first + rest) + after == before + first + (rest + after)
    ensures before + (first + rest) + after == (before + first) + rest + after
  {
  }

  lemma {:induction false} EntriesReadBack(recs: seq<Record>, before: seq<Record>, es: seq<DirEntry>,
                                           after: seq<Record>)
    requires AllStorable(es) && (after == [] || IsEnd(after[0])) && recs == before + EncodeDirectory(es) + after
    ensures ListFrom(recs, |before|) == InfosOf(es)
    decreases |es|
  {
    if es == [] {
      assert recs == before + after;
      ListEnds(before, after);
    } else {
      AllStorableRest(es);
      var first, rest := EncodeEntry(es[0]), EncodeDirectory(es[1..]);
      Regroup(before, first, rest, after);
      EntriesReadBack(recs, before + first, es[1..], after);
      EntryListed(recs, before, es[0], first, rest + after);
    }
  }

  lemma EntryStands(recs: seq<Record>, before: seq<Record>, e: DirEntry, written: seq<Record>, after: seq<Record>)
    requires Storable(e) && written == EncodeEntry(e) && recs == before + written + after
    ensures StandsAt(recs, |before|, e) && |written| == |e.junk| + |NameRecords(e)| + 1
  {
    EntryPlaces(recs, before, e, WriteJunks(e.junk), NameRecords(e), WriteShort(e.short), after);
  }

  lemma EntryListed(recs: seq<Record>, before: seq<Record>, e: DirEntry, written: seq<Record>, after: seq<Record>)
    requires Storable(e) && written == EncodeEntry(e) && recs == before + written + after
    ensures ListFrom(recs, |before|) == [InfoOf(e)] + ListFrom(recs, |before + written|)
  {
    EntryStands(recs, before, e, written, after);
    EntryReadBack(recs, |before|, e);
    ListStep(recs, |before|, InfoOf(e), |before| + |written|);
  }

  lemma {:induction false} InfosAt(es: seq<DirEntry>, k: nat)
    requires k < |es|
    ensures |InfosOf(es)| == |es| && InfosOf(es)[k] == InfoOf(es[k])
  {
    InfosLength(es);
    if k > 0 {
      InfosAt(es[1..], k - 1);
    }
  }

  lemma {:induction false} InfosLength(es: seq<DirEntry>)
    ensures |InfosOf(es)| == |es|
  {
    if es != [] {
      InfosLength(es[1..]);
    }
  }

  /** A whole directory, written byte by byte (with and without long names, and with deleted records and
      labels anywhere between its entries), is listed from its start as what was written, entry by entry:
      the name, the cluster, the size, the attributes and whether it is a directory. */
  lemma DirectoryRoundTrip(es: seq<DirEntry>, after: seq<Record>)
    requires AllStorable(es) && (after == [] || after[0][0] == 0x00)
    ensures ListFrom(EncodeDirectory(es) + after, 0) == InfosOf(es) && |InfosOf(es)| == |es|
    ensures forall k :: 0 <= k < |es| ==> InfosOf(es)[k] == InfoOf(es[k])
    ensures forall k :: 0 <= k < |es| && Ascii(es[k].units) && 0 < |es[k].units| <= 255 ==>
                          InfosOf(es)[k].name == es[k].units
  {
    assert [] + EncodeDirectory(es) + after == EncodeDirectory(es) + after;
    EntriesReadBack(EncodeDirectory(es) + after, [], es, after);
    InfosLength(es);
    forall k | 0 <= k < |es|
      ensures InfosOf(es)[k] == InfoOf(es[k])
      ensures Ascii(es[k].units) && 0 < |es[k].units| <= 255 ==> InfosOf(es)[k].name == es[k].units
    {
      InfosAt(es, k);
      AsciiShown(es[k].units);
    }
  }

  lemma AsciiShown(units: seq<u16>)
    ensures Ascii(units) && |units| <= 255 ==> Shown(units) == units
  {
  }

  predicate Ascii(units: seq<u16>) {
    forall i :: 0 <= i < |units| ==> units[i] < 0x80
  }
}
