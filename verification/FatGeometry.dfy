/** Where things lie on a consistent FAT32 volume, and what follows for cluster chains. */
module FatGeometry {
  import opened Bytes
  import opened Disk
  import opened FatVolume

  // ----- layout -----

  lemma {:induction false} RowsIsProduct(n: nat, k: nat)
    ensures Rows(n, k) == n * k
  {
    if n > 0 {
      RowsIsProduct(n - 1, k);
      assert (n - 1) * k + k == n * k;
    }
  }

  lemma {:induction false} RowsBefore(i: nat, j: nat, k: nat)
    requires i < j
    ensures Rows(i, k) + k <= Rows(j, k)
  {
    if i + 1 < j {
      RowsBefore(i, j - 1, k);
    }
  }

  lemma {:induction false} RowsScaled(n: nat, k: nat, f: nat)
    ensures f * Rows(n, k) == Rows(n, f * k)
  {
    if n > 0 {
      RowsScaled(n - 1, k, f);
      assert f * (Rows(n - 1, k) + k) == f * Rows(n - 1, k) + f * k;
    }
  }

  /** Every cluster lies behind the tables and inside the volume, and its address does not wrap. */
  lemma ClusterInside(v: Volume, card: Card, c: nat)
    requires Consistent(v, card) && InRange(v, c)
    ensures ClusterToLba(v, c) == v.dataStart + Rows(c - 2, v.sectorsPerCluster)
    ensures v.dataStart <= ClusterToLba(v, c)
    ensures ClusterToLba(v, c) + v.sectorsPerCluster <= v.startLba + v.totalSectors
  {
    RowsBefore(c - 2, v.totalClusters, v.sectorsPerCluster);
  }

  /** Different clusters never share a sector. */
  lemma ClustersDisjoint(v: Volume, card: Card, c: nat, d: nat)
    requires Consistent(v, card) && InRange(v, c) && InRange(v, d) && c < d
    ensures ClusterToLba(v, c) + v.sectorsPerCluster <= ClusterToLba(v, d)
  {
    ClusterInside(v, card, c);
    ClusterInside(v, card, d);
    RowsBefore(c - 2, d - 2, v.sectorsPerCluster);
  }

  lemma TablesInside(v: Volume, card: Card)
    requires Consistent(v, card)
    ensures v.firstFat + v.fatSize <= v.dataStart
    ensures FatFits(card, v)
  {
    if v.numFats > 1 {
      RowsBefore(0, v.numFats, v.fatSize);
    }
  }

  /** The four bytes the reader fetches for cluster c: inside the first table, inside one sector, and
      bytes 4c to 4c + 3 of the table (Microsoft FAT Specification, section 4.1). */
  lemma EntryBytes(v: Volume, card: Card, c: nat)
    requires Consistent(v, card) && c < v.totalClusters + 2
    ensures FatFits(card, v)
    ensures var lba := v.firstFat + 4 * c / SECTOR; var o := 4 * c % SECTOR;
            && v.firstFat <= lba < v.firstFat + v.fatSize && o + 4 <= SECTOR
            && 4 * c + 4 <= |FatBytes(card, v)|
            && lba < |card.sectors|
            && card.sectors[lba][o..o + 4] == FatBytes(card, v)[4 * c..4 * c + 4]
            && Entry(card, v, c) == Le32(card.sectors[lba], o) % 0x1000_0000
  {
    TablesInside(v, card);
    var ss := card.sectors[v.firstFat..v.firstFat + v.fatSize];
    var i, o := 4 * c / SECTOR, 4 * c % SECTOR;
    assert 4 * c == SECTOR * i + o;
    assert i < v.fatSize;
    FlatSlice(ss, i, o, 4);
    assert ss[i] == card.sectors[v.firstFat + i];
    Le32OfSlice(ss[i], o);
    Le32OfSlice(FatBytes(card, v), 4 * c);
  }

  lemma Le32OfSlice(s: seq<byte>, o: nat)
    requires o + 4 <= |s|
    ensures Le32(s[o..o + 4], 0) == Le32(s, o)
  {
  }

  // ----- chains -----

  /** The rest of a chain is a chain. */
  lemma ChainTail(card: Card, v: Volume, ch: seq<nat>, k: nat)
    requires Chain(card, v, ch) && k < |ch|
    ensures Chain(card, v, ch[k..])
  {
    forall i | 0 <= i < |ch[k..]| ensures LinkedAt(card, v, ch[k..], i) {
      assert LinkedAt(card, v, ch, k + i);
    }
  }

  /** A start cluster has at most one chain. */
  lemma {:induction false} ChainUnique(card: Card, v: Volume, a: seq<nat>, b: seq<nat>)
    requires Chain(card, v, a) && Chain(card, v, b) && a[0] == b[0]
    ensures a == b
    decreases |a|
  {
    assert LinkedAt(card, v, a, 0) && LinkedAt(card, v, b, 0);
    if |a| > 1 {
      assert LinkedAt(card, v, a, 1);
      ChainTail(card, v, a, 1);
      ChainTail(card, v, b, 1);
      ChainUnique(card, v, a[1..], b[1..]);
    } else {
      LaterLinks(card, v, b);
    }
  }

  /** What follows a cluster inside a chain is no end mark. */
  lemma LaterLinks(card: Card, v: Volume, ch: seq<nat>)
    requires Chain(card, v, ch)
    ensures |ch| > 1 ==> Entry(card, v, ch[0]) == ch[1] && InRange(v, ch[1]) && ch[1] < EOC
  {
    assert LinkedAt(card, v, ch, 0);
    if |ch| > 1 {
      assert LinkedAt(card, v, ch, 1);
    }
  }

  /** No cluster occurs twice in a chain. */
  lemma ChainDistinct(card: Card, v: Volume, ch: seq<nat>, i: nat, j: nat)
    requires Chain(card, v, ch) && i < j < |ch|
    ensures ch[i] != ch[j]
  {
    if ch[i] == ch[j] {
      ChainTail(card, v, ch, i);
      ChainTail(card, v, ch, j);
      ChainUnique(card, v, ch[i..], ch[j..]);
    }
  }

  lemma ChainOnCard(card: Card, v: Volume, ch: seq<nat>)
    requires Chain(card, v, ch)
    ensures OnCard(card, v, ch)
  {
    forall c | c in ch ensures ClusterToLba(v, c) + v.sectorsPerCluster <= |card.sectors| {
      var i :| 0 <= i < |ch| && ch[i] == c;
      assert LinkedAt(card, v, ch, i);
      ClusterInside(v, card, c);
    }
  }

  // ----- content -----

  lemma OnCardTail(card: Card, v: Volume, ch: seq<nat>)
    requires OnCard(card, v, ch) && ch != []
    ensures OnCard(card, v, ch[1..]) && ClusterToLba(v, ch[0]) + v.sectorsPerCluster <= |card.sectors|
  {
    assert ch[0] in ch;
    forall c | c in ch[1..] ensures ClusterToLba(v, c) + v.sectorsPerCluster <= |card.sectors| {
      assert c in ch;
    }
  }

  lemma {:induction false} ChainSectorsLength(card: Card, v: Volume, ch: seq<nat>)
    requires OnCard(card, v, ch)
    ensures |ChainSectors(card, v, ch)| == Rows(|ch|, v.sectorsPerCluster)
    decreases |ch|
  {
    if ch != [] {
      OnCardTail(card, v, ch);
      ChainSectorsLength(card, v, ch[1..]);
    }
  }

  /** Sector s of cluster j of a chain, found through its place in the chain. */
  lemma {:induction false} ChainSectorAt(card: Card, v: Volume, ch: seq<nat>, j: nat, s: nat)
    requires OnCard(card, v, ch) && j < |ch| && s < v.sectorsPerCluster
    ensures ClusterToLba(v, ch[j]) + s < |card.sectors|
    ensures Rows(j, v.sectorsPerCluster) + s < |ChainSectors(card, v, ch)|
    ensures ChainSectors(card, v, ch)[Rows(j, v.sectorsPerCluster) + s] == card.sectors[ClusterToLba(v, ch[j]) + s]
    decreases j
  {
    OnCardTail(card, v, ch);
    if j > 0 {
      ChainSectorAt(card, v, ch[1..], j - 1, s);
    }
  }

  /** Bytes inside one sector of cluster j, found through their place p in the content. */
  lemma ContentSlice(card: Card, v: Volume, ch: seq<nat>, j: nat, s: nat, o: nat, n: nat, p: nat)
    requires OnCard(card, v, ch) && j < |ch| && s < v.sectorsPerCluster && o + n <= SECTOR
    requires p == SECTOR * (Rows(j, v.sectorsPerCluster) + s) + o
    ensures ClusterToLba(v, ch[j]) + s < |card.sectors|
    ensures p + n <= |ChainBytes(card, v, ch)|
    ensures ChainBytes(card, v, ch)[p..p + n] == card.sectors[ClusterToLba(v, ch[j]) + s][o..o + n]
  {
    ChainSectorAt(card, v, ch, j, s);
    ChainSlice(card, v, ch, Rows(j, v.sectorsPerCluster) + s, o, n, p);
  }

  lemma ChainSlice(card: Card, v: Volume, ch: seq<nat>, i: nat, o: nat, n: nat, p: nat)
    requires OnCard(card, v, ch) && i < |ChainSectors(card, v, ch)| && o + n <= SECTOR && p == SECTOR * i + o
    ensures p + n <= |ChainBytes(card, v, ch)|
    ensures ChainBytes(card, v, ch)[p..p + n] == ChainSectors(card, v, ch)[i][o..o + n]
  {
    FlatSlice(ChainSectors(card, v, ch), i, o, n);
  }

  lemma ContentLength(card: Card, v: Volume, ch: seq<nat>)
    requires Consistent(v, card) && OnCard(card, v, ch)
    ensures |ChainBytes(card, v, ch)| == Rows(|ch|, v.bytesPerCluster)
  {
    ChainSectorsLength(card, v, ch);
    RowsScaled(|ch|, v.sectorsPerCluster, SECTOR);
  }
}
