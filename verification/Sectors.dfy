// A FAT16 volume laid out on a disk of 512-byte sectors: the boot sector's
// parameters, where table entries, directory entries and clusters lie, and
// that storing one of them changes that one alone.

module Sectors {
  import opened Words
  import opened Fat16

  /** Parameters of the boot sector, with the positions derived from them. */
  datatype Bpb = Bpb(
    spc: nat, reserved: nat, numFats: nat, rootEntries: nat, totalSectors: nat, fatSize: nat,
    rootStart: nat, rootSectors: nat, dataStart: nat, clusters: nat)

  datatype BootError = BadSignature | UnsupportedSectorSize | NoSectorsPerCluster

  datatype Boot = Parsed(b: Bpb) | Invalid(e: BootError)

  function Le16(s: seq<u8>, o: nat): (x: u16)
    requires o + 2 <= |s|
  {
    s[o] + 256 * (s[o + 1] as int)
  }

  function Le32(s: seq<u8>, o: nat): (x: u32)
    requires o + 4 <= |s|
  {
    Le16(s, o) + 0x1_0000 * (Le16(s, o + 2) as int)
  }

  /** The volume's regions; its clusters lie within the sectors it claims. */
  function Layout(spc: nat, reserved: nat, numFats: nat, rootEntries: nat, total: nat, fatSize: nat): (b: Bpb)
    requires spc > 0
    ensures b.dataStart <= total ==> b.dataStart + b.clusters * spc <= total
  {
    var rootStart := reserved + numFats * fatSize;
    var rootSectors := (rootEntries * 32 + 511) / 512;
    var dataStart := rootStart + rootSectors;
    var dataSectors := if total > dataStart then total - dataStart else 0;
    DivBound(dataSectors, spc);
    Bpb(spc, reserved, numFats, rootEntries, total, fatSize, rootStart, rootSectors, dataStart, dataSectors / spc)
  }

  function ParseBpb(s: Sector): Boot {
    if s[510] != 0x55 || s[511] != 0xAA then Invalid(BadSignature)
    else if Le16(s, 11) != 512 then Invalid(UnsupportedSectorSize)
    else if s[13] == 0 then Invalid(NoSectorsPerCluster)
    else
      var total := if Le16(s, 19) != 0 then Le16(s, 19) else Le32(s, 32);
      Parsed(Layout(s[13], Le16(s, 14), s[16], Le16(s, 17), total, Le16(s, 22)))
  }

  lemma DivBound(a: nat, b: nat)
    requires b > 0
    ensures a / b * b <= a
  {
    assert a == b * (a / b) + a % b;
  }

  /** What the code takes for granted about a boot sector it accepted: two
      tables that cover all clusters, fewer than 65525 clusters, and a disk as
      large as the volume claims. */
  ghost predicate Good(b: Bpb, n: nat) {
    && 0 < b.spc < 256 && b.reserved >= 1 && b.numFats == 2
    && b.rootStart == b.reserved + 2 * b.fatSize
    && b.dataStart == b.rootStart + b.rootSectors
    && b.clusters < 65525 && 2 * (b.clusters + 2) <= 512 * b.fatSize
    && b.dataStart + b.clusters * b.spc <= n
  }

  type Disk = seq<Sector>

  function FatSector(b: Bpb, c: nat): nat { b.reserved + c * 2 / 512 }

  function DataSector(b: Bpb, c: nat, s: nat): nat { b.dataStart + c * b.spc + s }

  function SlotAt(s: Sector, o: nat): (e: Slot)
    requires o + 32 <= 512
    ensures |e.name| == 11
  {
    Slot(s[o..o + 11], s[o + 11], Le16(s, o + 26), Le32(s, o + 28))
  }

  lemma InsideDisk(b: Bpb, n: nat, c: nat, s: nat)
    requires Good(b, n) && c < b.clusters && s < b.spc
    ensures DataSector(b, c, s) < n
  {
    Nested(c, s, b.clusters, b.spc);
  }

  /** Position s of the c-th of n groups of k. */
  lemma Nested(c: nat, s: nat, n: nat, k: nat)
    requires c < n && s < k
    ensures c * k + s < n * k
  {
    assert (n - c) * k == n * k - c * k;
    assert (n - c - 1) * k >= 0;
    assert (n - c) * k == (n - c - 1) * k + k;
  }

  ghost function FatEntry(b: Bpb, d: Disk, c: nat): u16
    requires Good(b, |d|) && c < b.clusters + 2
  {
    TableInside(b, |d|, c);
    Le16(d[FatSector(b, c)], c * 2 % 512)
  }

  lemma TableInside(b: Bpb, n: nat, c: nat)
    requires Good(b, n) && c < b.clusters + 2
    ensures b.reserved <= FatSector(b, c) < b.reserved + b.fatSize
    ensures FatSector(b, c) + b.fatSize < b.rootStart <= n
    ensures c * 2 % 512 + 2 <= 512
  {
    assert b.rootStart <= b.dataStart && 0 <= b.clusters * b.spc;
  }

  ghost function FatSeq(b: Bpb, d: Disk): (r: seq<u16>)
    requires Good(b, |d|)
    ensures |r| == b.clusters + 2 && forall c :: 0 <= c < |r| ==> r[c] == FatEntry(b, d, c)
  {
    seq(b.clusters + 2, c requires 0 <= c < b.clusters + 2 => FatEntry(b, d, c))
  }

  ghost function DirEntry(b: Bpb, d: Disk, i: nat): (e: Slot)
    requires Good(b, |d|) && i < b.rootSectors * 16
    ensures |e.name| == 11
  {
    RootInside(b, |d|, i);
    SlotAt(d[b.rootStart + i / 16], i % 16 * 32)
  }

  lemma RootInside(b: Bpb, n: nat, i: nat)
    requires Good(b, n) && i < b.rootSectors * 16
    ensures b.rootStart <= b.rootStart + i / 16 < b.dataStart <= n
  {
    assert 0 <= b.clusters * b.spc;
  }

  ghost function DirSeq(b: Bpb, d: Disk): (r: seq<Slot>)
    requires Good(b, |d|)
    ensures |r| == b.rootSectors * 16 && forall i :: 0 <= i < |r| ==> r[i] == DirEntry(b, d, i)
  {
    seq(b.rootSectors * 16, i requires 0 <= i < b.rootSectors * 16 => DirEntry(b, d, i))
  }

  ghost function Cluster(b: Bpb, d: Disk, c: nat): (r: seq<Sector>)
    requires Good(b, |d|) && c < b.clusters
    ensures |r| == b.spc
    ensures forall s :: 0 <= s < b.spc ==> DataSector(b, c, s) < |d| && r[s] == d[DataSector(b, c, s)]
  {
    assert forall s :: 0 <= s < b.spc ==> DataSector(b, c, s) < |d| by {
      forall s | 0 <= s < b.spc ensures DataSector(b, c, s) < |d| { InsideDisk(b, |d|, c, s); }
    }
    seq(b.spc, s requires 0 <= s < b.spc => d[DataSector(b, c, s)])
  }

  ghost function DataSeq(b: Bpb, d: Disk): (r: seq<seq<Sector>>)
    requires Good(b, |d|)
    ensures |r| == b.clusters && forall c :: 0 <= c < |r| ==> r[c] == Cluster(b, d, c)
  {
    seq(b.clusters, c requires 0 <= c < b.clusters => Cluster(b, d, c))
  }

  /** The volume on the disk. */
  ghost function Abs(b: Bpb, d: Disk): (v: Volume)
    requires Good(b, |d|)
    ensures Sane(v)
  {
    Volume(b.spc, FatSeq(b, d), DirSeq(b, d), DataSeq(b, d))
  }

  /** The second table is a copy of the first. */
  ghost predicate Mirrored(b: Bpb, d: Disk)
    requires Good(b, |d|)
  {
    && b.reserved + 2 * b.fatSize <= |d|
    && forall k :: b.reserved <= k < b.reserved + b.fatSize ==> d[k] == d[k + b.fatSize]
  }

  // ---- storing one item --------------------------------------------------------

  function Put16(s: Sector, o: nat, x: u16): (r: Sector)
    requires o + 2 <= 512
    ensures Le16(r, o) == x
    ensures forall p :: 0 <= p < 511 && (p + 2 <= o || o + 2 <= p) ==> Le16(r, p) == Le16(s, p)
  {
    s[o := x % 256][o + 1 := x / 256]
  }

  /** Both copies of the sector with cluster c's entry. */
  ghost function PutFat(b: Bpb, d: Disk, c: nat, x: u16): (r: Disk)
    requires Good(b, |d|) && c < b.clusters + 2
    ensures |r| == |d|
  {
    TableInside(b, |d|, c);
    var s := Put16(d[FatSector(b, c)], c * 2 % 512, x);
    d[FatSector(b, c) := s][FatSector(b, c) + b.fatSize := s]
  }

  lemma FatKeeps(b: Bpb, d: Disk, e: Disk)
    requires Good(b, |d|) && |e| == |d|
    requires forall k :: b.reserved <= k < b.reserved + b.fatSize && k < |d| ==> e[k] == d[k]
    ensures FatSeq(b, e) == FatSeq(b, d)
  {
    forall c | 0 <= c < b.clusters + 2 ensures FatEntry(b, e, c) == FatEntry(b, d, c) { TableInside(b, |d|, c); }
  }

  lemma DirKeeps(b: Bpb, d: Disk, e: Disk)
    requires Good(b, |d|) && |e| == |d|
    requires forall k :: b.rootStart <= k < b.dataStart && k < |d| ==> e[k] == d[k]
    ensures DirSeq(b, e) == DirSeq(b, d)
  {
    forall i | 0 <= i < b.rootSectors * 16 ensures DirEntry(b, e, i) == DirEntry(b, d, i) { RootInside(b, |d|, i); }
  }

  lemma DataKeeps(b: Bpb, d: Disk, e: Disk)
    requires Good(b, |d|) && |e| == |d|
    requires forall k :: b.dataStart <= k < |d| ==> e[k] == d[k]
    ensures DataSeq(b, e) == DataSeq(b, d)
  {
    forall c | 0 <= c < b.clusters ensures Cluster(b, e, c) == Cluster(b, d, c) {
      forall s | 0 <= s < b.spc ensures Cluster(b, e, c)[s] == Cluster(b, d, c)[s] { DataAfter(b, c, s); }
    }
  }

  lemma DataAfter(b: Bpb, c: nat, s: nat)
    ensures b.dataStart <= DataSector(b, c, s)
  {
    assert 0 <= c * b.spc;
  }

  /** Storing a table entry sets that entry, in both tables, and nothing else. */
  lemma PutFatAbs(b: Bpb, d: Disk, c: nat, x: u16)
    requires Good(b, |d|) && c < b.clusters + 2 && Mirrored(b, d)
    ensures var e := PutFat(b, d, c, x);
            && Mirrored(b, e) && e[0] == d[0]
            && Abs(b, e) == Abs(b, d).(fat := Abs(b, d).fat[c := x])
  {
    var e := PutFat(b, d, c, x);
    TableInside(b, |d|, c);
    DirKeeps(b, d, e);
    DataKeeps(b, d, e);
    forall c' | 0 <= c' < b.clusters + 2 ensures FatSeq(b, e)[c'] == FatSeq(b, d)[c := x][c'] {
      TableInside(b, |d|, c');
      if FatSector(b, c') == FatSector(b, c) && c' != c { Offsets(c, c'); }
    }
    assert FatSeq(b, e) == FatSeq(b, d)[c := x];
  }

  lemma Offsets(c: nat, d: nat)
    requires c * 2 / 512 == d * 2 / 512 && c != d
    ensures c * 2 % 512 + 2 <= d * 2 % 512 || d * 2 % 512 + 2 <= c * 2 % 512
  {
  }

  function PutSector(ss: seq<Sector>, s: nat, x: Sector): (r: seq<Sector>)
    requires s < |ss|
    ensures |r| == |ss| && forall t :: 0 <= t < |ss| ==> r[t] == if t == s then x else ss[t]
  {
    ss[s := x]
  }

  /** Storing a data sector sets that sector of that cluster. */
  lemma PutDataAbs(b: Bpb, d: Disk, c: nat, s: nat, x: Sector)
    requires Good(b, |d|) && c < b.clusters && s < b.spc && Mirrored(b, d)
    ensures DataSector(b, c, s) < |d|
    ensures var e := d[DataSector(b, c, s) := x];
            && Mirrored(b, e) && e[0] == d[0]
            && Abs(b, e) == Abs(b, d).(data := Abs(b, d).data[c := PutSector(Abs(b, d).data[c], s, x)])
  {
    InsideDisk(b, |d|, c, s);
    DataAfter(b, c, s);
    var e := d[DataSector(b, c, s) := x];
    FatKeeps(b, d, e);
    DirKeeps(b, d, e);
    forall c' | 0 <= c' < b.clusters
      ensures Cluster(b, e, c') == if c' == c then PutSector(Cluster(b, d, c), s, x) else Cluster(b, d, c')
    {
      forall s' | 0 <= s' < b.spc
        ensures Cluster(b, e, c')[s'] == if c' == c && s' == s then x else Cluster(b, d, c')[s']
      {
        SectorsDiffer(b, c, s, c', s');
      }
    }
    assert DataSeq(b, e) == DataSeq(b, d)[c := PutSector(Cluster(b, d, c), s, x)];
  }

  lemma SectorsDiffer(b: Bpb, c: nat, s: nat, c': nat, s': nat)
    requires s < b.spc && s' < b.spc
    ensures DataSector(b, c, s) == DataSector(b, c', s') <==> c == c' && s == s'
  {
    if c < c' { assert (c + 1) * b.spc <= c' * b.spc; }
    if c' < c { assert (c' + 1) * b.spc <= c * b.spc; }
  }

  /** Replacing one directory entry inside its sector. */
  lemma PutSlotAbs(b: Bpb, d: Disk, i: nat, x: Sector)
    requires Good(b, |d|) && i < b.rootSectors * 16 && Mirrored(b, d)
    requires b.rootStart + i / 16 < |d|
    requires var o := i % 16 * 32;
             x[..o] == d[b.rootStart + i / 16][..o] && x[o + 32..] == d[b.rootStart + i / 16][o + 32..]
    ensures var e := d[b.rootStart + i / 16 := x];
            && Mirrored(b, e) && e[0] == d[0]
            && Abs(b, e) == Abs(b, d).(dir := Abs(b, d).dir[i := SlotAt(x, i % 16 * 32)])
  {
    RootInside(b, |d|, i);
    var k := b.rootStart + i / 16;
    var e := d[k := x];
    FatKeeps(b, d, e);
    DataKeeps(b, d, e);
    forall j | 0 <= j < b.rootSectors * 16 ensures DirSeq(b, e)[j] == DirSeq(b, d)[i := SlotAt(x, i % 16 * 32)][j] {
      RootInside(b, |d|, j);
      if j != i && j / 16 == i / 16 { SlotElsewhere(d[k], x, i % 16 * 32, j % 16 * 32); }
    }
    assert DirSeq(b, e) == DirSeq(b, d)[i := SlotAt(x, i % 16 * 32)];
  }

  lemma SlotElsewhere(s: Sector, x: Sector, o: nat, p: nat)
    requires o + 32 <= 512 && p + 32 <= 512 && (p + 32 <= o || o + 32 <= p)
    requires x[..o] == s[..o] && x[o + 32..] == s[o + 32..]
    ensures SlotAt(x, p) == SlotAt(s, p)
  {
    forall q | p <= q < p + 32 ensures x[q] == s[q] {
      if q < o {
        assert x[..o][q] == s[..o][q];
      } else {
        assert x[o + 32..][q - (o + 32)] == s[o + 32..][q - (o + 32)];
      }
    }
    assert x[p..p + 11] == s[p..p + 11];
  }
}
