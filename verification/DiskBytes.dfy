// Where on the disk, byte by byte, the volume lies: the boot sector's fields in
// their order (Microsoft's FAT specification v1.03, section "Boot Sector and
// BPB Structure"), and table, directory and clusters one behind the other.

module DiskBytes {
  import opened Words
  import opened Fat16
  import opened Sectors

  // ---- the boot sector ---------------------------------------------------------

  /** The fields of a boot sector up to the large sector count. */
  datatype Fields = Fields(
    jump: seq<u8>, oem: seq<u8>, sectorSize: u16, spc: u8, reserved: u16, numFats: u8, rootEntries: u16,
    total16: u16, media: u8, fatSize: u16, track: u16, heads: u16, hidden: u32, total32: u32)

  function Low16(x: u16): (s: seq<u8>)
    ensures |s| == 2
  {
    [x % 256, x / 256]
  }

  function Low32(x: u32): (s: seq<u8>)
    ensures |s| == 4
  {
    Low16(x % 0x1_0000) + Low16(x / 0x1_0000)
  }

  function Header(f: Fields): (s: seq<u8>)
    requires |f.jump| == 3 && |f.oem| == 8
    ensures |s| == 36
  {
    f.jump + f.oem + Low16(f.sectorSize) + [f.spc] + Low16(f.reserved) + [f.numFats] + Low16(f.rootEntries)
    + Low16(f.total16) + [f.media] + Low16(f.fatSize) + Low16(f.track) + Low16(f.heads) + Low32(f.hidden)
    + Low32(f.total32)
  }

  lemma HeaderFields(f: Fields)
    requires |f.jump| == 3 && |f.oem| == 8
    ensures var h := Header(f);
            && h[11..13] == Low16(f.sectorSize) && h[13] == f.spc && h[14..16] == Low16(f.reserved)
            && h[16] == f.numFats && h[17..19] == Low16(f.rootEntries) && h[19..21] == Low16(f.total16)
            && h[22..24] == Low16(f.fatSize) && h[32..36] == Low32(f.total32)
  {
  }

  lemma Read16(s: seq<u8>, o: nat, x: u16)
    requires o + 2 <= |s| && s[o..o + 2] == Low16(x)
    ensures Le16(s, o) == x
  {
    assert s[o] == s[o..o + 2][0] && s[o + 1] == s[o..o + 2][1];
  }

  lemma Read32(s: seq<u8>, o: nat, x: u32)
    requires o + 4 <= |s| && s[o..o + 4] == Low32(x)
    ensures Le32(s, o) == x
  {
    assert s[o..o + 2] == s[o..o + 4][..2] && s[o + 2..o + 4] == s[o..o + 4][2..];
    Read16(s, o, x % 0x1_0000);
    Read16(s, o + 2, x / 0x1_0000);
  }

  /** The regions lie one behind the other: reserved sectors, tables, the root
      directory in as few sectors as hold its entries, and as many clusters as
      fit into the sectors that are left. */
  predicate Tiled(b: Bpb, total: nat) {
    && b.rootStart == b.reserved + b.numFats * b.fatSize
    && 32 * b.rootEntries <= 512 * b.rootSectors < 32 * b.rootEntries + 512
    && b.dataStart == b.rootStart + b.rootSectors
    && (total <= b.dataStart ==> b.clusters == 0)
    && (total > b.dataStart ==> b.clusters * b.spc <= total - b.dataStart < (b.clusters + 1) * b.spc)
  }

  /** A boot sector that starts with the fields in order is accepted exactly if
      it ends with the signature, its sector size is 512 and its clusters have
      sectors; the parameters are then those of the fields, the small sector
      count counting unless it is zero, and the regions tile the volume. */
  lemma ParsesFields(s: Sector, f: Fields)
    requires |f.jump| == 3 && |f.oem| == 8 && s[..36] == Header(f)
    ensures ParseBpb(s).Parsed? <==> s[510..] == [0x55, 0xAA] && f.sectorSize == 512 && f.spc != 0
    ensures ParseBpb(s).Parsed? ==>
              var b := ParseBpb(s).b;
              && b.spc == f.spc && b.reserved == f.reserved && b.numFats == f.numFats
              && b.rootEntries == f.rootEntries && b.fatSize == f.fatSize
              && b.totalSectors == (if f.total16 != 0 then f.total16 else f.total32)
              && Tiled(b, b.totalSectors)
  {
    hide Header, Low16, Low32, Le16, Le32, Layout;
    HeaderFields(f);
    Part(s, 11, 13, Header(f));
    Part(s, 14, 16, Header(f));
    Part(s, 17, 19, Header(f));
    Part(s, 19, 21, Header(f));
    Part(s, 22, 24, Header(f));
    Part(s, 32, 36, Header(f));
    assert s[13] == s[..36][13] && s[16] == s[..36][16];
    Read16(s, 11, f.sectorSize);
    Read16(s, 14, f.reserved);
    Read16(s, 17, f.rootEntries);
    Read16(s, 19, f.total16);
    Read16(s, 22, f.fatSize);
    Read32(s, 32, f.total32);
    assert s[510..] == [s[510], s[511]];
    if f.spc != 0 {
      LayoutTiles(f.spc, f.reserved, f.numFats, f.rootEntries,
                  if f.total16 != 0 then f.total16 else f.total32, f.fatSize);
    }
  }

  lemma Part(s: seq<u8>, i: nat, j: nat, h: seq<u8>)
    requires i <= j <= 36 <= |s| && s[..36] == h
    ensures s[i..j] == h[i..j]
  {
    forall k | 0 <= k < j - i ensures s[i..j][k] == h[i..j][k] { assert s[i + k] == s[..36][i + k]; }
  }

  lemma LayoutTiles(spc: nat, reserved: nat, numFats: nat, rootEntries: nat, total: nat, fatSize: nat)
    requires spc > 0
    ensures var b := Layout(spc, reserved, numFats, rootEntries, total, fatSize);
            && b.spc == spc && b.reserved == reserved && b.numFats == numFats && b.rootEntries == rootEntries
            && b.totalSectors == total && b.fatSize == fatSize && Tiled(b, total)
  {
    var b := Layout(spc, reserved, numFats, rootEntries, total, fatSize);
    if total > b.dataStart {
      var left := total - b.dataStart;
      assert left == spc * (left / spc) + left % spc;
      assert (b.clusters + 1) * spc == spc * b.clusters + spc;
    }
  }

  // ---- table, directory and data --------------------------------------------------

  ghost function ByteAt(d: Disk, p: nat): u8
    requires p / 512 < |d|
  {
    d[p / 512][p % 512]
  }

  /** Bytes p to p + n lie on the disk. */
  predicate OnDisk(d: Disk, p: nat, n: nat) { p + n <= 512 * |d| }

  /** Entry c of the table is the 16-bit number, low byte first, at byte 2 c of
      the table. */
  lemma TableBytes(b: Bpb, d: Disk, c: nat)
    requires Good(b, |d|) && c < b.clusters + 2
    ensures var p := 512 * b.reserved + 2 * c;
            && OnDisk(d, p, 2)
            && Abs(b, d).fat[c] == ByteAt(d, p) as int + 256 * (ByteAt(d, p + 1) as int)
  {
    hide Good;
    TableInside(b, |d|, c);
    InGood(b, |d|);
  }

  lemma InGood(b: Bpb, n: nat)
    requires Good(b, n)
    ensures b.reserved + 2 * b.fatSize == b.rootStart && b.rootStart + b.rootSectors == b.dataStart <= n
  {
    assert 0 <= b.clusters * b.spc;
  }

  /** Entry i of the directory has its name in the first eleven bytes of the
      i-th group of 32, the attribute next, the cluster at 26 and the size at 28,
      low bytes first. */
  lemma EntryBytes(b: Bpb, d: Disk, i: nat, k: nat)
    requires Good(b, |d|) && i < b.rootSectors * 16 && k < 11
    ensures var (p, e) := (512 * b.rootStart + 32 * i, Abs(b, d).dir[i]);
            && OnDisk(d, p, 32) && |e.name| == 11 && e.name[k] == ByteAt(d, p + k) && e.attr == ByteAt(d, p + 11)
            && e.cluster == ByteAt(d, p + 26) as int + 256 * (ByteAt(d, p + 27) as int)
            && e.size == ByteAt(d, p + 28) as int + 0x100 * (ByteAt(d, p + 29) as int)
                         + 0x1_0000 * (ByteAt(d, p + 30) as int) + 0x100_0000 * (ByteAt(d, p + 31) as int)
  {
    hide Good, SlotAt, ByteAt, Abs;
    RootInside(b, |d|, i);
    EntryIs(b, d, i);
    var s, o := d[b.rootStart + i / 16], i % 16 * 32;
    SlotBytes(s, o, k);
    ByteOfEntry(d, b.rootStart, i, k);
    ByteOfEntry(d, b.rootStart, i, 11);
    ByteOfEntry(d, b.rootStart, i, 26);
    ByteOfEntry(d, b.rootStart, i, 27);
    ByteOfEntry(d, b.rootStart, i, 28);
    ByteOfEntry(d, b.rootStart, i, 29);
    ByteOfEntry(d, b.rootStart, i, 30);
    ByteOfEntry(d, b.rootStart, i, 31);
    assert 512 * b.rootStart + 32 * i + 32 <= 512 * |d|;
  }

  lemma EntryIs(b: Bpb, d: Disk, i: nat)
    requires Good(b, |d|) && i < b.rootSectors * 16 && b.rootStart + i / 16 < |d|
    ensures Abs(b, d).dir[i] == SlotAt(d[b.rootStart + i / 16], i % 16 * 32)
  {
  }

  lemma ByteOfEntry(d: Disk, base: nat, i: nat, k: nat)
    requires k < 32 && base + i / 16 < |d|
    ensures (512 * base + 32 * i + k) / 512 < |d|
    ensures ByteAt(d, 512 * base + 32 * i + k) == d[base + i / 16][i % 16 * 32 + k]
  {
    Aligned(base, i, k, |d|);
  }

  lemma Aligned(base: nat, i: nat, k: nat, n: nat)
    requires k < 32 && base + i / 16 < n
    ensures (512 * base + 32 * i + k) / 512 == base + i / 16 && (512 * base + 32 * i + k) % 512 == i % 16 * 32 + k
    ensures 512 * base + 32 * i + 32 <= 512 * n
  {
  }

  lemma SlotBytes(s: Sector, o: nat, k: nat)
    requires o + 32 <= 512 && k < 11
    ensures var e := SlotAt(s, o);
            && e.name[k] == s[o + k] && e.attr == s[o + 11]
            && e.cluster == s[o + 26] as int + 256 * (s[o + 27] as int)
            && e.size == s[o + 28] as int + 0x100 * (s[o + 29] as int)
                         + 0x1_0000 * (s[o + 30] as int) + 0x100_0000 * (s[o + 31] as int)
  {
  }

  function DataByte(b: Bpb, c: nat, k: nat): nat
    requires c >= 2
  {
    512 * (b.dataStart + (c - 2) * b.spc) + k
  }

  /** Byte k of cluster c, counting clusters from 2, is byte k behind the c - 2
      clusters before it. */
  lemma ClusterBytes(b: Bpb, d: Disk, c: nat, k: nat)
    requires Good(b, |d|) && 2 <= c < b.clusters + 2 && k < 512 * b.spc
    ensures var p := DataByte(b, c, k);
            && OnDisk(d, p, 1) && |Concat(Abs(b, d).data[c - 2])| == 512 * b.spc
            && Concat(Abs(b, d).data[c - 2])[k] == ByteAt(d, p)
  {
    hide Good, Concat;
    assert DataByte(b, c, k) == 512 * DataSector(b, c - 2, k / 512) + k % 512;
    ConcatAt(Cluster(b, d, c - 2), k);
    InsideDisk(b, |d|, c - 2, k / 512);
  }

  lemma {:induction false} ConcatAt(ss: seq<Sector>, k: nat)
    requires k < 512 * |ss|
    ensures Concat(ss)[k] == ss[k / 512][k % 512]
  {
    if k >= 512 {
      ConcatAt(ss[1..], k - 512);
    }
  }
}
