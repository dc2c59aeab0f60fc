// A FAT16 volume as a file allocation table, a root directory and clusters of
// data, with reading, writing and deleting of files in the root directory,
// and what every run of writes and deletes keeps. Follows Microsoft's FAT
// specification v1.03, sections "FAT Data Structure" and "FAT Directory
// Structure", as far as the export disk does.

module Fat16 {
  import opened Words

  type u16 = x: int | 0 <= x < 0x1_0000
  type u32 = x: int | 0 <= x < 0x1_0000_0000

  type Sector = s: seq<u8> | |s| == 512 witness seq(512, _ => 0)

  const MAX_CLUSTERS: nat := 64
  const END_OF_CHAIN: u16 := 0xFFFF
  const ARCHIVE: u8 := 0x20

  /** The part of a 32-byte directory entry that the export disk uses. */
  datatype Slot = Slot(name: seq<u8>, attr: u8, cluster: u16, size: u32)

  datatype Volume = Volume(spc: nat, fat: seq<u16>, dir: seq<Slot>, data: seq<seq<Sector>>)

  /** The shape of a volume; cluster c's sectors are data[c - 2]. */
  ghost predicate Sane(v: Volume) {
    && 1 <= v.spc < 256
    && 2 <= |v.fat| <= 65526
    && |v.data| == |v.fat| - 2
    && (forall k :: 0 <= k < |v.data| ==> |v.data[k]| == v.spc)
    && (forall i :: 0 <= i < |v.dir| ==> |v.dir[i].name| == 11)
  }

  predicate Free(e: Slot)
    requires |e.name| == 11
  {
    e.name[0] == 0 || e.name[0] == 0xE5
  }

  /** An entry that lookups compare: used, not erased, not a long name. */
  predicate Live(e: Slot)
    requires |e.name| == 11
  {
    !Free(e) && e.attr % 16 != 15
  }

  // ---- lookup --------------------------------------------------------------

  /** A scan leaves a directory sector at its first never-used entry. */
  ghost predicate Visible(dir: seq<Slot>, i: nat)
    requires i < |dir| && forall j :: 0 <= j < |dir| ==> |dir[j].name| == 11
  {
    forall j :: i / 16 * 16 <= j <= i ==> dir[j].name[0] != 0
  }

  ghost predicate Matches(dir: seq<Slot>, i: nat, name: seq<u8>)
    requires i < |dir| && forall j :: 0 <= j < |dir| ==> |dir[j].name| == 11
  {
    Visible(dir, i) && Live(dir[i]) && dir[i].name == name
  }

  /** The first entry from i on that a lookup of `name` finds, or the length. */
  ghost function FindFrom(dir: seq<Slot>, name: seq<u8>, i: nat): (r: nat)
    requires i <= |dir| && forall j :: 0 <= j < |dir| ==> |dir[j].name| == 11
    ensures i <= r <= |dir|
    ensures r < |dir| ==> Matches(dir, r, name)
    ensures forall j :: i <= j < r ==> !Matches(dir, j, name)
    decreases |dir| - i
  {
    if i == |dir| || Matches(dir, i, name) then i else FindFrom(dir, name, i + 1)
  }

  ghost function Find(v: Volume, name: seq<u8>): (r: nat)
    requires Sane(v)
    ensures r <= |v.dir|
  {
    FindFrom(v.dir, name, 0)
  }

  // ---- reading -------------------------------------------------------------

  function Concat(ss: seq<Sector>): (r: seq<u8>)
    ensures |r| == 512 * |ss|
  {
    if ss == [] then [] else ss[0] + Concat(ss[1..])
  }

  function Take(s: seq<u8>, n: nat): seq<u8> {
    if n <= |s| then s[..n] else s
  }

  function Drop(s: seq<u8>, n: nat): seq<u8> {
    if n <= |s| then s[n..] else []
  }

  datatype Reading = NotFound | Content(bytes: seq<u8>) | OffVolume

  /** The first `want` bytes along the chain from cluster c. Every turn takes
      at least one byte, so this ends on any table, cyclic ones included. */
  ghost function ReadChain(v: Volume, c: nat, want: nat): (r: Reading)
    requires Sane(v)
    ensures r.Content? ==> |r.bytes| <= want
    ensures !r.NotFound?
    decreases want
  {
    if want == 0 || c < 2 || c >= 0xFFF8 then Content([])
    else if c >= |v.fat| then OffVolume
    else
      var chunk := Take(Concat(v.data[c - 2]), want);
      var rest := ReadChain(v, v.fat[c], want - |chunk|);
      if rest.Content? then Content(chunk + rest.bytes) else rest
  }

  function Min(a: nat, b: nat): nat { if a <= b then a else b }

  /** Reading a file into a buffer of `cap` bytes. */
  ghost function Read(v: Volume, name: seq<u8>, cap: nat): (r: Reading)
    requires Sane(v)
  {
    var i := Find(v, name);
    if i == |v.dir| then NotFound
    else if v.dir[i].size == 0 || v.dir[i].cluster < 2 then Content([])
    else ReadChain(v, v.dir[i].cluster, Min(v.dir[i].size, cap))
  }

  // ---- writing -------------------------------------------------------------

  /** The first k free clusters from c on. */
  function FreeFrom(fat: seq<u16>, c: nat, k: nat): (cs: seq<nat>)
    ensures |cs| <= k
    ensures forall i :: 0 <= i < |cs| ==> c <= cs[i] < |fat| && fat[cs[i]] == 0
    ensures forall i, j :: 0 <= i < j < |cs| ==> cs[i] < cs[j]
    decreases |fat| - c
  {
    if k == 0 || c >= |fat| then []
    else if fat[c] == 0 then [c] + FreeFrom(fat, c + 1, k - 1)
    else FreeFrom(fat, c + 1, k)
  }

  /** Links the clusters from cs[i] on into one chain. */
  function LinkFrom(fat: seq<u16>, cs: seq<nat>, i: nat): (r: seq<u16>)
    requires i <= |cs| && |fat| <= 0x1_0000 && forall j :: 0 <= j < |cs| ==> cs[j] < |fat|
    ensures |r| == |fat|
    decreases |cs| - i
  {
    if i == |cs| then fat
    else LinkFrom(fat[cs[i] := if i + 1 < |cs| then cs[i + 1] else END_OF_CHAIN], cs, i + 1)
  }

  /** One sector with the first bytes and zeros behind them. */
  function Pad(bytes: seq<u8>): Sector {
    if |bytes| >= 512 then bytes[..512] else bytes + seq(512 - |bytes|, _ => 0)
  }

  function Fill(bytes: seq<u8>, n: nat): (r: seq<Sector>)
    ensures |r| == n
    decreases n
  {
    if n == 0 then [] else [Pad(bytes)] + Fill(Drop(bytes, 512), n - 1)
  }

  /** Stores the bytes cluster after cluster. */
  function Store(data: seq<seq<Sector>>, spc: nat, cs: seq<nat>, bytes: seq<u8>): (r: seq<seq<Sector>>)
    requires forall j :: 0 <= j < |cs| ==> 2 <= cs[j] < |data| + 2
    ensures |r| == |data|
    decreases |cs|
  {
    if cs == [] then data
    else Store(data[cs[0] - 2 := Fill(bytes, spc)], spc, cs[1..], Drop(bytes, 512 * spc))
  }

  function Needed(len: nat, spc: nat): (n: nat)
    requires spc > 0
    ensures n > 0
  {
    if len == 0 then 1
    else
      Ceiling(len, spc * 512);
      (len + spc * 512 - 1) / (spc * 512)
  }

  /** The first entry with this name or free for use, or the length. */
  function SlotFrom(dir: seq<Slot>, name: seq<u8>, i: nat): (r: nat)
    requires i <= |dir| && forall j :: 0 <= j < |dir| ==> |dir[j].name| == 11
    ensures i <= r <= |dir|
    ensures r < |dir| ==> dir[r].name == name || Free(dir[r])
    ensures forall j :: i <= j < r ==> dir[j].name != name && !Free(dir[j])
    decreases |dir| - i
  {
    if i == |dir| || dir[i].name == name || Free(dir[i]) then i else SlotFrom(dir, name, i + 1)
  }

  datatype Status = Written(n: nat) | TooLarge | NoSpace | DirectoryFull

  /** Writing a file: allocate, store, link, then save the directory entry. */
  function Write(v: Volume, name: seq<u8>, bytes: seq<u8>): (r: (Status, Volume))
    requires 1 <= v.spc && 2 <= |v.fat| <= 0x1_0000 && |v.data| == |v.fat| - 2 && |bytes| < 0x1_0000_0000
    requires forall j :: 0 <= j < |v.dir| ==> |v.dir[j].name| == 11
  {
    var need := Needed(|bytes|, v.spc);
    if need > MAX_CLUSTERS then (TooLarge, v)
    else
      var cs := FreeFrom(v.fat, 2, need);
      if |cs| < need then (NoSpace, v)
      else
        var v1 := v.(data := Store(v.data, v.spc, cs, bytes), fat := LinkFrom(v.fat, cs, 0));
        var i := SlotFrom(v.dir, name, 0);
        if i == |v.dir| then (DirectoryFull, v1)
        else (Written(|bytes|), v1.(dir := v.dir[i := Slot(name, ARCHIVE, cs[0], |bytes|)]))
  }

  lemma Ceiling(len: nat, unit: nat)
    requires len > 0 && unit > 0
    ensures (len + unit - 1) / unit > 0
  {
    DivAtLeastOne(len + unit - 1, unit);
  }

  lemma DivAtLeastOne(a: nat, b: nat)
    requires a >= b > 0
    ensures a / b >= 1
  {
    assert a == b * (a / b) + a % b;
  }

  // ---- deleting ------------------------------------------------------------

  function Used(fat: seq<u16>): nat {
    if fat == [] then 0 else Used(fat[..|fat| - 1]) + if fat[|fat| - 1] != 0 then 1 else 0
  }

  lemma {:induction false} ClearUses(fat: seq<u16>, c: nat)
    requires c < |fat|
    ensures Used(fat[c := 0]) == Used(fat) - if fat[c] != 0 then 1 else 0
  {
    var n := |fat| - 1;
    if c < n {
      assert fat[c := 0][..n] == fat[..n][c := 0];
      ClearUses(fat[..n], c);
    } else {
      assert fat[c := 0][..n] == fat[..n];
    }
  }

  datatype Freed = Freed(fat: seq<u16>) | Left

  /** Zeroes the chain from c. Used entries become fewer with every turn but
      the last, so this ends on any table, cyclic ones included. */
  function FreeChain(fat: seq<u16>, c: nat): (r: Freed)
    ensures r.Freed? ==> |r.fat| == |fat|
    decreases Used(fat), c
  {
    if c < 2 || c >= 0xFFF8 then Freed(fat)
    else if c >= |fat| then Left
    else
      ClearUses(fat, c);
      FreeChain(fat[c := 0], fat[c])
  }

  datatype Deletion = Deleted(v: Volume) | LeftVolume

  function Erase(e: Slot): Slot
    requires |e.name| == 11
  {
    e.(name := e.name[0 := 0xE5])
  }

  /** Deleting a file; deleting a missing one changes nothing. */
  ghost function Delete(v: Volume, name: seq<u8>): (r: Deletion)
    requires Sane(v)
  {
    var i := Find(v, name);
    if i == |v.dir| then Deleted(v)
    else
      match FreeChain(v.fat, v.dir[i].cluster)
      case Freed(fat) => Deleted(v.(dir := v.dir[i := Erase(v.dir[i])], fat := fat))
      case Left => LeftVolume
  }
}
