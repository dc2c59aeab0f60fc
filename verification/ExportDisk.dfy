// The export disk as the kernel drives it: whole sectors go through one
// 512-byte buffer that is edited in place. The ghost field `vol` is the FAT16
// volume on the sectors, and every operation is proved against module Fat16.

module ExportDisk {
  import opened Words
  import opened Fat16
  import opened FatCorrect
  import opened Sectors

  datatype DiskError =
    | DeviceError | BootInvalid(e: BootError) | FileNotFound | SizeExceedsLimit | NotEnoughSpace | RootFull

  datatype Result<T> = Ok(value: T) | Err(error: DiskError)

  ghost predicate NoVolume(d: Disk) {
    |d| == 0 || ParseBpb(d[0]).Invalid?
  }

  class Drive {
    const sectors: array<Sector>
    const buf: array<u8>
    ghost var geo: Bpb
    ghost var vol: Volume

    /** The disk holds the volume `vol`, and its two tables are equal. */
    ghost predicate Valid()
      reads this, sectors
    {
      && buf.Length == 512 && Good(geo, sectors.Length)
      && sectors.Length > 0 && ParseBpb(sectors[0]) == Parsed(geo)
      && Mirrored(geo, sectors[..])
      && vol == Abs(geo, sectors[..])
    }

    // ---- the device --------------------------------------------------------

    method ReadSector(lba: nat) returns (ok: bool)
      requires buf.Length == 512
      modifies buf
      ensures ok == (lba < sectors.Length)
      ensures ok ==> buf[..] == sectors[lba]
    {
      if lba >= sectors.Length { return false; }
      forall k | 0 <= k < 512 { buf[k] := sectors[lba][k]; }
      ok := true;
    }

    method WriteSector(lba: nat) returns (ok: bool)
      requires buf.Length == 512
      modifies sectors
      ensures ok == (lba < sectors.Length)
      ensures sectors[..] == if ok then old(sectors[..])[lba := buf[..]] else old(sectors[..])
    {
      if lba >= sectors.Length { return false; }
      sectors[lba] := buf[..];
      ok := true;
    }

    /** The disk has no boot sector the parser accepts, or holds a volume. */
    ghost predicate Ready()
      reads this, sectors
    {
      buf.Length == 512 && (NoVolume(sectors[..]) || Valid())
    }

    /** Reads and checks the boot sector, as every operation does first. */
    method GetBpb() returns (r: Result<Bpb>)
      requires Ready()
      modifies buf
      ensures r.Ok? <==> !NoVolume(sectors[..])
      ensures r.Ok? ==>
        Valid() && r.value == geo && Sane(vol) && vol.spc == geo.spc && |vol.dir| == geo.rootSectors * 16
    {
      var ok := ReadSector(0);
      if !ok { return Err(DeviceError); }
      match ParseBpb(buf[..])
      case Parsed(b) => r := Ok(b);
      case Invalid(e) => r := Err(BootInvalid(e));
    }

    // ---- table entries -------------------------------------------------------

    method ReadFat(b: Bpb, c: nat) returns (r: Result<u16>)
      requires Valid() && b == geo
      modifies buf
      ensures c < |vol.fat| ==> r == Ok(vol.fat[c])
    {
      hide ParseBpb, Mirrored, Good;
      if c < b.clusters + 2 { TableInside(b, sectors.Length, c); }
      var ok := ReadSector(FatSector(b, c));
      if !ok { return Err(DeviceError); }
      var o := c * 2 % 512;
      r := Ok(Le16(buf[..], o));
    }

    /** Sets a table entry and mirrors its sector to the second table. */
    method WriteFat(b: Bpb, c: nat, x: u16)
      requires Valid() && b == geo && c < |vol.fat|
      modifies sectors, buf, this`vol
      ensures Valid() && vol == old(vol).(fat := old(vol).fat[c := x])
    {
      ghost var d := sectors[..];
      TableInside(b, sectors.Length, c);
      PutFatAbs(b, d, c, x);
      var k := FatSector(b, c);
      var _ := ReadSector(k);
      var o := c * 2 % 512;
      buf[o], buf[o + 1] := x % 256, x / 256;
      assert buf[..] == Put16(d[k], o, x);
      var _ := WriteSector(k);
      var _ := WriteSector(k + b.fatSize);
      assert sectors[..] == PutFat(b, d, c, x);
      vol := vol.(fat := vol.fat[c := x]);
    }

    // ---- directory entries ---------------------------------------------------

    /** Reads directory sector sec. */
    method ReadDirectory(b: Bpb, sec: nat)
      requires Valid() && b == geo && sec < b.rootSectors
      modifies buf
      ensures |vol.dir| == b.rootSectors * 16 && sec * 16 + 16 <= |vol.dir|
      ensures b.rootStart + sec < sectors.Length && buf[..] == sectors[b.rootStart + sec]
      ensures vol.dir[sec * 16..sec * 16 + 16] == Slots(buf[..])
    {
      RootInside(b, sectors.Length, sec * 16);
      var _ := ReadSector(b.rootStart + sec);
      forall e | 0 <= e < 16 ensures vol.dir[sec * 16..sec * 16 + 16][e] == Slots(buf[..])[e] {
        EntryHere(b, sectors[..], sec, e);
      }
    }

    /** The entry a lookup of the name finds, with its sector in the buffer. */
    method FindEntry(b: Bpb, target: seq<u8>) returns (i: nat)
      requires Valid() && b == geo && |target| == 11
      requires Sane(vol) && |vol.dir| == b.rootSectors * 16
      modifies buf
      ensures i == Find(vol, target)
      ensures i < |vol.dir| ==> b.rootStart + i / 16 < sectors.Length && buf[..] == sectors[b.rootStart + i / 16]
    {
      hide Valid, Matches, Live, Slots, Hit, FindFrom;
      var sec := 0;
      while sec < b.rootSectors
        invariant sec <= b.rootSectors
        invariant forall j :: 0 <= j < sec * 16 ==> !Matches(vol.dir, j, target)
      {
        ReadDirectory(b, sec);
        var e := ScanForName(buf, target);
        HitsMatch(vol.dir, sec, Slots(buf[..]), e, target);
        if e < 16 {
          FindFirst(vol, target, 0, sec * 16 + e);
          assert (sec * 16 + e) / 16 == sec;
          return sec * 16 + e;
        }
        sec := sec + 1;
      }
      i := b.rootSectors * 16;
      FindFirst(vol, target, 0, i);
    }

    /** The entry a write uses, with its sector in the buffer. */
    method FindSlot(b: Bpb, target: seq<u8>) returns (i: nat)
      requires Valid() && b == geo && |target| == 11
      requires Sane(vol) && |vol.dir| == b.rootSectors * 16
      modifies buf
      ensures i == SlotFrom(vol.dir, target, 0)
      ensures i < |vol.dir| ==> b.rootStart + i / 16 < sectors.Length && buf[..] == sectors[b.rootStart + i / 16]
    {
      hide Valid, Takes, Slots, SlotFrom;
      var sec := 0;
      while sec < b.rootSectors
        invariant sec <= b.rootSectors
        invariant forall j :: 0 <= j < sec * 16 ==> !Takes(vol.dir[j], target)
      {
        ReadDirectory(b, sec);
        var e := ScanForSpace(buf, target);
        InSector(vol.dir, sec, Slots(buf[..]), e, target);
        if e < 16 {
          SlotFirst(vol.dir, target, 0, sec * 16 + e);
          assert (sec * 16 + e) / 16 == sec;
          return sec * 16 + e;
        }
        sec := sec + 1;
      }
      i := b.rootSectors * 16;
      SlotFirst(vol.dir, target, 0, i);
    }

    /** Writes the buffer, in which entry i was edited, back to its sector. */
    method SaveSlot(b: Bpb, i: nat)
      requires Valid() && b == geo && i < |vol.dir| && b.rootStart + i / 16 < sectors.Length
      requires var o := i % 16 * 32;
               && buf[..o] == sectors[b.rootStart + i / 16][..o]
               && buf[o + 32..] == sectors[b.rootStart + i / 16][o + 32..]
      modifies sectors, this`vol
      ensures Valid() && vol == old(vol).(dir := old(vol).dir[i := SlotAt(buf[..], i % 16 * 32)])
    {
      assert buf[..][..i % 16 * 32] == buf[..i % 16 * 32];
      assert buf[..][i % 16 * 32 + 32..] == buf[i % 16 * 32 + 32..];
      RootInside(b, sectors.Length, i);
      PutSlotAbs(b, sectors[..], i, buf[..]);
      var _ := WriteSector(b.rootStart + i / 16);
      vol := vol.(dir := vol.dir[i := SlotAt(buf[..], i % 16 * 32)]);
    }

    // ---- reading -------------------------------------------------------------

    /** Copies what is wanted of sector s of cluster c to out[now..]. */
    method ReadPart(b: Bpb, c: nat, s: nat, n: nat, out: array<u8>, now: nat) returns (ok: bool)
      requires Valid() && b == geo && out != buf && 2 <= c && s < b.spc && n <= 512 && now + n <= out.Length
      modifies buf, out
      ensures out[..now] == old(out[..now])
      ensures c < |vol.fat| ==>
        ok && c - 2 < |vol.data| && s < |vol.data[c - 2]| && out[now..now + n] == vol.data[c - 2][s][..n]
    {
      if c < |vol.fat| { InsideDisk(b, sectors.Length, c - 2, s); }
      ok := ReadSector(DataSector(b, c - 2, s));
      if !ok { return; }
      CopyTo(buf, n, out, now);
      assert buf[..][..n] == buf[..n];
    }

    /** Copies sectors of one cluster behind the bytes read so far. */
    method ReadCluster(b: Bpb, c: nat, want: nat, read: nat, out: array<u8>) returns (ok: bool, now: nat)
      requires Valid() && b == geo && out != buf && 2 <= c && read < want <= out.Length && b.spc > 0
      requires Sane(vol) && vol.spc == b.spc
      modifies buf, out
      ensures ok ==> read < now <= want && out[..read] == old(out[..read])
      ensures c < |vol.fat| ==> ok && out[read..now] == Take(Concat(vol.data[c - 2]), want - read)
    {
      hide Valid, Concat, Take;
      now := read;
      var s := 0;
      TakeNone(want - read);
      while s < b.spc && now < want
        invariant s <= b.spc && now == read + Min(512 * s, want - read)
        invariant out[..read] == old(out[..read])
        invariant c < |vol.fat| ==> out[read..now] == Take(Concat(vol.data[c - 2][..s]), want - read)
      {
        ghost var before := out[..now];
        var chunk := Min(512, want - now);
        ok := ReadPart(b, c, s, chunk, out, now);
        if !ok { return; }
        assert out[read..now] == before[read..];
        if c < |vol.fat| {
          TakeMore(vol.data[c - 2], s, want - read);
          assert out[read..now + chunk] == out[read..now] + out[now..now + chunk];
        }
        now := now + chunk;
        s := s + 1;
      }
      ok := true;
      if c < |vol.fat| { TakeAll(vol.data[c - 2], s, want - read); }
    }

    /** Copies the chain from cluster `first` into out until the file or the
        buffer ends. Stops on any table contents, cyclic chains included. */
    method ReadClusters(b: Bpb, first: nat, size: nat, out: array<u8>) returns (r: Result<nat>)
      requires Valid() && b == geo && out != buf && Sane(vol) && vol.spc == b.spc
      modifies buf, out
      ensures match ReadChain(vol, first, Min(size, out.Length))
              case Content(bytes) => |bytes| <= out.Length && r == Ok(|bytes|) && out[..|bytes|] == bytes
              case _ => true
    {
      hide Valid, Concat, Progress, ReadChain, Take;
      var want := Min(size, out.Length);
      var read := 0;
      var c: nat := first;
      ProgressStart(vol, first, want);
      while 2 <= c < 0xFFF8 && read < want
        invariant read <= want && Progress(vol, first, want, c, out[..read])
        decreases want - read
      {
        ghost var before := out[..read];
        ghost var start := read;
        var ok;
        ok, read := ReadCluster(b, c, want, read, out);
        if c >= |vol.fat| { ProgressLost(vol, first, want, c, before); }
        if !ok { return Err(DeviceError); }
        var next := ReadFat(b, c);
        if next.Err? { return Err(DeviceError); }
        if c < |vol.fat| {
          assert out[..read] == before + out[start..read];
          ProgressStep(vol, first, want, c, before, out[..read]);
        } else {
          ProgressVoid(vol, first, want, next.value, out[..read]);
        }
        c := next.value;
      }
      ProgressEnd(vol, first, want, c, out[..read]);
      r := Ok(read);
    }

    /** First cluster and size of entry i, whose sector is in the buffer. */
    method SlotFields(b: Bpb, i: nat) returns (first: u16, size: u32)
      requires Valid() && b == geo && i < |vol.dir|
      requires b.rootStart + i / 16 < sectors.Length && buf[..] == sectors[b.rootStart + i / 16]
      ensures first == vol.dir[i].cluster && size == vol.dir[i].size
    {
      SlotHere(b, sectors[..], i);
      var o := i % 16 * 32;
      first := Le16(buf[..], o + 26);
      size := Le32(buf[..], o + 28);
    }

    /** Reads a file by its 8.3 name. */
    method ReadFile(target: seq<u8>, out: array<u8>) returns (r: Result<nat>)
      requires Ready() && |target| == 11 && out != buf
      modifies buf, out
      ensures NoVolume(sectors[..]) ==> r.Err?
      ensures !NoVolume(sectors[..]) ==>
              Valid() && Sane(vol) &&
              match Read(vol, target, out.Length)
              case NotFound => r == Err(FileNotFound)
              case Content(bytes) => |bytes| <= out.Length && r == Ok(|bytes|) && out[..|bytes|] == bytes
              case OffVolume => true
    {
      var bpb := GetBpb();
      if bpb.Err? { return Err(bpb.error); }
      var b := bpb.value;
      hide Valid, Find, ReadChain, NoVolume;
      var i := FindEntry(b, target);
      if i == b.rootSectors * 16 { return Err(FileNotFound); }
      var first, size := SlotFields(b, i);
      if size == 0 || first < 2 { return Ok(0); }
      r := ReadClusters(b, first, size, out);
    }

    // ---- deleting ------------------------------------------------------------

    /** Marks entry i, whose sector is in the buffer, as erased. */
    method EraseSlot(b: Bpb, i: nat)
      requires Valid() && b == geo && i < |vol.dir|
      requires b.rootStart + i / 16 < sectors.Length && buf[..] == sectors[b.rootStart + i / 16]
      modifies sectors, buf, this`vol
      ensures Valid() && |old(vol).dir[i].name| == 11
      ensures vol == old(vol).(dir := old(vol).dir[i := Erase(old(vol).dir[i])])
    {
      SlotHere(b, sectors[..], i);
      var o := i % 16 * 32;
      ghost var s := sectors[b.rootStart + i / 16];
      assert SlotAt(s, o) == vol.dir[i];
      buf[o] := 0xE5;
      assert buf[..] == s[o := 0xE5];
      assert SlotAt(buf[..], o) == Erase(SlotAt(s, o));
      hide Valid;
      SaveSlot(b, i);
    }

    /** Frees the chain from cluster `first` in both tables. */
    method FreeClusters(b: Bpb, first: u16) returns (r: Result<()>)
      requires Valid() && b == geo && FreeChain(vol.fat, first).Freed?
      modifies sectors, buf, this`vol
      ensures Valid() && r == Ok(()) && vol == old(vol).(fat := FreeChain(old(vol).fat, first).fat)
    {
      hide Valid, FreeChain;
      ghost var goal := FreeChain(vol.fat, first);
      var c := first;
      while 2 <= c < 0xFFF8
        invariant Valid() && vol == old(vol).(fat := vol.fat) && FreeChain(vol.fat, c) == goal
        decreases Used(vol.fat), c
      {
        FreeStep(vol.fat, c);
        var next := ReadFat(b, c);
        if next.Err? { return Err(DeviceError); }
        WriteFat(b, c, 0);
        c := next.value;
      }
      FreeEnd(vol.fat, c);
      r := Ok(());
    }

    /** Deletes a file by its 8.3 name; a missing file is no error. */
    method DeleteFile(target: seq<u8>) returns (r: Result<()>)
      requires Ready() && |target| == 11
      requires !NoVolume(sectors[..]) ==> Valid() && Sane(vol) && Delete(vol, target).Deleted?
      modifies sectors, buf, this`vol
      ensures NoVolume(old(sectors[..])) ==> r.Err? && sectors[..] == old(sectors[..])
      ensures !NoVolume(old(sectors[..])) ==>
              Valid() && r == Ok(()) && Delete(old(vol), target) == Deleted(vol)
    {
      var bpb := GetBpb();
      if bpb.Err? { return Err(bpb.error); }
      var b := bpb.value;
      hide Valid, Find, FreeChain, NoVolume;
      var i := FindEntry(b, target);
      if i == b.rootSectors * 16 { return Ok(()); }
      var first, _ := SlotFields(b, i);
      EraseSlot(b, i);
      r := FreeClusters(b, first);
    }

    // ---- writing -------------------------------------------------------------

    method IsFree(b: Bpb, c: nat) returns (free: bool)
      requires Valid() && b == geo && c < |vol.fat|
      modifies buf
      ensures free == (vol.fat[c] == 0)
    {
      var val := ReadFat(b, c);
      free := val == Ok(0);
    }

    /** The first `need` free clusters, or all there are. */
    method Allocate(b: Bpb, need: nat) returns (cs: seq<nat>)
      requires Valid() && b == geo && 0 < need <= MAX_CLUSTERS && |vol.fat| == b.clusters + 2
      modifies buf
      ensures cs == FreeFrom(vol.fat, 2, need)
    {
      hide Valid, FreeFrom, AllocateGoal;
      ghost var fat := vol.fat;
      var clusters := new nat[MAX_CLUSTERS];
      var found := 0;
      var c := 2;
      AllocateStart(fat, need, clusters[..found]);
      while c < b.clusters + 2 && found < need
        invariant c <= b.clusters + 2 && found <= need && AllocateGoal(fat, need, clusters[..found], c)
      {
        var free := IsFree(b, c);
        AllocateStep(fat, need, clusters[..found], c);
        if free {
          clusters[found] := c;
          assert clusters[..found + 1] == clusters[..found] + [c];
          found := found + 1;
        }
        c := c + 1;
      }
      cs := clusters[..found];
      AllocateEnd(fat, need, cs, c);
    }

    /** Puts the next bytes, padded with zeros, into sector s of cluster c + 2. */
    method StoreSector(b: Bpb, c: nat, s: nat, bytes: seq<u8>)
      requires Valid() && b == geo && c < |vol.data| && s < |vol.data[c]|
      modifies sectors, buf, this`vol
      ensures Valid() && vol == old(vol).(data := old(vol).data[c := PutSector(old(vol).data[c], s, Pad(bytes))])
    {
      InsideDisk(b, sectors.Length, c, s);
      PutDataAbs(b, sectors[..], c, s, Pad(bytes));
      FillBuffer(buf, bytes);
      var _ := WriteSector(DataSector(b, c, s));
      vol := vol.(data := vol.data[c := PutSector(vol.data[c], s, Pad(bytes))]);
    }

    /** Fills one cluster with the bytes from position `at` on. */
    method StoreCluster(b: Bpb, c: nat, bytes: seq<u8>, at: nat) returns (now: nat)
      requires Valid() && b == geo && c < |vol.data| && at <= |bytes| && |vol.data[c]| == b.spc
      modifies sectors, buf, this`vol
      ensures Valid() && vol == old(vol).(data := old(vol).data[c := Fill(bytes[at..], b.spc)])
      ensures at <= now <= |bytes| && bytes[now..] == Drop(bytes[at..], 512 * b.spc)
    {
      hide Valid, Fill, Pad;
      ghost var rest := bytes[at..];
      ghost var sectors0 := vol.data[c];
      now := at;
      var s := 0;
      FillNone(rest, sectors0);
      assert vol.data == vol.data[c := sectors0];
      while s < b.spc
        invariant s <= b.spc && Valid() && at <= now <= |bytes| && bytes[now..] == Drop(rest, 512 * s)
        invariant vol == old(vol).(data := old(vol).data[c := Fill(rest, s) + sectors0[s..]])
      {
        StoreSector(b, c, s, bytes[now..]);
        FillMore(rest, s, sectors0);
        now := if |bytes| - now <= 512 then |bytes| else now + 512;
        s := s + 1;
      }
      assert Fill(rest, s) + sectors0[s..] == Fill(rest, s);
    }

    method StoreClusters(b: Bpb, cs: seq<nat>, bytes: seq<u8>)
      requires Valid() && b == geo && Inside(cs, |vol.data|) && Sane(vol) && b.spc == vol.spc
      modifies sectors, buf, this`vol
      ensures Valid() && vol == old(vol).(data := Store(old(vol).data, b.spc, cs, bytes))
    {
      hide Valid, Fill, Store;
      ghost var goal := Store(vol.data, b.spc, cs, bytes);
      var now := 0;
      var i := 0;
      assert cs[0..] == cs && bytes[0..] == bytes;
      while i < |cs|
        invariant i <= |cs| && now <= |bytes| && Valid() && Sane(vol) && |vol.data| == |old(vol).data|
        invariant vol == old(vol).(data := vol.data)
        invariant Store(vol.data, b.spc, cs[i..], bytes[now..]) == goal
      {
        StoreStep(vol.data, b.spc, cs[i..], bytes[now..]);
        assert cs[i..][1..] == cs[i + 1..];
        now := StoreCluster(b, cs[i] - 2, bytes, now);
        i := i + 1;
      }
      StoreEnd(vol.data, b.spc, cs[i..], bytes[now..]);
    }

    /** Links the clusters into one chain in both tables. */
    method LinkClusters(b: Bpb, cs: seq<nat>)
      requires Valid() && b == geo && Sane(vol) && Inside(cs, |vol.data|)
      modifies sectors, buf, this`vol
      ensures Valid() && vol == old(vol).(fat := LinkFrom(old(vol).fat, cs, 0))
    {
      hide Valid, LinkFrom;
      ghost var goal := LinkFrom(vol.fat, cs, 0);
      var i := 0;
      while i < |cs|
        invariant i <= |cs| && Valid() && |vol.fat| == |old(vol).fat|
        invariant vol == old(vol).(fat := vol.fat) && LinkFrom(vol.fat, cs, i) == goal
      {
        LinkStep(vol.fat, cs, i);
        WriteFat(b, cs[i], if i + 1 < |cs| then cs[i + 1] else END_OF_CHAIN);
        i := i + 1;
      }
      LinkStep(vol.fat, cs, i);
    }

    /** Saves entry i, whose sector is in the buffer, for the new file. */
    method SaveEntry(b: Bpb, i: nat, target: seq<u8>, first: u16, size: u32)
      requires Valid() && b == geo && i < |vol.dir| && |target| == 11
      requires b.rootStart + i / 16 < sectors.Length && buf[..] == sectors[b.rootStart + i / 16]
      modifies sectors, buf, this`vol
      ensures Valid() && vol == old(vol).(dir := old(vol).dir[i := Slot(target, ARCHIVE, first, size)])
    {
      var o := i % 16 * 32;
      ghost var s := buf[..];
      EditEntry(buf, o, target, first, size);
      SaveSlot(b, i);
    }

    /** Stores and links the clusters and saves the entry. */
    method StoreFile(b: Bpb, target: seq<u8>, cs: seq<nat>, bytes: seq<u8>) returns (r: Result<nat>)
      requires Valid() && b == geo && Sane(vol) && vol.spc == b.spc && |vol.dir| == b.rootSectors * 16
      requires |target| == 11 && |bytes| < 0x1_0000_0000 && |cs| > 0 && Inside(cs, |vol.data|)
      modifies sectors, buf, this`vol
      ensures Valid() && Sane(old(vol))
      ensures var i := SlotFrom(old(vol).dir, target, 0);
              var w := Stored(old(vol), cs, bytes);
              if i == |old(vol).dir| then r == Err(RootFull) && vol == w
              else cs[0] < 0x1_0000 && r == Ok(|bytes|) && vol == Saved(w, i, target, cs, |bytes|)
    {
      hide Valid, Store, LinkFrom, SlotFrom;
      StoredSane(vol, cs, bytes);
      StoreFrame(vol.data, vol.spc, cs, bytes);
      StoreClusters(b, cs, bytes);
      LinkClusters(b, cs);
      assert vol == Stored(old(vol), cs, bytes);
      var i := FindSlot(b, target);
      if i == b.rootSectors * 16 { return Err(RootFull); }
      SaveEntry(b, i, target, cs[0], |bytes|);
      r := Ok(|bytes|);
    }

    /** Writes a file under its 8.3 name. */
    method WriteFile(target: seq<u8>, bytes: seq<u8>) returns (r: Result<nat>)
      requires Ready() && |target| == 11 && |bytes| < 0x1_0000_0000
      modifies sectors, buf, this`vol
      ensures NoVolume(old(sectors[..])) ==> r.Err? && sectors[..] == old(sectors[..])
      ensures !NoVolume(old(sectors[..])) ==>
              Valid() && Sane(old(vol)) && vol == Write(old(vol), target, bytes).1 &&
              match Write(old(vol), target, bytes).0
              case Written(n) => r == Ok(n)
              case TooLarge => r == Err(SizeExceedsLimit)
              case NoSpace => r == Err(NotEnoughSpace)
              case DirectoryFull => r == Err(RootFull)
    {
      var bpb := GetBpb();
      if bpb.Err? { return Err(bpb.error); }
      var b := bpb.value;
      WriteSteps(vol, target, bytes);
      hide Valid, Write, Needed, FreeFrom, SlotFrom, Stored, Saved, NoVolume;
      var need := Needed(|bytes|, b.spc);
      if need > MAX_CLUSTERS { return Err(SizeExceedsLimit); }
      var cs := Allocate(b, need);
      if |cs| < need { return Err(NotEnoughSpace); }
      r := StoreFile(b, target, cs, bytes);
    }
  }

  // ---- deleting and writing, step by step -----------------------------------

  lemma FreeStep(fat: seq<u16>, c: u16)
    requires FreeChain(fat, c).Freed? && 2 <= c < 0xFFF8
    ensures c < |fat| && FreeChain(fat, c) == FreeChain(fat[c := 0], fat[c])
    ensures Used(fat[c := 0]) < Used(fat) || (Used(fat[c := 0]) == Used(fat) && fat[c] < c)
  {
    ClearUses(fat, c);
  }

  lemma FreeEnd(fat: seq<u16>, c: u16)
    requires c < 2 || c >= 0xFFF8
    ensures FreeChain(fat, c) == Freed(fat)
  {
  }

  /** The clusters found below c, and those still to be found from c on. */
  ghost predicate AllocateGoal(fat: seq<u16>, need: nat, cs: seq<nat>, c: nat) {
    |cs| <= need && FreeFrom(fat, 2, need) == cs + FreeFrom(fat, c, need - |cs|)
  }

  lemma AllocateStart(fat: seq<u16>, need: nat, cs: seq<nat>)
    requires cs == []
    ensures AllocateGoal(fat, need, cs, 2)
  {
    hide FreeFrom;
  }

  lemma AllocateStep(fat: seq<u16>, need: nat, cs: seq<nat>, c: nat)
    requires AllocateGoal(fat, need, cs, c) && c < |fat| && |cs| < need
    ensures AllocateGoal(fat, need, if fat[c] == 0 then cs + [c] else cs, c + 1)
  {
    var rest := FreeFrom(fat, c, need - |cs|);
    if fat[c] == 0 {
      assert rest == [c] + FreeFrom(fat, c + 1, need - |cs| - 1);
    } else {
      assert rest == FreeFrom(fat, c + 1, need - |cs|);
    }
  }

  lemma AllocateEnd(fat: seq<u16>, need: nat, cs: seq<nat>, c: nat)
    requires AllocateGoal(fat, need, cs, c) && (c >= |fat| || |cs| == need)
    ensures cs == FreeFrom(fat, 2, need)
  {
  }

  /** Zeros, then as many of the bytes as fit. */
  method FillBuffer(buf: array<u8>, bytes: seq<u8>)
    requires buf.Length == 512
    modifies buf
    ensures buf[..] == Pad(bytes)
  {
    forall k | 0 <= k < 512 { buf[k] := 0; }
    var chunk := Min(512, |bytes|);
    forall k | 0 <= k < chunk { buf[k] := bytes[k]; }
    assert forall k :: chunk <= k < 512 ==> buf[k] == 0;
  }

  lemma FillNone(bytes: seq<u8>, was: seq<Sector>)
    ensures Fill(bytes, 0) + was[0..] == was
  {
  }

  lemma {:induction false} FillMore(bytes: seq<u8>, s: nat, was: seq<Sector>)
    requires s < |was|
    ensures PutSector(Fill(bytes, s) + was[s..], s, Pad(Drop(bytes, 512 * s))) == Fill(bytes, s + 1) + was[s + 1..]
    decreases s
  {
    FillSnoc(bytes, s);
  }

  lemma {:induction false} FillSnoc(bytes: seq<u8>, s: nat)
    ensures Fill(bytes, s + 1) == Fill(bytes, s) + [Pad(Drop(bytes, 512 * s))]
    decreases s
  {
    hide Pad, Drop;
    if s > 0 {
      FillSnoc(Drop(bytes, 512), s - 1);
      DropTwice(bytes, s);
      FillStep(bytes, s + 1);
      FillStep(bytes, s);
      hide Fill;
    } else {
      DropNothing(bytes);
    }
  }

  lemma FillStep(bytes: seq<u8>, n: nat)
    requires n > 0
    ensures Fill(bytes, n) == [Pad(bytes)] + Fill(Drop(bytes, 512), n - 1)
  {
  }

  lemma DropNothing(bytes: seq<u8>)
    ensures Drop(bytes, 0) == bytes
  {
  }

  lemma DropTwice(bytes: seq<u8>, s: nat)
    requires s > 0
    ensures Drop(Drop(bytes, 512), 512 * (s - 1)) == Drop(bytes, 512 * s)
  {
  }

  lemma StoreStep(data: seq<seq<Sector>>, spc: nat, cs: seq<nat>, bytes: seq<u8>)
    requires Inside(cs, |data|) && cs != []
    ensures Inside(cs[1..], |data|)
    ensures Store(data, spc, cs, bytes) == Store(data[cs[0] - 2 := Fill(bytes, spc)], spc, cs[1..],
        Drop(bytes, 512 * spc))
  {
    hide Fill;
  }

  lemma StoreEnd(data: seq<seq<Sector>>, spc: nat, cs: seq<nat>, bytes: seq<u8>)
    requires cs == []
    ensures Store(data, spc, cs, bytes) == data
  {
  }

  lemma LinkStep(fat: seq<u16>, cs: seq<nat>, i: nat)
    requires i <= |cs| && |fat| <= 0x1_0000 && forall j :: 0 <= j < |cs| ==> cs[j] < |fat|
    ensures LinkFrom(fat, cs, i) == if i == |cs| then fat
            else LinkFrom(fat[cs[i] := if i + 1 < |cs| then cs[i + 1] else END_OF_CHAIN], cs, i + 1)
  {
  }

  /** Overwrites the entry at offset o. */
  method EditEntry(buf: array<u8>, o: nat, target: seq<u8>, first: u16, size: u32)
    requires buf.Length == 512 && o + 32 <= 512 && |target| == 11
    modifies buf
    ensures buf[..o] == old(buf[..o]) && buf[o + 32..] == old(buf[o + 32..])
    ensures SlotAt(buf[..], o) == Slot(target, ARCHIVE, first, size)
  {
    forall k | 0 <= k < 11 { buf[o + k] := target[k]; }
    buf[o + 11] := 0x20;
    forall k | 12 <= k < 26 { buf[o + k] := 0; }
    buf[o + 26], buf[o + 27] := first % 256, first / 256;
    var low, high := size % 0x1_0000, size / 0x1_0000;
    buf[o + 28], buf[o + 29], buf[o + 30], buf[o + 31] := low % 256, low / 256, high % 256, high / 256;
    assert buf[..][o..o + 11] == target;
  }

  // ---- reading, byte by byte -------------------------------------------------

  method CopyTo(src: array<u8>, n: nat, dst: array<u8>, at: nat)
    requires src != dst && n <= src.Length && at + n <= dst.Length
    modifies dst
    ensures dst[..at] == old(dst[..at]) && dst[at..at + n] == src[..n]
  {
    forall k | 0 <= k < n { dst[at + k] := src[k]; }
  }

  lemma TakeNone(n: nat)
    ensures Take(Concat([]), n) == []
  {
  }

  lemma {:induction false} ConcatMore(ss: seq<Sector>, s: nat)
    requires s < |ss|
    ensures Concat(ss[..s + 1]) == Concat(ss[..s]) + ss[s]
    decreases s
  {
    if s == 0 {
      assert ss[..1] == [ss[0]];
      assert Concat(ss[..1]) == ss[0] + Concat([]);
    } else {
      ConcatMore(ss[1..], s - 1);
      assert ss[..s + 1][1..] == ss[1..][..s];
      assert ss[..s][1..] == ss[1..][..s - 1];
    }
  }

  /** One sector more of the n bytes to take. */
  lemma TakeMore(ss: seq<Sector>, s: nat, n: nat)
    requires s < |ss| && 512 * s < n
    ensures Take(Concat(ss[..s + 1]), n) == Take(Concat(ss[..s]), n) + ss[s][..Min(512, n - 512 * s)]
  {
    ConcatMore(ss, s);
  }

  lemma {:induction false} ConcatPrefix(ss: seq<Sector>, s: nat)
    requires s <= |ss|
    ensures Concat(ss)[..512 * s] == Concat(ss[..s])
    decreases |ss| - s
  {
    if s == |ss| {
      assert ss[..s] == ss;
    } else {
      ConcatPrefix(ss, s + 1);
      ConcatMore(ss, s);
      assert Concat(ss)[..512 * s] == Concat(ss)[..512 * (s + 1)][..512 * s];
    }
  }

  /** Enough sectors for n bytes give the same n bytes as all sectors. */
  lemma TakeAll(ss: seq<Sector>, s: nat, n: nat)
    requires s <= |ss| && (s == |ss| || n <= 512 * s)
    ensures Take(Concat(ss[..s]), n) == Take(Concat(ss), n)
  {
    ConcatPrefix(ss, s);
    if s == |ss| { assert ss[..s] == ss; } else { assert Concat(ss)[..512 * s][..n] == Concat(ss)[..n]; }
  }

  /** If the whole read stays on the volume, so does the rest of it, and the
      two parts make up the whole. */
  ghost predicate Progress(v: Volume, first: nat, want: nat, c: nat, got: seq<u8>)
    requires Sane(v)
  {
    ReadChain(v, first, want).Content? ==>
      && |got| <= want && ReadChain(v, c, want - |got|).Content?
      && ReadChain(v, first, want).bytes == got + ReadChain(v, c, want - |got|).bytes
  }

  lemma ProgressStart(v: Volume, first: nat, want: nat)
    requires Sane(v)
    ensures Progress(v, first, want, first, [])
  {
    hide ReadChain;
  }

  lemma ProgressStep(v: Volume, first: nat, want: nat, c: nat, got: seq<u8>, more: seq<u8>)
    requires Sane(v) && Progress(v, first, want, c, got) && 2 <= c < 0xFFF8 && |got| < want && c < |v.fat|
    requires more == got + Take(Concat(v.data[c - 2]), want - |got|)
    ensures Progress(v, first, want, v.fat[c], more)
  {
    hide Concat;
  }

  lemma ProgressLost(v: Volume, first: nat, want: nat, c: nat, got: seq<u8>)
    requires Sane(v) && Progress(v, first, want, c, got) && |v.fat| <= c < 0xFFF8 && |got| < want
    ensures !ReadChain(v, first, want).Content?
  {
  }

  lemma ProgressVoid(v: Volume, first: nat, want: nat, c: nat, got: seq<u8>)
    requires Sane(v) && !ReadChain(v, first, want).Content?
    ensures Progress(v, first, want, c, got)
  {
    hide ReadChain;
  }

  lemma ProgressEnd(v: Volume, first: nat, want: nat, c: nat, got: seq<u8>)
    requires Sane(v) && Progress(v, first, want, c, got) && (c < 2 || c >= 0xFFF8 || |got| >= want)
    ensures ReadChain(v, first, want).Content? ==> ReadChain(v, first, want).bytes == got
  {
    hide Concat;
  }

  lemma SlotHere(b: Bpb, d: Disk, i: nat)
    requires Good(b, |d|) && i < b.rootSectors * 16
    ensures b.rootStart + i / 16 < |d| && DirSeq(b, d)[i] == SlotAt(d[b.rootStart + i / 16], i % 16 * 32)
  {
    RootInside(b, |d|, i);
  }

  /** Entry e of directory sector sec. */
  lemma EntryHere(b: Bpb, d: Disk, sec: nat, e: nat)
    requires Good(b, |d|) && sec < b.rootSectors && e < 16
    ensures b.rootStart + sec < |d| && DirSeq(b, d)[sec * 16 + e] == SlotAt(d[b.rootStart + sec], e * 32)
  {
    RootInside(b, |d|, sec * 16 + e);
  }

  // ---- one directory sector ----------------------------------------------------

  /** The 16 entries of a directory sector. */
  function Slots(s: seq<u8>): (r: seq<Slot>)
    requires |s| == 512
    ensures |r| == 16 && forall e :: 0 <= e < 16 ==> r[e] == SlotAt(s, e * 32)
  {
    seq(16, e requires 0 <= e < 16 => SlotAt(s, e * 32))
  }

  /** A scan of a sector's entries reaches entry e and takes it. */
  ghost predicate Hit(slots: seq<Slot>, e: nat, name: seq<u8>)
    requires e < |slots| && forall j :: 0 <= j < |slots| ==> |slots[j].name| == 11
  {
    (forall j :: 0 <= j <= e ==> slots[j].name[0] != 0) && Live(slots[e]) && slots[e].name == name
  }

  /** The first entry with this name before a never-used one, or 16. */
  method ScanForName(buf: array<u8>, target: seq<u8>) returns (e: nat)
    requires buf.Length == 512
    ensures e <= 16 && (forall j :: 0 <= j < e ==> !Hit(Slots(buf[..]), j, target))
    ensures e < 16 ==> Hit(Slots(buf[..]), e, target)
  {
    ghost var slots := Slots(buf[..]);
    e := 0;
    while e < 16
      invariant e <= 16 && forall j :: 0 <= j < e ==> slots[j].name[0] != 0 && !Hit(slots, j, target)
    {
      var o := e * 32;
      assert slots[e] == SlotAt(buf[..], o);
      if buf[o] == 0 {
        assert forall j :: e <= j < 16 ==> !Hit(slots, j, target);
        return 16;
      }
      if buf[o] != 0xE5 && buf[o + 11] % 16 != 15 {
        if buf[o..o + 11] == target { return; }
      }
      e := e + 1;
    }
  }

  /** An entry a write of this name may use. */
  predicate Takes(e: Slot, name: seq<u8>)
    requires |e.name| == 11
  {
    e.name == name || Free(e)
  }

  method ScanForSpace(buf: array<u8>, target: seq<u8>) returns (e: nat)
    requires buf.Length == 512
    ensures e <= 16 && (forall j :: 0 <= j < e ==> !Takes(Slots(buf[..])[j], target))
    ensures e < 16 ==> Takes(Slots(buf[..])[e], target)
  {
    ghost var slots := Slots(buf[..]);
    e := 0;
    while e < 16
      invariant e <= 16 && forall j :: 0 <= j < e ==> !Takes(slots[j], target)
    {
      var o := e * 32;
      assert slots[e] == SlotAt(buf[..], o);
      if buf[o..o + 11] == target || buf[o] == 0 || buf[o] == 0xE5 { return; }
      e := e + 1;
    }
  }

  /** What a sector scan says about the directory. */
  lemma HitsMatch(dir: seq<Slot>, sec: nat, slots: seq<Slot>, e: nat, name: seq<u8>)
    requires sec * 16 + 16 <= |dir| && slots == dir[sec * 16..sec * 16 + 16] && e <= 16
    requires forall j :: 0 <= j < |dir| ==> |dir[j].name| == 11
    requires forall j :: 0 <= j < e ==> !Hit(slots, j, name)
    ensures forall j :: sec * 16 <= j < sec * 16 + e ==> !Matches(dir, j, name)
    ensures e < 16 && Hit(slots, e, name) ==> Matches(dir, sec * 16 + e, name)
  {
    hide Live;
    forall j | sec * 16 <= j < sec * 16 + 16 ensures Matches(dir, j, name) <==> Hit(slots, j - sec * 16, name) {
      assert j / 16 * 16 == sec * 16;
      assert forall i :: sec * 16 <= i <= j ==> slots[i - sec * 16] == dir[i];
      assert forall i :: 0 <= i <= j - sec * 16 ==> dir[sec * 16 + i] == slots[i];
    }
    if e < 16 && Hit(slots, e, name) {
      assert Matches(dir, sec * 16 + e, name) <==> Hit(slots, sec * 16 + e - sec * 16, name);
    }
  }

  lemma InSector(dir: seq<Slot>, sec: nat, slots: seq<Slot>, e: nat, name: seq<u8>)
    requires sec * 16 + 16 <= |dir| && slots == dir[sec * 16..sec * 16 + 16] && e <= 16
    requires forall j :: 0 <= j < |dir| ==> |dir[j].name| == 11
    requires forall j :: 0 <= j < e ==> !Takes(slots[j], name)
    ensures forall j :: sec * 16 <= j < sec * 16 + e ==> !Takes(dir[j], name)
    ensures e < 16 ==> dir[sec * 16 + e] == slots[e]
  {
    forall j | sec * 16 <= j < sec * 16 + e ensures !Takes(dir[j], name) {
      assert dir[j] == slots[j - sec * 16];
    }
  }

  lemma {:induction false} SlotFirst(dir: seq<Slot>, name: seq<u8>, i: nat, at: nat)
    requires i <= at <= |dir| && forall j :: 0 <= j < |dir| ==> |dir[j].name| == 11
    requires forall j :: i <= j < at ==> !Takes(dir[j], name)
    requires at < |dir| ==> Takes(dir[at], name)
    ensures SlotFrom(dir, name, i) == at
    decreases at - i
  {
    if i < at {
      assert !Takes(dir[i], name);
      SlotFirst(dir, name, i + 1, at);
    }
  }
}
