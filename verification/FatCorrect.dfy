// What every run of writes and deletes keeps on a FAT16 volume: chains stay
// acyclic, disjoint and terminated, a read returns what was written last, and
// no operation changes what another name reads.

module FatCorrect {
  import opened Words
  import opened Fat16

  // ---- well-formed volumes ---------------------------------------------------

  ghost predicate Unlike(ch: seq<nat>) {
    forall i, j :: 0 <= i < j < |ch| ==> ch[i] != ch[j]
  }

  /** ch are the clusters from c to an end mark, each of them once. */
  ghost predicate IsChain(fat: seq<u16>, c: nat, ch: seq<nat>) {
    && |ch| > 0 && ch[0] == c
    && (forall k :: 0 <= k < |ch| ==> 2 <= ch[k] < |fat|)
    && (forall k :: 0 <= k < |ch| - 1 ==> fat[ch[k]] == ch[k + 1])
    && fat[ch[|ch| - 1]] == END_OF_CHAIN
    && Unlike(ch)
  }

  ghost predicate Inside(ch: seq<nat>, n: nat) {
    forall k :: 0 <= k < |ch| ==> 2 <= ch[k] < n + 2
  }

  /** The data of the clusters of ch, in order. */
  ghost function ChainBytes(data: seq<seq<Sector>>, ch: seq<nat>): seq<u8>
    requires Inside(ch, |data|)
  {
    if ch == [] then [] else Concat(data[ch[0] - 2]) + ChainBytes(data, ch[1..])
  }

  /** A live entry with a first cluster owns a chain that is long enough. */
  ghost predicate Owns(v: Volume, i: nat, ch: seq<nat>)
    requires Sane(v) && i < |v.dir|
  {
    if Live(v.dir[i]) && v.dir[i].cluster >= 2 then
      IsChain(v.fat, v.dir[i].cluster, ch) && v.dir[i].size <= |ChainBytes(v.data, ch)|
    else ch == []
  }

  ghost predicate Apart(a: seq<nat>, b: seq<nat>) {
    forall x :: x in a ==> x !in b
  }

  /** Nothing follows the first never-used entry. */
  ghost predicate ZerosLast(dir: seq<Slot>)
    requires forall j :: 0 <= j < |dir| ==> |dir[j].name| == 11
  {
    forall i, j :: 0 <= i < j < |dir| && dir[i].name[0] == 0 ==> dir[j].name[0] == 0
  }

  ghost predicate WellFormed(v: Volume, chains: seq<seq<nat>>) {
    && Sane(v) && ZerosLast(v.dir) && |chains| == |v.dir|
    && (forall i :: 0 <= i < |v.dir| ==> Owns(v, i, chains[i]))
    && (forall i, j :: 0 <= i < j < |v.dir| ==> Apart(chains[i], chains[j]))
  }

  /** A name a directory entry can carry. */
  predicate Regular(name: seq<u8>) {
    |name| == 11 && name[0] != 0 && name[0] != 0xE5
  }

  // ---- along a chain -----------------------------------------------------------

  lemma ChainTail(fat: seq<u16>, c: nat, ch: seq<nat>)
    requires IsChain(fat, c, ch) && |ch| > 1
    ensures fat[c] == ch[1] && IsChain(fat, ch[1], ch[1..])
  {
    var t := ch[1..];
    assert forall k :: 0 <= k < |t| ==> t[k] == ch[k + 1];
  }

  lemma {:induction false} ReadAlong(v: Volume, c: nat, ch: seq<nat>, want: nat)
    requires Sane(v) && IsChain(v.fat, c, ch) && want <= |ChainBytes(v.data, ch)|
    ensures ReadChain(v, c, want) == Content(ChainBytes(v.data, ch)[..want])
    decreases want
  {
    if want > 0 {
      var first := Concat(v.data[c - 2]);
      var rest := ChainBytes(v.data, ch[1..]);
      if |ch| > 1 {
        ChainTail(v.fat, c, ch);
        if want > |first| { ReadAlong(v, ch[1], ch[1..], want - |first|); }
      }
    }
  }

  /** Reading depends on the chain's table entries and clusters alone. */
  lemma {:induction false} SameBytes(d0: seq<seq<Sector>>, d1: seq<seq<Sector>>, ch: seq<nat>)
    requires |d0| == |d1| && Inside(ch, |d0|)
    requires forall k :: 0 <= k < |ch| ==> d1[ch[k] - 2] == d0[ch[k] - 2]
    ensures ChainBytes(d1, ch) == ChainBytes(d0, ch)
  {
    if ch != [] {
      var t := ch[1..];
      assert forall k :: 0 <= k < |t| ==> t[k] == ch[k + 1];
      SameBytes(d0, d1, t);
    }
  }

  lemma ChainInside(v: Volume, c: nat, ch: seq<nat>)
    requires Sane(v) && IsChain(v.fat, c, ch)
    ensures Inside(ch, |v.data|) && forall k :: 0 <= k < |ch| ==> v.fat[ch[k]] != 0
  {
    forall k | 0 <= k < |ch| ensures v.fat[ch[k]] != 0 {
      if k < |ch| - 1 { assert v.fat[ch[k]] == ch[k + 1] && ch[k + 1] >= 2; }
    }
  }

  /** A table entry and its data survive in w wherever v's chain ch goes. */
  ghost predicate KeptAlong(v: Volume, w: Volume, ch: seq<nat>) {
    && |w.fat| == |v.fat| && |w.data| == |v.data| == |v.fat| - 2
    && forall x :: x in ch && 2 <= x < |v.fat| ==> w.fat[x] == v.fat[x] && w.data[x - 2] == v.data[x - 2]
  }

  lemma OwnsKept(v: Volume, w: Volume, i: nat, ch: seq<nat>)
    requires Sane(v) && Sane(w) && i < |v.dir| == |w.dir| && w.dir[i] == v.dir[i]
    requires Owns(v, i, ch) && KeptAlong(v, w, ch)
    ensures Owns(w, i, ch)
  {
    if ch != [] {
      ChainInside(v, v.dir[i].cluster, ch);
      SameBytes(v.data, w.data, ch);
    }
  }

  /** What an entry that owns ch reads as. */
  lemma EntryReads(v: Volume, i: nat, ch: seq<nat>, cap: nat)
    requires Sane(v) && i < |v.dir| && Live(v.dir[i]) && Owns(v, i, ch) && v.dir[i].size > 0 && v.dir[i].cluster >= 2
    ensures ReadChain(v, v.dir[i].cluster, Min(v.dir[i].size, cap))
         == Content(ChainBytes(v.data, ch)[..Min(v.dir[i].size, cap)])
  {
    ReadAlong(v, v.dir[i].cluster, ch, Min(v.dir[i].size, cap));
  }

  // ---- lookups -------------------------------------------------------------

  lemma MatchesPlainly(v: Volume, i: nat, name: seq<u8>)
    requires Sane(v) && ZerosLast(v.dir) && i < |v.dir|
    ensures Matches(v.dir, i, name) <==> Live(v.dir[i]) && v.dir[i].name == name
  {
    if v.dir[i].name[0] != 0 {
      assert Visible(v.dir, i);
    }
  }

  /** Two directories that agree on all matches are searched alike. */
  lemma {:induction false} FindSame(v: Volume, w: Volume, name: seq<u8>, i: nat)
    requires Sane(v) && Sane(w) && |v.dir| == |w.dir| && i <= |v.dir|
    requires forall j :: 0 <= j < |v.dir| ==> (Matches(v.dir, j, name) <==> Matches(w.dir, j, name))
    ensures FindFrom(v.dir, name, i) == FindFrom(w.dir, name, i)
    decreases |v.dir| - i
  {
    if i < |v.dir| && !Matches(v.dir, i, name) { FindSame(v, w, name, i + 1); }
  }

  lemma {:induction false} FindFirst(v: Volume, name: seq<u8>, i: nat, at: nat)
    requires Sane(v) && i <= at <= |v.dir|
    requires forall j :: i <= j < at ==> !Matches(v.dir, j, name)
    requires at < |v.dir| ==> Matches(v.dir, at, name)
    ensures FindFrom(v.dir, name, i) == at
    decreases at - i
  {
    if i < at { FindFirst(v, name, i + 1, at); }
  }

  /** If all entries of `name` and their chains are kept, it reads the same. */
  lemma ReadKept(v: Volume, chains: seq<seq<nat>>, w: Volume, name: seq<u8>, cap: nat)
    requires WellFormed(v, chains) && Sane(w) && ZerosLast(w.dir) && |w.dir| == |v.dir|
    requires forall j :: 0 <= j < |v.dir| ==>
      (Live(v.dir[j]) && v.dir[j].name == name <==> Live(w.dir[j]) && w.dir[j].name == name)
    requires forall j :: 0 <= j < |v.dir| && Live(v.dir[j]) && v.dir[j].name == name ==>
      w.dir[j] == v.dir[j] && KeptAlong(v, w, chains[j])
    ensures Read(w, name, cap) == Read(v, name, cap)
  {
    forall j | 0 <= j < |v.dir| ensures Matches(v.dir, j, name) <==> Matches(w.dir, j, name) {
      MatchesPlainly(v, j, name);
      MatchesPlainly(w, j, name);
    }
    FindSame(v, w, name, 0);
    var i := Find(v, name);
    if i < |v.dir| && v.dir[i].size > 0 && v.dir[i].cluster >= 2 {
      EntryReads(v, i, chains[i], cap);
      OwnsKept(v, w, i, chains[i]);
      EntryReads(w, i, chains[i], cap);
      ChainInside(v, v.dir[i].cluster, chains[i]);
      SameBytes(v.data, w.data, chains[i]);
    }
  }

  // ---- what writing leaves on the disk -------------------------------------

  /** The table entry of the i-th of the clusters cs. */
  function Linked(cs: seq<nat>, i: nat): nat
    requires i < |cs|
  {
    if i + 1 < |cs| then cs[i + 1] else END_OF_CHAIN
  }

  /** Linking leaves the entries of other clusters alone. */
  lemma {:induction false} LinkElsewhere(fat: seq<u16>, cs: seq<nat>, i: nat, x: nat)
    requires i <= |cs| && |fat| <= 0x1_0000 && (forall j :: 0 <= j < |cs| ==> cs[j] < |fat|)
    requires x < |fat| && forall j :: i <= j < |cs| ==> cs[j] != x
    ensures LinkFrom(fat, cs, i)[x] == fat[x]
    decreases |cs| - i
  {
    if i < |cs| { LinkElsewhere(fat[cs[i] := Linked(cs, i)], cs, i + 1, x); }
  }

  lemma {:induction false} LinkPointwise(fat: seq<u16>, cs: seq<nat>, i: nat, j: nat)
    requires i <= j < |cs| && |fat| <= 0x1_0000 && Unlike(cs) && forall j :: 0 <= j < |cs| ==> cs[j] < |fat|
    ensures LinkFrom(fat, cs, i)[cs[j]] == Linked(cs, j)
    decreases |cs| - i
  {
    var fat1 := fat[cs[i] := Linked(cs, i)];
    if i < j { LinkPointwise(fat1, cs, i + 1, j); } else { LinkElsewhere(fat1, cs, i + 1, cs[i]); }
  }

  /** Linked clusters form a chain; nothing else in the table changes. */
  lemma LinkedIsChain(fat: seq<u16>, cs: seq<nat>)
    requires 2 <= |fat| <= 65526 && |cs| > 0 && Unlike(cs) && Inside(cs, |fat| - 2)
    ensures IsChain(LinkFrom(fat, cs, 0), cs[0], cs)
    ensures forall x :: 0 <= x < |fat| && x !in cs ==> LinkFrom(fat, cs, 0)[x] == fat[x]
  {
    hide LinkFrom;
    var r := LinkFrom(fat, cs, 0);
    forall k | 0 <= k < |cs| ensures r[cs[k]] == Linked(cs, k) { LinkPointwise(fat, cs, 0, k); }
    forall x | 0 <= x < |fat| && x !in cs ensures r[x] == fat[x] { LinkElsewhere(fat, cs, 0, x); }
    assert r[cs[|cs| - 1]] == Linked(cs, |cs| - 1);
  }

  lemma {:induction false} FillBytes(bytes: seq<u8>, n: nat)
    ensures Concat(Fill(bytes, n))[..Min(|bytes|, 512 * n)] == bytes[..Min(|bytes|, 512 * n)]
    decreases n
  {
    if n > 0 {
      var rest := Drop(bytes, 512);
      FillBytes(rest, n - 1);
      assert Fill(bytes, n)[1..] == Fill(rest, n - 1);
      assert Concat(Fill(bytes, n)) == Pad(bytes) + Concat(Fill(rest, n - 1));
      if |bytes| > 512 { assert bytes == bytes[..512] + rest; }
    }
  }

  /** `n` clusters hold `len` bytes. */
  predicate FitsIn(len: nat, n: nat, spc: nat)
    decreases n
  {
    len == 0 || (n > 0 && (len <= 512 * spc || FitsIn(len - 512 * spc, n - 1, spc)))
  }

  lemma {:induction false} StoreFrame(data: seq<seq<Sector>>, spc: nat, cs: seq<nat>, bytes: seq<u8>)
    requires Inside(cs, |data|)
    ensures var r := Store(data, spc, cs, bytes);
            && (forall k :: 0 <= k < |r| && |data[k]| == spc ==> |r[k]| == spc)
            && (forall x :: 0 <= x < |r| && x + 2 !in cs ==> r[x] == data[x])
    decreases |cs|
  {
    if cs != [] {
      var t := cs[1..];
      assert forall k :: 0 <= k < |t| ==> t[k] == cs[k + 1];
      assert cs == [cs[0]] + t;
      var d1 := data[cs[0] - 2 := Fill(bytes, spc)];
      StoreFrame(d1, spc, t, Drop(bytes, 512 * spc));
      assert Store(data, spc, cs, bytes) == Store(d1, spc, t, Drop(bytes, 512 * spc));
      assert forall k :: 0 <= k < |data| && |data[k]| == spc ==> |d1[k]| == spc;
      assert forall x :: 0 <= x < |data| && x + 2 !in cs ==> x + 2 !in t && d1[x] == data[x];
    }
  }

  lemma {:induction false} StoreBytes(data: seq<seq<Sector>>, spc: nat, cs: seq<nat>, bytes: seq<u8>)
    requires spc > 0 && Unlike(cs) && Inside(cs, |data|) && FitsIn(|bytes|, |cs|, spc)
    ensures var r := Store(data, spc, cs, bytes);
            |bytes| <= |ChainBytes(r, cs)| && ChainBytes(r, cs)[..|bytes|] == bytes
    decreases |cs|
  {
    hide FitsIn, Fill, Concat;
    if cs != [] {
      var first := Fill(bytes, spc);
      var d1 := data[cs[0] - 2 := first];
      var t := cs[1..];
      var rest := Drop(bytes, 512 * spc);
      assert forall k :: 0 <= k < |t| ==> t[k] == cs[k + 1];
      FitsTail(|bytes|, |cs|, spc);
      StoreBytes(d1, spc, t, rest);
      var r := Store(data, spc, cs, bytes);
      assert r == Store(d1, spc, t, rest);
      StoreFrame(d1, spc, t, rest);
      assert r[cs[0] - 2] == first;
      FillBytes(bytes, spc);
      assert ChainBytes(r, cs) == Concat(first) + ChainBytes(r, t);
      Joined(bytes, Concat(first), ChainBytes(r, t), 512 * spc);
    } else {
      FitsNone(|bytes|, spc);
    }
  }

  lemma FitsTail(len: nat, n: nat, spc: nat)
    requires FitsIn(len, n, spc) && n > 0
    ensures FitsIn(if len <= 512 * spc then 0 else len - 512 * spc, n - 1, spc)
  {
  }

  lemma FitsNone(len: nat, spc: nat)
    requires FitsIn(len, 0, spc)
    ensures len == 0
  {
  }

  /** A prefix of n bytes in a, the rest in b. */
  lemma Joined(bytes: seq<u8>, a: seq<u8>, b: seq<u8>, n: nat)
    requires |a| == n && a[..Min(|bytes|, n)] == bytes[..Min(|bytes|, n)]
    requires |Drop(bytes, n)| <= |b| && b[..|Drop(bytes, n)|] == Drop(bytes, n)
    ensures |bytes| <= |a + b| && (a + b)[..|bytes|] == bytes
  {
    if |bytes| > n {
      assert bytes == bytes[..n] + bytes[n..];
      assert (a + b)[..|bytes|] == a + b[..|bytes| - n];
    }
  }

  lemma {:induction false} TimesFits(len: nat, n: nat, spc: nat)
    requires spc > 0 && len <= n * (spc * 512)
    ensures FitsIn(len, n, spc)
    decreases n
  {
    if len > 512 * spc {
      assert n * (spc * 512) == (n - 1) * (spc * 512) + 512 * spc;
      TimesFits(len - 512 * spc, n - 1, spc);
    }
  }

  lemma NeededFits(len: nat, spc: nat)
    requires spc > 0
    ensures FitsIn(len, Needed(len, spc), spc)
  {
    if len > 0 {
      var unit := spc * 512;
      var q := (len + unit - 1) / unit;
      assert len + unit - 1 == unit * q + (len + unit - 1) % unit;
      assert len <= q * unit;
      TimesFits(len, q, spc);
    }
  }

  // ---- writing ---------------------------------------------------------------

  /** The volume after a file's clusters were stored and linked, before its
      directory entry is saved. */
  ghost function Stored(v: Volume, cs: seq<nat>, bytes: seq<u8>): Volume
    requires Sane(v) && Inside(cs, |v.data|)
  {
    v.(data := Store(v.data, v.spc, cs, bytes), fat := LinkFrom(v.fat, cs, 0))
  }

  /** Clusters no chain uses. */
  ghost predicate Unused(v: Volume, cs: seq<nat>) {
    |v.fat| >= 2 && Inside(cs, |v.fat| - 2) && forall k :: 0 <= k < |cs| ==> v.fat[cs[k]] == 0
  }

  lemma ChainAvoids(v: Volume, i: nat, ch: seq<nat>, cs: seq<nat>)
    requires Sane(v) && i < |v.dir| && Owns(v, i, ch) && Unused(v, cs)
    ensures Apart(ch, cs) && Apart(cs, ch)
  {
    if ch != [] { ChainInside(v, v.dir[i].cluster, ch); }
  }

  lemma StoredSane(v: Volume, cs: seq<nat>, bytes: seq<u8>)
    requires Sane(v) && Inside(cs, |v.data|)
    ensures Sane(Stored(v, cs, bytes))
  {
    hide Store, LinkFrom;
    StoreFrame(v.data, v.spc, cs, bytes);
    var r := Store(v.data, v.spc, cs, bytes);
    forall k | 0 <= k < |r| ensures |r[k]| == v.spc { assert |v.data[k]| == v.spc; }
  }

  lemma StoredKeeps(v: Volume, cs: seq<nat>, bytes: seq<u8>, i: nat, ch: seq<nat>)
    requires Sane(v) && |cs| > 0 && Unlike(cs) && Unused(v, cs) && i < |v.dir| && Owns(v, i, ch)
    ensures Sane(Stored(v, cs, bytes)) && KeptAlong(v, Stored(v, cs, bytes), ch) && Owns(Stored(v, cs, bytes), i, ch)
  {
    hide Store, LinkFrom, Owns, IsChain;
    StoreFrame(v.data, v.spc, cs, bytes);
    LinkedIsChain(v.fat, cs);
    ChainAvoids(v, i, ch, cs);
    StoredSane(v, cs, bytes);
    OwnsKept(v, Stored(v, cs, bytes), i, ch);
  }

  lemma StoredNew(v: Volume, cs: seq<nat>, bytes: seq<u8>)
    requires Sane(v) && |cs| > 0 && Unlike(cs) && Unused(v, cs) && FitsIn(|bytes|, |cs|, v.spc)
    ensures var w := Stored(v, cs, bytes);
            && Sane(w) && IsChain(w.fat, cs[0], cs)
            && |bytes| <= |ChainBytes(w.data, cs)| && ChainBytes(w.data, cs)[..|bytes|] == bytes
  {
    hide Store, LinkFrom, IsChain, FitsIn;
    StoreFrame(v.data, v.spc, cs, bytes);
    LinkedIsChain(v.fat, cs);
    StoreBytes(v.data, v.spc, cs, bytes);
  }

  /** Saving entry i for a file whose chain cs is stored. */
  ghost function Saved(v: Volume, i: nat, name: seq<u8>, cs: seq<nat>, len: u32): Volume
    requires i < |v.dir| && |cs| > 0 && cs[0] < 0x1_0000
  {
    v.(dir := v.dir[i := Slot(name, ARCHIVE, cs[0], len)])
  }

  lemma SavedWellFormed(v: Volume, chains: seq<seq<nat>>, i: nat, name: seq<u8>, cs: seq<nat>, len: u32)
    requires WellFormed(v, chains) && Regular(name) && i == SlotFrom(v.dir, name, 0) < |v.dir|
    requires |cs| > 0 && IsChain(v.fat, cs[0], cs) && len <= |ChainBytes(v.data, cs)|
    requires forall j :: 0 <= j < |v.dir| ==> Apart(chains[j], cs) && Apart(cs, chains[j])
    ensures cs[0] < 0x1_0000 && WellFormed(Saved(v, i, name, cs, len), chains[i := cs])
  {
    assert 2 <= cs[0] < |v.fat|;
    hide IsChain, Apart, SlotFrom;
    var w := Saved(v, i, name, cs, len);
    var now := chains[i := cs];
    forall j | 0 <= j < |w.dir| ensures Owns(w, j, now[j]) {
      assert Owns(v, j, chains[j]);
    }
  }

  /** What a write found: room for the clusters cs, none of them in use. */
  lemma Found(v: Volume, len: nat)
    requires Sane(v) && |FreeFrom(v.fat, 2, Needed(len, v.spc))| == Needed(len, v.spc)
    ensures var cs := FreeFrom(v.fat, 2, Needed(len, v.spc));
            |cs| > 0 && Unlike(cs) && Unused(v, cs) && Inside(cs, |v.data|) && FitsIn(len, |cs|, v.spc)
  {
    hide Needed, FitsIn;
    NeededFits(len, v.spc);
  }

  lemma StoredWellFormed(v: Volume, chains: seq<seq<nat>>, cs: seq<nat>, bytes: seq<u8>)
    requires WellFormed(v, chains) && |cs| > 0 && Unlike(cs) && Unused(v, cs)
    ensures WellFormed(Stored(v, cs, bytes), chains)
    ensures forall j :: 0 <= j < |v.dir| ==>
      KeptAlong(v, Stored(v, cs, bytes), chains[j]) && Apart(chains[j], cs) && Apart(cs, chains[j])
  {
    StoredSane(v, cs, bytes);
    hide Store, LinkFrom, Owns, Apart, KeptAlong, Unused, Unlike;
    forall j | 0 <= j < |v.dir|
      ensures Owns(Stored(v, cs, bytes), j, chains[j])
      ensures KeptAlong(v, Stored(v, cs, bytes), chains[j]) && Apart(chains[j], cs) && Apart(cs, chains[j])
    {
      StoredKeeps(v, cs, bytes, j, chains[j]);
      ChainAvoids(v, j, chains[j], cs);
    }
  }

  /** The steps of a write, in the terms used here. */
  lemma WriteSteps(v: Volume, name: seq<u8>, bytes: seq<u8>)
    requires Sane(v) && |bytes| < 0x1_0000_0000
    ensures var (st, w) := Write(v, name, bytes);
            var need := Needed(|bytes|, v.spc);
            var cs := FreeFrom(v.fat, 2, need);
            var i := SlotFrom(v.dir, name, 0);
            match st
            case TooLarge => need > MAX_CLUSTERS && w == v
            case NoSpace => |cs| < need && w == v
            case DirectoryFull => |cs| == need && i == |v.dir| && Inside(cs, |v.data|) && w == Stored(v, cs, bytes)
            case Written(n) =>
              && n == |bytes| && |cs| == need && i < |v.dir| && Inside(cs, |v.data|) && cs[0] < 0x1_0000
              && w == Saved(Stored(v, cs, bytes), i, name, cs, |bytes|)
  {
    hide Store, LinkFrom, Needed, SlotFrom, FreeFrom;
  }

  lemma WriteKeepsWellFormed(v: Volume, chains: seq<seq<nat>>, name: seq<u8>, bytes: seq<u8>)
                             returns (now: seq<seq<nat>>)
    requires WellFormed(v, chains) && Regular(name) && |bytes| < 0x1_0000_0000
    ensures WellFormed(Write(v, name, bytes).1, now)
    ensures Write(v, name, bytes).0.Written? ==>
      && SlotFrom(v.dir, name, 0) < |chains|
      && now == chains[SlotFrom(v.dir, name, 0) := FreeFrom(v.fat, 2, Needed(|bytes|, v.spc))]
  {
    hide Store, LinkFrom, Needed, SlotFrom, FreeFrom, Write, FitsIn, IsChain, Owns, Apart, KeptAlong, Unused, Unlike;
    now := chains;
    WriteSteps(v, name, bytes);
    var (st, w) := Write(v, name, bytes);
    if st.Written? || st.DirectoryFull? {
      var cs := FreeFrom(v.fat, 2, Needed(|bytes|, v.spc));
      Found(v, |bytes|);
      StoredWellFormed(v, chains, cs, bytes);
      if st.Written? {
        StoredNew(v, cs, bytes);
        var i := SlotFrom(v.dir, name, 0);
        SavedWellFormed(Stored(v, cs, bytes), chains, i, name, cs, |bytes|);
        now := chains[i := cs];
      }
    }
  }

  /** Round trip: a successful write, then a read of the same name, gives the
      bytes written (as many as the buffer takes). */
  lemma ReadAfterWrite(v: Volume, chains: seq<seq<nat>>, name: seq<u8>, bytes: seq<u8>, cap: nat)
    requires WellFormed(v, chains) && Regular(name) && |bytes| < 0x1_0000_0000
    requires Write(v, name, bytes).0.Written?
    ensures Sane(Write(v, name, bytes).1) && Read(Write(v, name, bytes).1, name, cap) == Content(Take(bytes, cap))
  {
    hide Store, LinkFrom, Needed, SlotFrom, FreeFrom, Write, FitsIn, IsChain, Apart, KeptAlong, Unused, Unlike,
        ReadChain;
    WriteSteps(v, name, bytes);
    var now := WriteKeepsWellFormed(v, chains, name, bytes);
    var w := Write(v, name, bytes).1;
    var cs := FreeFrom(v.fat, 2, Needed(|bytes|, v.spc));
    var i := SlotFrom(v.dir, name, 0);
    Found(v, |bytes|);
    StoredNew(v, cs, bytes);
    assert w.fat == Stored(v, cs, bytes).fat && w.data == Stored(v, cs, bytes).data;
    assert 2 <= cs[0];
    forall j | 0 <= j < |w.dir| ensures Matches(w.dir, j, name) <==> Live(w.dir[j]) && w.dir[j].name == name {
      MatchesPlainly(w, j, name);
    }
    FindFirst(w, name, 0, i);
    if bytes != [] {
      assert Owns(w, i, cs);
      EntryReads(w, i, cs, cap);
      assert ChainBytes(w.data, cs)[..|bytes|] == bytes;
      assert ChainBytes(w.data, cs)[..Min(|bytes|, cap)] == bytes[..Min(|bytes|, cap)];
    }
  }

  /** Isolation: no write changes what another name reads, and a write that
      fails changes what no name reads. */
  lemma WriteIsolated(v: Volume, chains: seq<seq<nat>>, name: seq<u8>, bytes: seq<u8>, other: seq<u8>, cap: nat)
    requires WellFormed(v, chains) && Regular(name) && |bytes| < 0x1_0000_0000
    requires other != name || !Write(v, name, bytes).0.Written?
    ensures Sane(Write(v, name, bytes).1) && Read(Write(v, name, bytes).1, other, cap) == Read(v, other, cap)
  {
    hide Store, LinkFrom, Needed, SlotFrom, FreeFrom, Write, FitsIn, IsChain, Owns, Apart, KeptAlong, Unused,
        Unlike, Read;
    WriteSteps(v, name, bytes);
    var now := WriteKeepsWellFormed(v, chains, name, bytes);
    var (st, w) := Write(v, name, bytes);
    if st.Written? || st.DirectoryFull? {
      var cs := FreeFrom(v.fat, 2, Needed(|bytes|, v.spc));
      Found(v, |bytes|);
      StoredWellFormed(v, chains, cs, bytes);
      forall j | 0 <= j < |v.dir| ensures KeptAlong(v, w, chains[j]) {
        SavedKept(v, Stored(v, cs, bytes), w, chains[j]);
      }
      ReadKept(v, chains, w, other, cap);
    }
  }

  lemma SavedKept(v: Volume, u: Volume, w: Volume, ch: seq<nat>)
    requires KeptAlong(v, u, ch) && w.fat == u.fat && w.data == u.data
    ensures KeptAlong(v, w, ch)
  {
  }

  /** A write reports a full volume exactly when fewer clusters are free than
      it needs: the search misses none. */
  lemma {:induction false} SearchMissesNone(fat: seq<u16>, c: nat, k: nat)
    requires |FreeFrom(fat, c, k)| < k
    ensures forall x :: c <= x < |fat| && fat[x] == 0 ==> x in FreeFrom(fat, c, k)
    decreases |fat| - c
  {
    if c < |fat| { SearchMissesNone(fat, c + 1, if fat[c] == 0 then k - 1 else k); }
  }

  // ---- deleting --------------------------------------------------------------

  /** The table with the entries of ch cleared and all others kept. */
  ghost predicate ClearedAt(fat: seq<u16>, now: seq<u16>, ch: seq<nat>) {
    |now| == |fat| && forall x :: 0 <= x < |fat| ==> now[x] == if x in ch then 0 else fat[x]
  }

  lemma {:induction false} FreeAlong(fat: seq<u16>, c: nat, ch: seq<nat>)
    requires |fat| <= 65526 && IsChain(fat, c, ch)
    ensures FreeChain(fat, c).Freed? && ClearedAt(fat, FreeChain(fat, c).fat, ch)
    decreases |ch|
  {
    var fat1 := fat[c := 0];
    if |ch| == 1 {
      assert FreeChain(fat, c) == FreeChain(fat1, fat[c]) == Freed(fat1);
      assert ch == [c];
    } else {
      ChainTail(fat, c, ch);
      var t := ch[1..];
      assert ch == [c] + t;
      assert c !in t;
      forall k | 0 <= k < |t| ensures fat1[t[k]] == fat[t[k]] { assert t[k] in t; }
      FreeAlong(fat1, ch[1], t);
    }
  }

  /** Deleting a file zeroes exactly the table entries of its chain, erases its
      entry, and touches no data. */
  lemma DeleteFreesChain(v: Volume, chains: seq<seq<nat>>, name: seq<u8>)
    requires WellFormed(v, chains) && Regular(name)
    ensures Delete(v, name).Deleted?
    ensures var w := Delete(v, name).v;
            var i := Find(v, name);
            if i == |v.dir| then w == v
            else
              && w.dir == v.dir[i := Erase(v.dir[i])] && w.data == v.data && w.spc == v.spc
              && ClearedAt(v.fat, w.fat, chains[i])
  {
    hide IsChain;
    var i := Find(v, name);
    if i < |v.dir| {
      assert Owns(v, i, chains[i]);
      if v.dir[i].cluster >= 2 { FreeAlong(v.fat, v.dir[i].cluster, chains[i]); }
    }
  }

  lemma ClearedKeeps(v: Volume, w: Volume, gone: seq<nat>, ch: seq<nat>)
    requires Sane(v) && Sane(w) && ClearedAt(v.fat, w.fat, gone) && w.data == v.data && Apart(ch, gone)
    ensures KeptAlong(v, w, ch)
  {
  }

  lemma DeleteKeepsWellFormed(v: Volume, chains: seq<seq<nat>>, name: seq<u8>) returns (now: seq<seq<nat>>)
    requires WellFormed(v, chains) && Regular(name)
    ensures Delete(v, name).Deleted? && WellFormed(Delete(v, name).v, now)
    ensures Find(v, name) < |v.dir| ==> now == chains[Find(v, name) := []]
  {
    DeleteFreesChain(v, chains, name);
    var w := Delete(v, name).v;
    var i := Find(v, name);
    now := chains;
    if i < |v.dir| {
      now := chains[i := []];
      hide Delete, IsChain, ClearedAt, KeptAlong, Find;
      assert Sane(w) && ZerosLast(w.dir);
      forall j | 0 <= j < |w.dir| ensures Owns(w, j, now[j]) {
        if j != i {
          ApartEither(chains, i, j);
          ClearedKeeps(v, w, chains[i], chains[j]);
          OwnsKept(v, w, j, chains[j]);
        }
      }
    }
  }

  lemma ApartEither(chains: seq<seq<nat>>, i: nat, j: nat)
    requires forall i, j :: 0 <= i < j < |chains| ==> Apart(chains[i], chains[j])
    requires i < |chains| && j < |chains| && i != j
    ensures Apart(chains[j], chains[i])
  {
    if i < j { assert Apart(chains[i], chains[j]); }
  }

  lemma DeleteIsolated(v: Volume, chains: seq<seq<nat>>, name: seq<u8>, other: seq<u8>, cap: nat)
    requires WellFormed(v, chains) && Regular(name) && Regular(other) && other != name
    ensures Delete(v, name).Deleted? && Sane(Delete(v, name).v)
    ensures Read(Delete(v, name).v, other, cap) == Read(v, other, cap)
  {
    hide Read, IsChain, KeptAlong;
    DeleteFreesChain(v, chains, name);
    var now := DeleteKeepsWellFormed(v, chains, name);
    var w := Delete(v, name).v;
    var i := Find(v, name);
    if i < |v.dir| {
      hide Delete, ClearedAt, Find, Owns;
      forall j | 0 <= j < |v.dir| && Live(v.dir[j]) && v.dir[j].name == other ensures KeptAlong(v, w, chains[j]) {
        ApartEither(chains, i, j);
        ClearedKeeps(v, w, chains[i], chains[j]);
      }
      ReadKept(v, chains, w, other, cap);
    }
  }

  /** The only live entry with this name, if any. */
  ghost predicate Sole(v: Volume, name: seq<u8>)
    requires Sane(v)
  {
    forall i, j ::
      0 <= i < j < |v.dir| && Live(v.dir[i]) && v.dir[i].name == name && Live(v.dir[j]) ==> v.dir[j].name != name
  }

  /** After a delete the name is gone exactly if only one entry carried it. */
  lemma DeletedIffSole(v: Volume, chains: seq<seq<nat>>, name: seq<u8>, cap: nat)
    requires WellFormed(v, chains) && Regular(name)
    ensures Delete(v, name).Deleted? && Sane(Delete(v, name).v)
    ensures Read(Delete(v, name).v, name, cap) == NotFound <==> Sole(v, name)
  {
    DeleteFreesChain(v, chains, name);
    var now := DeleteKeepsWellFormed(v, chains, name);
    var w := Delete(v, name).v;
    var i := Find(v, name);
    hide Delete, IsChain, ClearedAt, Owns, KeptAlong, ReadChain;
    forall j | 0 <= j < |v.dir| ensures Matches(v.dir, j, name) <==> Live(v.dir[j]) && v.dir[j].name == name {
      MatchesPlainly(v, j, name);
    }
    forall j | 0 <= j < |w.dir| ensures Matches(w.dir, j, name) <==> Live(w.dir[j]) && w.dir[j].name == name {
      MatchesPlainly(w, j, name);
    }
    if i < |v.dir| {
      assert !Live(w.dir[i]);
      assert forall j :: 0 <= j < |v.dir| && j != i ==> w.dir[j] == v.dir[j];
      var k := Find(w, name);
      if k < |w.dir| { assert i < k; }
    }
  }

  /** A write that takes a free slot before the name's old entry leaves that
      entry behind: deleting the file afterwards brings the old contents back. */
  lemma StaleEntryReturns(v: Volume, chains: seq<seq<nat>>, name: seq<u8>, bytes: seq<u8>, cap: nat)
    requires WellFormed(v, chains) && Regular(name) && |bytes| < 0x1_0000_0000
    requires Write(v, name, bytes).0.Written? && SlotFrom(v.dir, name, 0) < Find(v, name) < |v.dir|
    ensures var w := Write(v, name, bytes).1;
            && Sane(w) && Delete(w, name).Deleted? && Sane(Delete(w, name).v)
            && Read(Delete(w, name).v, name, cap) == Read(v, name, cap) != NotFound
  {
    hide Store, LinkFrom, Needed, SlotFrom, FreeFrom, Write, Delete, IsChain, Apart, ClearedAt, Unused, Unlike,
        ReadChain,
      Read, Owns, KeptAlong, FitsIn;
    var w := Write(v, name, bytes).1;
    var now := WriteKeepsWellFormed(v, chains, name, bytes);
    WriteSteps(v, name, bytes);
    DeleteFreesChain(w, now, name);
    var last := DeleteKeepsWellFormed(w, now, name);
    var u := Delete(w, name).v;
    var k := SlotFrom(v.dir, name, 0);
    var cs := FreeFrom(v.fat, 2, Needed(|bytes|, v.spc));
    SlotIsFound(v, w, k, name);
    Found(v, |bytes|);
    StoredWellFormed(v, chains, cs, bytes);
    assert now[k] == cs;
    forall j | 0 <= j < |v.dir| ensures KeptAlong(v, u, chains[j]) {
      ClearedAgain(v, Stored(v, cs, bytes), u, cs, chains[j]);
    }
    MatchesPlainly(v, k, name);
    ReadKept(v, chains, u, name, cap);
    FoundReads(v, name, cap);
  }

  /** Such a volume: an erased entry before a file of one byte, and room for
      another cluster. */
  function StaleVolume(name: seq<u8>): Volume
    requires Regular(name)
  {
    var sector: Sector := seq(512, _ => 7);
    Volume(1, [0, 0, END_OF_CHAIN, 0],
           [Slot(name[0 := 0xE5], ARCHIVE, 0, 0), Slot(name, ARCHIVE, 2, 1)], [[sector], [sector]])
  }

  lemma StaleWellFormed(name: seq<u8>)
    requires Regular(name)
    ensures WellFormed(StaleVolume(name), [[], [2]])
  {
    var v := StaleVolume(name);
    assert v.fat[2] == END_OF_CHAIN;
    OneCluster(v.data, 2);
    hide ChainBytes;
  }

  lemma OneCluster(data: seq<seq<Sector>>, c: nat)
    requires 2 <= c < |data| + 2 && |data[c - 2]| == 1
    ensures |ChainBytes(data, [c])| == 512
  {
    assert ChainBytes(data, []) == [];
    hide ChainBytes;
    assert [c][1..] == [];
    ChainBytesStep(data, [c]);
  }

  lemma ChainBytesStep(data: seq<seq<Sector>>, ch: seq<nat>)
    requires Inside(ch, |data|) && ch != []
    ensures ChainBytes(data, ch) == Concat(data[ch[0] - 2]) + ChainBytes(data, ch[1..])
  {
  }

  lemma StaleExample(name: seq<u8>)
    requires Regular(name)
    ensures var v := StaleVolume(name);
            && WellFormed(v, [[], [2]])
            && SlotFrom(v.dir, name, 0) < Find(v, name) < |v.dir|
            && Write(v, name, []).0.Written? && v.dir[Find(v, name)].size == 1
  {
    hide WellFormed, Store, LinkFrom, Write, FreeFrom;
    StaleWellFormed(name);
    StaleFound(name);
    StaleWritten(name);
  }

  lemma StaleFound(name: seq<u8>)
    requires Regular(name) && WellFormed(StaleVolume(name), [[], [2]])
    ensures var v := StaleVolume(name); SlotFrom(v.dir, name, 0) == 0 && Find(v, name) == 1
  {
    hide Owns, Apart;
    var v := StaleVolume(name);
    MatchesPlainly(v, 0, name);
    MatchesPlainly(v, 1, name);
    FindFirst(v, name, 0, 1);
  }

  lemma StaleWritten(name: seq<u8>)
    requires Regular(name) && Sane(StaleVolume(name))
    ensures Write(StaleVolume(name), name, []).0.Written?
  {
    hide Store, LinkFrom, FreeFrom, SlotFrom;
    var v := StaleVolume(name);
    StaleFree(v.fat);
    assert v.dir[0].name[0] == 0xE5;
    assert SlotFrom(v.dir, name, 0) < |v.dir|;
  }

  lemma StaleFree(fat: seq<u16>)
    requires |fat| == 4 && fat[2] == END_OF_CHAIN && fat[3] == 0
    ensures |FreeFrom(fat, 2, 1)| == 1
  {
    assert FreeFrom(fat, 2, 1) == FreeFrom(fat, 3, 1);
  }

  /** A write leaves every name with one live entry, exactly unless it takes a
      free slot before the written name's own entry. */
  lemma WriteKeepsSole(v: Volume, chains: seq<seq<nat>>, name: seq<u8>, bytes: seq<u8>, other: seq<u8>)
    requires WellFormed(v, chains) && Regular(name) && Regular(other) && |bytes| < 0x1_0000_0000 && Sole(v, other)
    ensures var (st, w) := Write(v, name, bytes);
            && Sane(w)
            && (Sole(w, other) <==>
                  !(st.Written? && other == name && SlotFrom(v.dir, name, 0) < Find(v, name) < |v.dir|))
  {
    hide Store, LinkFrom, Needed, SlotFrom, FreeFrom, Write, FitsIn, IsChain, Owns, Apart;
    WriteSteps(v, name, bytes);
    var now := WriteKeepsWellFormed(v, chains, name, bytes);
    var (st, w) := Write(v, name, bytes);
    if st.Written? {
      var k, i := SlotFrom(v.dir, name, 0), Find(v, name);
      assert w.dir[k].name == name && Live(w.dir[k]);
      assert forall j :: 0 <= j < |v.dir| && j != k ==> w.dir[j] == v.dir[j];
      forall j | 0 <= j < |v.dir| ensures Matches(v.dir, j, name) <==> Live(v.dir[j]) && v.dir[j].name == name {
        MatchesPlainly(v, j, name);
      }
      if i < |v.dir| { assert Live(v.dir[i]) && v.dir[i].name == name; }
      if other == name && k < i < |v.dir| { assert Live(w.dir[i]) && w.dir[i].name == name; }
    }
  }

  lemma DeleteKeepsSole(v: Volume, chains: seq<seq<nat>>, name: seq<u8>, other: seq<u8>)
    requires WellFormed(v, chains) && Regular(name) && Sole(v, other)
    ensures Delete(v, name).Deleted? && Sane(Delete(v, name).v) && Sole(Delete(v, name).v, other)
  {
    DeleteFreesChain(v, chains, name);
    var now := DeleteKeepsWellFormed(v, chains, name);
    hide Delete, IsChain, ClearedAt, Owns;
  }

  lemma FoundReads(v: Volume, name: seq<u8>, cap: nat)
    requires Sane(v) && Find(v, name) < |v.dir|
    ensures Read(v, name, cap) != NotFound
  {
  }

  lemma ClearedAgain(v: Volume, w: Volume, u: Volume, cs: seq<nat>, ch: seq<nat>)
    requires KeptAlong(v, w, ch) && Apart(ch, cs) && ClearedAt(w.fat, u.fat, cs) && u.data == w.data
    ensures KeptAlong(v, u, ch)
  {
  }

  lemma SlotIsFound(v: Volume, w: Volume, k: nat, name: seq<u8>)
    requires Sane(v) && Sane(w) && ZerosLast(w.dir) && |w.dir| == |v.dir| && k < |v.dir| && Regular(name)
    requires k == SlotFrom(v.dir, name, 0) && Live(w.dir[k]) && w.dir[k].name == name
    requires forall j :: 0 <= j < |v.dir| && j != k ==> w.dir[j] == v.dir[j]
    ensures Find(w, name) == k
  {
    forall j | 0 <= j < |w.dir| ensures Matches(w.dir, j, name) <==> Live(w.dir[j]) && w.dir[j].name == name {
      MatchesPlainly(w, j, name);
    }
    FindFirst(w, name, 0, k);
  }

  // ---- whole histories ---------------------------------------------------------

  datatype Op = Put(name: seq<u8>, bytes: seq<u8>) | Remove(name: seq<u8>)

  ghost predicate Does(v: Volume, op: Op, w: Volume) {
    && Sane(v) && Regular(op.name)
    && match op
       case Put(name, bytes) => |bytes| < 0x1_0000_0000 && w == Write(v, name, bytes).1
       case Remove(name) => Delete(v, name) == Deleted(w)
  }

  ghost predicate History(vs: seq<Volume>, ops: seq<Op>) {
    |vs| == |ops| + 1 && forall i :: 0 <= i < |ops| ==> Does(vs[i], ops[i], vs[i + 1])
  }

  lemma StepKeepsWellFormed(v: Volume, op: Op, w: Volume, chains: seq<seq<nat>>) returns (now: seq<seq<nat>>)
    requires WellFormed(v, chains) && Does(v, op, w)
    ensures WellFormed(w, now)
  {
    hide WellFormed, Write, Delete;
    match op
    case Put(name, bytes) => now := WriteKeepsWellFormed(v, chains, name, bytes);
    case Remove(name) => now := DeleteKeepsWellFormed(v, chains, name);
  }

  /** Over any history the live chains stay acyclic, disjoint and terminated. */
  lemma {:induction false} HistoryKeepsWellFormed(vs: seq<Volume>, ops: seq<Op>, chains: seq<seq<nat>>)
    returns (now: seq<seq<nat>>)
    requires History(vs, ops) && WellFormed(vs[0], chains)
    ensures WellFormed(vs[|ops|], now)
    decreases |ops|
  {
    hide WellFormed, Does;
    now := chains;
    if ops != [] {
      var n := |ops| - 1;
      now := HistoryKeepsWellFormed(vs[..n + 1], ops[..n], chains);
      now := StepKeepsWellFormed(vs[n], ops[n], vs[n + 1], now);
    }
  }

  type Files = map<seq<u8>, seq<u8>>

  /** The volume reads as the map m from names to contents. */
  ghost predicate Shows(v: Volume, m: Files) {
    Sane(v) && forall name, cap: nat :: Regular(name) ==>
      Read(v, name, cap) == if name in m then Content(Take(m[name], cap)) else NotFound
  }

  /** The map after an operation; a write that fails leaves it as it was. */
  ghost function AfterOp(m: Files, v: Volume, op: Op, w: Volume): Files
    requires Does(v, op, w)
  {
    match op
    case Put(name, bytes) => if Write(v, name, bytes).0.Written? then m[name := bytes] else m
    case Remove(name) => m - {name}
  }

  /** One operation refines the operation on the map; a delete does exactly if
      its name has no second entry. */
  lemma StepShows(v: Volume, op: Op, w: Volume, chains: seq<seq<nat>>, m: Files)
    requires WellFormed(v, chains) && Does(v, op, w) && Shows(v, m)
    ensures Shows(w, AfterOp(m, v, op, w)) <==> (op.Remove? ==> Sole(v, op.name))
  {
    var _ := StepKeepsWellFormed(v, op, w, chains);
    hide Read, Write, Delete, Sole, WellFormed;
    var m1 := AfterOp(m, v, op, w);
    forall name, cap: nat | Regular(name) && (name != op.name || (op.Remove? ==> Sole(v, op.name)))
      ensures Read(w, name, cap) == if name in m1 then Content(Take(m1[name], cap)) else NotFound
    {
      OneRead(v, op, w, chains, m, name, cap);
    }
    if op.Remove? && !Sole(v, op.name) { DeletedIffSole(v, chains, op.name, 0); }
  }

  lemma OneRead(v: Volume, op: Op, w: Volume, chains: seq<seq<nat>>, m: Files, name: seq<u8>, cap: nat)
    requires WellFormed(v, chains) && Does(v, op, w) && Shows(v, m) && Sane(w)
    requires Regular(name) && (name == op.name && op.Remove? ==> Sole(v, name))
    ensures var m1 := AfterOp(m, v, op, w);
            Read(w, name, cap) == if name in m1 then Content(Take(m1[name], cap)) else NotFound
  {
    hide Read, Write, Delete, Sole, WellFormed;
    match op
    case Put(x, bytes) =>
      if name == x && Write(v, x, bytes).0.Written? { ReadAfterWrite(v, chains, x, bytes, cap); }
      else { WriteIsolated(v, chains, x, bytes, name, cap); }
    case Remove(x) =>
      if name == x { DeletedIffSole(v, chains, x, cap); } else { DeleteIsolated(v, chains, x, name, cap); }
  }

  ghost function AfterAll(m: Files, vs: seq<Volume>, ops: seq<Op>): Files
    requires History(vs, ops)
    decreases |ops|
  {
    if ops == [] then m
    else
      var n := |ops| - 1;
      assert Does(vs[n], ops[n], vs[n + 1]);
      AfterOp(AfterAll(m, vs[..n + 1], ops[..n]), vs[n], ops[n], vs[n + 1])
  }

  /** Any history in which no deleted name has a second entry reads, at its
      end, as the same history on a map from names to contents. */
  lemma {:induction false} HistoryShowsMap(vs: seq<Volume>, ops: seq<Op>, chains: seq<seq<nat>>, m: Files)
    requires History(vs, ops) && WellFormed(vs[0], chains) && Shows(vs[0], m)
    requires forall i :: 0 <= i < |ops| && ops[i].Remove? ==> Sane(vs[i]) && Sole(vs[i], ops[i].name)
    ensures Shows(vs[|ops|], AfterAll(m, vs, ops))
    decreases |ops|
  {
    hide WellFormed, Shows, AfterOp, Sole, Does;
    if ops != [] {
      var n := |ops| - 1;
      HistoryShowsMap(vs[..n + 1], ops[..n], chains, m);
      var now := HistoryKeepsWellFormed(vs[..n + 1], ops[..n], chains);
      StepShows(vs[n], ops[n], vs[n + 1], now, AfterAll(m, vs[..n + 1], ops[..n]));
    }
  }
}
