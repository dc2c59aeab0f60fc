// When a write succeeds and what it leaves, in terms of byte counts, free
// clusters and directory entries alone.

module FatExact {
  import opened Words
  import opened Bits
  import opened Fat16
  import opened FatCorrect

  // ---- how many clusters -----------------------------------------------------

  /** n is the least number of clusters, at least one, that holds len bytes. */
  predicate Least(n: nat, len: nat, spc: nat) {
    n > 0 && len <= n * (512 * spc) && (n > 1 ==> (n - 1) * (512 * spc) < len)
  }

  lemma NeededIsLeast(len: nat, spc: nat)
    requires spc > 0
    ensures Least(Needed(len, spc), len, spc)
  {
    if len > 0 {
      var unit := spc * 512;
      var q := (len + unit - 1) / unit;
      assert len + unit - 1 == unit * q + (len + unit - 1) % unit;
      assert (q - 1) * unit == unit * q - unit;
    }
  }

  lemma LeastUnique(n: nat, k: nat, len: nat, spc: nat)
    requires Least(n, len, spc) && Least(k, len, spc) && spc > 0
    ensures n == k
  {
    if n < k { AtMost(n, k - 1, 512 * spc); }
    if k < n { AtMost(k, n - 1, 512 * spc); }
  }

  lemma AtMost(a: nat, b: nat, unit: nat)
    requires a <= b
    ensures a * unit <= b * unit
  {
    if a < b { MulGap(unit, a, b); }
  }

  lemma NeededIs(n: nat, len: nat, spc: nat)
    requires Least(n, len, spc) && spc > 0
    ensures Needed(len, spc) == n
  {
    NeededIsLeast(len, spc);
    LeastUnique(n, Needed(len, spc), len, spc);
  }

  // ---- free clusters -----------------------------------------------------------

  ghost function ZerosFrom(fat: seq<u16>, c: nat): set<nat> {
    set x: nat | c <= x < |fat| && fat[x] == 0
  }

  /** The search finds k free clusters, or all of them if there are fewer. */
  lemma {:induction false} SearchCounts(fat: seq<u16>, c: nat, k: nat)
    ensures |FreeFrom(fat, c, k)| == if k <= |ZerosFrom(fat, c)| then k else |ZerosFrom(fat, c)|
    decreases |fat| - c
  {
    if c >= |fat| {
      assert ZerosFrom(fat, c) == {};
    } else if fat[c] == 0 {
      assert ZerosFrom(fat, c) == {c} + ZerosFrom(fat, c + 1);
      if k > 0 { SearchCounts(fat, c + 1, k - 1); }
    } else {
      assert ZerosFrom(fat, c) == ZerosFrom(fat, c + 1);
      SearchCounts(fat, c + 1, k);
    }
  }

  /** It skips none. */
  lemma {:induction false} SearchInOrder(fat: seq<u16>, c: nat, k: nat, x: nat)
    requires c <= x < |fat| && fat[x] == 0
    requires FreeFrom(fat, c, k) != [] && x <= FreeFrom(fat, c, k)[|FreeFrom(fat, c, k)| - 1]
    ensures x in FreeFrom(fat, c, k)
    decreases |fat| - c
  {
    if x != c || fat[c] != 0 {
      if fat[c] == 0 {
        var rest := FreeFrom(fat, c + 1, k - 1);
        assert FreeFrom(fat, c, k) == [c] + rest;
        if rest != [] { SearchInOrder(fat, c + 1, k - 1, x); }
      } else {
        SearchInOrder(fat, c + 1, k, x);
      }
    }
  }

  // ---- when a write succeeds -----------------------------------------------------

  /** A directory entry with this name or without a file: never used or erased. */
  predicate Usable(e: Slot, name: seq<u8>)
    requires |e.name| == 11
  {
    e.name == name || e.name[0] in {0, 0xE5}
  }

  /** The four answers of a write, n being the least number of clusters for its
      bytes: too large beyond 64, no space with fewer than n zero entries in the
      table, a full directory without an entry to use, and success in every
      other case. */
  lemma WriteAnswers(v: Volume, name: seq<u8>, bytes: seq<u8>, n: nat)
    requires Sane(v) && |bytes| < 0x1_0000_0000 && Least(n, |bytes|, v.spc)
    ensures var st := Write(v, name, bytes).0;
            var room := n <= |ZerosFrom(v.fat, 2)|;
            var usable := exists i :: 0 <= i < |v.dir| && Usable(v.dir[i], name);
            && (st == TooLarge <==> n > 64)
            && (st == NoSpace <==> n <= 64 && !room)
            && (st == DirectoryFull <==> n <= 64 && room && !usable)
            && (st == Written(|bytes|) <==> n <= 64 && room && usable)
  {
    hide Store, LinkFrom, Needed, FreeFrom, ZerosFrom, Least;
    NeededIs(n, |bytes|, v.spc);
    SearchCounts(v.fat, 2, n);
    var i := SlotFrom(v.dir, name, 0);
    if i < |v.dir| { assert Usable(v.dir[i], name); }
  }

  // ---- what it leaves --------------------------------------------------------------

  /** ch are the |ch| free clusters of v with the lowest numbers, ascending. */
  ghost predicate LowestFree(v: Volume, ch: seq<nat>) {
    && (forall k :: 0 <= k < |ch| ==> 2 <= ch[k] < |v.fat| && v.fat[ch[k]] == 0)
    && (forall j, k :: 0 <= j < k < |ch| ==> ch[j] < ch[k])
    && (|ch| > 0 ==> forall x :: 2 <= x < |v.fat| && v.fat[x] == 0 && x <= ch[|ch| - 1] ==> x in ch)
  }

  /** i is the first entry that `name` may use. */
  ghost predicate FirstUsable(v: Volume, name: seq<u8>, i: nat)
    requires Sane(v)
  {
    i < |v.dir| && Usable(v.dir[i], name) && forall j :: 0 <= j < i ==> !Usable(v.dir[j], name)
  }

  /** The chain ch holds the bytes and zeros behind them; nothing else in the
      table or the data changed. */
  ghost predicate Laid(v: Volume, w: Volume, ch: seq<nat>, bytes: seq<u8>)
    requires Sane(v)
  {
    && |w.fat| == |v.fat| && |w.data| == |v.data| && w.spc == v.spc
    && ch != [] && IsChain(w.fat, ch[0], ch) && Inside(ch, |w.data|)
    && (forall x :: 0 <= x < |v.fat| && x !in ch ==> w.fat[x] == v.fat[x])
    && (forall x :: 0 <= x < |v.data| && x + 2 !in ch ==> w.data[x] == v.data[x])
    && |bytes| <= |ChainBytes(w.data, ch)|
    && ChainBytes(w.data, ch)[..|bytes|] == bytes
    && forall k :: |bytes| <= k < |ChainBytes(w.data, ch)| ==> ChainBytes(w.data, ch)[k] == 0
  }

  /** A successful write puts its bytes into the least number of clusters that
      holds them, the lowest free ones, chained in ascending order, and sets the
      first usable entry to the name, the archive attribute, the first cluster
      and the length; nothing else on the volume changes. */
  lemma WriteLeaves(v: Volume, name: seq<u8>, bytes: seq<u8>) returns (ch: seq<nat>, i: nat)
    requires Sane(v) && |bytes| < 0x1_0000_0000 && Write(v, name, bytes).0.Written?
    ensures var w := Write(v, name, bytes).1;
            && Least(|ch|, |bytes|, v.spc) && LowestFree(v, ch) && Laid(v, w, ch, bytes)
            && FirstUsable(v, name, i) && 2 <= ch[0] < 0x1_0000
            && w.dir == v.dir[i := Slot(name, 0x20, ch[0], |bytes|)]
  {
    hide Store, LinkFrom, Needed, SlotFrom, FreeFrom, Write, Least, Laid, LowestFree;
    WriteSteps(v, name, bytes);
    NeededIsLeast(|bytes|, v.spc);
    Found(v, |bytes|);
    ch := FreeFrom(v.fat, 2, Needed(|bytes|, v.spc));
    i := SlotFrom(v.dir, name, 0);
    SearchIsLowest(v, Needed(|bytes|, v.spc));
    StoredLaid(v, ch, bytes);
    SavedLaid(v, Stored(v, ch, bytes), Write(v, name, bytes).1, ch, bytes);
  }

  lemma SavedLaid(v: Volume, u: Volume, w: Volume, ch: seq<nat>, bytes: seq<u8>)
    requires Sane(v) && Laid(v, u, ch, bytes) && w.fat == u.fat && w.data == u.data && w.spc == u.spc
    ensures Laid(v, w, ch, bytes)
  {
    hide IsChain, ChainBytes;
  }

  lemma SearchIsLowest(v: Volume, k: nat)
    ensures LowestFree(v, FreeFrom(v.fat, 2, k))
  {
    hide FreeFrom;
    var cs := FreeFrom(v.fat, 2, k);
    forall x | cs != [] && 2 <= x < |v.fat| && v.fat[x] == 0 && x <= cs[|cs| - 1] ensures x in cs {
      SearchInOrder(v.fat, 2, k, x);
    }
  }

  lemma StoredLaid(v: Volume, cs: seq<nat>, bytes: seq<u8>)
    requires Sane(v) && |cs| > 0 && Unlike(cs) && Unused(v, cs) && FitsIn(|bytes|, |cs|, v.spc)
    requires Inside(cs, |v.data|)
    ensures Laid(v, Stored(v, cs, bytes), cs, bytes)
  {
    hide Store, LinkFrom, IsChain, FitsIn, ChainBytes;
    StoredNew(v, cs, bytes);
    StoreFrame(v.data, v.spc, cs, bytes);
    LinkedIsChain(v.fat, cs);
    StoredPadded(v.data, v.spc, cs, bytes);
  }

  // ---- zeros behind the bytes ------------------------------------------------------

  /** From position n on, s is zero. */
  ghost predicate ZeroFrom(s: seq<u8>, n: nat) {
    forall k :: n <= k < |s| ==> s[k] == 0
  }

  lemma {:induction false} FillPadded(bytes: seq<u8>, n: nat)
    ensures ZeroFrom(Concat(Fill(bytes, n)), |bytes|)
    decreases n
  {
    if n > 0 {
      var rest := Drop(bytes, 512);
      FillPadded(rest, n - 1);
      assert Fill(bytes, n)[1..] == Fill(rest, n - 1);
      assert Concat(Fill(bytes, n)) == Pad(bytes) + Concat(Fill(rest, n - 1));
    }
  }

  lemma {:induction false} StoredPadded(data: seq<seq<Sector>>, spc: nat, cs: seq<nat>, bytes: seq<u8>)
    requires spc > 0 && Unlike(cs) && Inside(cs, |data|)
    ensures ZeroFrom(ChainBytes(Store(data, spc, cs, bytes), cs), |bytes|)
    decreases |cs|
  {
    hide Fill, Concat;
    if cs != [] {
      var first := Fill(bytes, spc);
      var d1 := data[cs[0] - 2 := first];
      var t := cs[1..];
      var rest := Drop(bytes, 512 * spc);
      assert forall k :: 0 <= k < |t| ==> t[k] == cs[k + 1];
      StoredPadded(d1, spc, t, rest);
      var r := Store(data, spc, cs, bytes);
      assert r == Store(d1, spc, t, rest);
      StoreFrame(d1, spc, t, rest);
      assert r[cs[0] - 2] == first;
      FillPadded(bytes, spc);
      assert ChainBytes(r, cs) == Concat(first) + ChainBytes(r, t);
    }
  }

  // ---- reading and deleting ----------------------------------------------------------

  /** A used, unerased entry of this name, not part of a long name. */
  predicate Carries(e: Slot, name: seq<u8>)
    requires |e.name| == 11
  {
    e.name == name && e.name[0] !in {0, 0xE5} && e.attr % 16 < 15
  }

  /** i is the first entry that carries the name. */
  ghost predicate FirstCarries(v: Volume, name: seq<u8>, i: nat)
    requires Sane(v)
  {
    i < |v.dir| && Carries(v.dir[i], name) && forall j :: 0 <= j < i ==> !Carries(v.dir[j], name)
  }

  lemma LookupIsFirst(v: Volume, name: seq<u8>)
    requires Sane(v) && ZerosLast(v.dir)
    ensures Find(v, name) < |v.dir| ==> FirstCarries(v, name, Find(v, name))
    ensures Find(v, name) == |v.dir| <==> forall j :: 0 <= j < |v.dir| ==> !Carries(v.dir[j], name)
  {
    forall j | 0 <= j < |v.dir| ensures Matches(v.dir, j, name) <==> Carries(v.dir[j], name) {
      MatchesPlainly(v, j, name);
    }
  }

  /** A read finds the first entry that carries the name and returns the bytes
      along its chain up to the file's size and the buffer's; without such an
      entry the file is not found. */
  lemma ReadGives(v: Volume, chains: seq<seq<nat>>, name: seq<u8>, i: nat, cap: nat)
    requires WellFormed(v, chains)
    ensures Read(v, name, cap) == NotFound <==> forall j :: 0 <= j < |v.dir| ==> !Carries(v.dir[j], name)
    ensures FirstCarries(v, name, i) ==>
              var size := if v.dir[i].cluster < 2 then 0 else v.dir[i].size;
              var n := if size <= cap then size else cap;
              Inside(chains[i], |v.data|) && n <= |ChainBytes(v.data, chains[i])|
              && Read(v, name, cap) == Content(ChainBytes(v.data, chains[i])[..n])
  {
    hide IsChain, ReadChain, ChainBytes;
    LookupIsFirst(v, name);
    if FirstCarries(v, name, i) {
      assert Find(v, name) == i && Owns(v, i, chains[i]);
      if v.dir[i].cluster >= 2 {
        ChainInside(v, v.dir[i].cluster, chains[i]);
        if v.dir[i].size > 0 { EntryReads(v, i, chains[i], cap); }
      }
    }
  }

  /** A delete marks the first entry that carries the name as erased, keeping
      the rest of it, and zeroes the table entries of its chain; without such an
      entry the volume stays as it is. */
  lemma DeleteLeaves(v: Volume, chains: seq<seq<nat>>, name: seq<u8>, i: nat)
    requires WellFormed(v, chains) && Regular(name)
    ensures Delete(v, name).Deleted?
    ensures (forall j :: 0 <= j < |v.dir| ==> !Carries(v.dir[j], name)) ==> Delete(v, name).v == v
    ensures FirstCarries(v, name, i) ==>
              var (w, e) := (Delete(v, name).v, v.dir[i]);
              && w.dir == v.dir[i := Slot([0xE5] + name[1..], e.attr, e.cluster, e.size)]
              && w.data == v.data && w.spc == v.spc && |w.fat| == |v.fat|
              && forall x :: 0 <= x < |v.fat| ==> w.fat[x] == if x in chains[i] then 0 else v.fat[x]
  {
    hide IsChain;
    LookupIsFirst(v, name);
    DeleteFreesChain(v, chains, name);
    assert name[0 := 0xE5] == [0xE5] + name[1..];
  }
}
