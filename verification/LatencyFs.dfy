// The in-memory file system: a fixed table of slots, searched linearly and
// updated in place, refining a finite map from canonical paths to nodes.

module LatencyFs {

  const MAX_FILES: nat := 128
  const MAX_FILE_SIZE: nat := 4096

  type Bytes = seq<bv8>

  datatype Entry = Entry(name: string, data: Bytes, isDir: bool, readOnly: bool, used: bool)

  const EMPTY: Entry := Entry("", [], false, false, false)

  datatype FsError = FileNotFound | DiskFull | FileTooLarge | ReadOnly | DirectoryNotEmpty | AlreadyExists

  datatype Result<T> = Ok(value: T) | Err(error: FsError)

  // ---- the map ---------------------------------------------------------------

  datatype Node = Node(isDir: bool, data: Bytes, readOnly: bool)

  type Tree = map<string, Node>

  datatype Change = Done(m: Tree) | Refused(e: FsError)

  /** m without the name p. */
  function Without(m: Tree, p: string): (r: Tree)
    ensures forall x :: x in r <==> x in m && x != p
    ensures forall x :: x in r ==> r[x] == m[x]
    ensures p in m ==> |r| == |m| - 1
  {
    assert p in m ==> m == (m - {p})[p := m[p]];
    m - {p}
  }

  function MkdirOn(m: Tree, p: string): Change {
    if p in m then Done(m)
    else if |m| >= MAX_FILES then Refused(DiskFull)
    else Done(m[p := Node(true, [], false)])
  }

  function CreateOn(m: Tree, p: string, data: Bytes, readOnly: bool): Change {
    if |data| > MAX_FILE_SIZE then Refused(FileTooLarge)
    else if p in m then
      if m[p].readOnly then Refused(ReadOnly) else Done(m[p := Node(false, data, false)])
    else if |m| >= MAX_FILES then Refused(DiskFull)
    else Done(m[p := Node(false, data, readOnly)])
  }

  /** n lies somewhere below the directory p. */
  predicate Under(n: string, p: string) {
    n != p && p + "/" <= n
  }

  function DeleteOn(m: Tree, p: string): Change {
    if exists n :: n in m && Under(n, p) then Refused(DirectoryNotEmpty)
    else if p !in m then Refused(FileNotFound)
    else if m[p].readOnly then Refused(ReadOnly)
    else Done(Without(m, p))
  }

  function RenameOn(m: Tree, p: string, q: string): Change {
    if q in m then Refused(AlreadyExists)
    else if p !in m then Refused(FileNotFound)
    else if m[p].readOnly then Refused(ReadOnly)
    else Done(Without(m, p)[q := m[p]])
  }

  // ---- the slot table ----------------------------------------------------------

  function Unused(fs: seq<Entry>): (i: nat)
    ensures i <= |fs|
    ensures i < |fs| ==> !fs[i].used
    ensures forall j :: 0 <= j < i ==> fs[j].used
  {
    if fs == [] || !fs[0].used then 0 else 1 + Unused(fs[1..])
  }

  function Count(fs: seq<Entry>): (n: nat)
    ensures n <= |fs|
  {
    if fs == [] then 0 else Count(fs[..|fs| - 1]) + if fs[|fs| - 1].used then 1 else 0
  }

  function NodeOf(e: Entry): Node {
    Node(e.isDir, e.data, e.readOnly)
  }

  /** The slot of each name. */
  type Places = map<string, nat>

  /** Slots in use are exactly the places of the map's names, so no two of
      them have the same name. */
  ghost predicate Placed(fs: seq<Entry>, at: Places) {
    && (forall p :: p in at ==> at[p] < |fs| && fs[at[p]].used && fs[at[p]].name == p)
    && (forall i :: 0 <= i < |fs| && fs[i].used ==> fs[i].name in at && at[fs[i].name] == i)
  }

  ghost predicate Holds(fs: seq<Entry>, at: Places, m: Tree) {
    && Placed(fs, at) && |m| == Count(fs)
    && (forall p :: p in m <==> p in at)
    && (forall p :: p in m ==> m[p] == NodeOf(fs[at[p]]))
  }

  lemma {:induction false} CountUpdate(fs: seq<Entry>, i: nat, e: Entry)
    requires i < |fs|
    ensures Count(fs[i := e]) + (if fs[i].used then 1 else 0) == Count(fs) + if e.used then 1 else 0
  {
    var n := |fs| - 1;
    if i < n {
      assert fs[i := e][..n] == fs[..n][i := e];
      CountUpdate(fs[..n], i, e);
    } else {
      assert fs[i := e][..n] == fs[..n];
    }
  }

  lemma {:induction false} CountFull(fs: seq<Entry>)
    ensures Count(fs) == |fs| <==> Unused(fs) == |fs|
  {
    if fs != [] {
      var t := fs[..|fs| - 1];
      CountFull(t);
      if Unused(t) == |t| { assert forall j :: 0 <= j < |t| ==> fs[j] == t[j]; }
      if Unused(t) < |t| { assert !fs[Unused(t)].used; }
    }
  }

  function Drop(at: Places, p: string): (r: Places)
    ensures forall x :: x in r <==> x in at && x != p
    ensures forall x :: x in r ==> r[x] == at[x]
  {
    map x | x in at && x != p :: at[x]
  }

  lemma AddSlot(fs: seq<Entry>, at: Places, m: Tree, i: nat, e: Entry)
    requires Holds(fs, at, m) && i < |fs| && !fs[i].used && e.used && e.name !in m
    ensures Holds(fs[i := e], at[e.name := i], m[e.name := NodeOf(e)])
  {
    CountUpdate(fs, i, e);
    hide Count;
  }

  lemma RemovePlaced(fs: seq<Entry>, at: Places, i: nat, e: Entry)
    requires Placed(fs, at) && i < |fs| && fs[i].used && !e.used
    ensures Placed(fs[i := e], Drop(at, fs[i].name))
    ensures forall p :: p in at && p != fs[i].name ==> at[p] < |fs| && at[p] != i
    ensures fs[i].name in at
  {
    hide Drop;
  }

  lemma RemoveSlot(fs: seq<Entry>, at: Places, m: Tree, i: nat, e: Entry)
    requires Holds(fs, at, m) && i < |fs| && fs[i].used && !e.used
    ensures fs[i].name in m
    ensures Holds(fs[i := e], Drop(at, fs[i].name), Without(m, fs[i].name))
  {
    CountUpdate(fs, i, e);
    RemovePlaced(fs, at, i, e);
    hide Count, Without, Drop, Placed;
  }

  lemma ChangeSlot(fs: seq<Entry>, at: Places, m: Tree, i: nat, e: Entry)
    requires Holds(fs, at, m) && i < |fs| && fs[i].used && e.used && (e.name == fs[i].name || e.name !in m)
    ensures Holds(fs[i := e], Drop(at, fs[i].name)[e.name := i],
                  Without(m, fs[i].name)[e.name := NodeOf(e)])
  {
    RemoveSlot(fs, at, m, i, EMPTY);
    hide Holds, Without, Drop;
    AddSlot(fs[i := EMPTY], Drop(at, fs[i].name), Without(m, fs[i].name), i, e);
    assert fs[i := EMPTY][i := e] == fs[i := e];
  }

  // ---- the file system ---------------------------------------------------------

  class LatencyFS {
    const files: array<Entry>
    ghost var m: Tree
    ghost var at: Places

    ghost predicate Valid()
      reads this, files
    {
      files.Length == MAX_FILES && Holds(files[..], at, m)
    }

    constructor ()
      ensures Valid() && m == map[] && fresh(files)
    {
      files := new Entry[MAX_FILES](_ => EMPTY);
      m := map[];
      at := map[];
      new;
      NoneUsed(files[..]);
    }

    /** The slot of a path, or MAX_FILES. */
    method Find(p: string) returns (i: nat)
      requires Valid()
      ensures i <= MAX_FILES && (i < MAX_FILES <==> p in m) && (p in m ==> p in at && at[p] == i)
      ensures i < MAX_FILES ==> files[i].used && files[i].name == p && m[p] == NodeOf(files[i])
    {
      hide Count;
      i := 0;
      while i < MAX_FILES
        invariant i <= MAX_FILES && (p in at ==> at[p] >= i)
      {
        assert files[i] == files[..][i];
        if files[i].used && files[i].name == p { return; }
        i := i + 1;
      }
    }

    method FindUnused() returns (i: nat)
      requires Valid()
      ensures i <= MAX_FILES && (i == MAX_FILES <==> |m| == MAX_FILES) && |m| <= MAX_FILES
      ensures i < MAX_FILES ==> !files[i].used
    {
      CountFull(files[..]);
      i := 0;
      while i < MAX_FILES
        invariant i <= MAX_FILES && forall j :: 0 <= j < i ==> files[j].used
      {
        if !files[i].used { return; }
        i := i + 1;
      }
    }

    /** Creates a directory; one that exists already is left as it is. */
    method Mkdir(p: string) returns (r: Result<nat>)
      requires Valid()
      modifies this, files
      ensures Valid()
      ensures match MkdirOn(old(m), p)
              case Done(now) => r.Ok? && m == now && p in at && r.value == at[p]
              case Refused(e) => r == Err(e) && m == old(m)
    {
      assert files.Length == MAX_FILES;
      hide Valid;
      var i := Find(p);
      if i < MAX_FILES { return Ok(i); }
      i := FindUnused();
      if i == MAX_FILES { return Err(DiskFull); }
      r := Take(i, Entry(p, [], true, false, true));
    }

    /** Fills an unused slot. */
    method Take(i: nat, e: Entry) returns (r: Result<nat>)
      requires Valid() && i < files.Length && !files[i].used && e.used && e.name !in m
      modifies this, files
      ensures Valid() && r == Ok(i) && m == old(m)[e.name := NodeOf(e)] && e.name in at && at[e.name] == i
    {
      AddSlot(files[..], at, m, i, e);
      hide Holds;
      files[i] := e;
      m, at := m[e.name := NodeOf(e)], at[e.name := i];
      assert files[..] == old(files[..])[i := e];
      r := Ok(i);
    }

    /** Changes a slot in use, possibly to a new name. */
    method Replace(i: nat, e: Entry)
      requires Valid() && i < files.Length && files[i].used && e.used && (e.name == files[i].name || e.name !in m)
      modifies this, files
      ensures Valid() && e.name in at && at[e.name] == i
      ensures m == Without(old(m), old(files[i].name))[e.name := NodeOf(e)]
    {
      hide Holds, Without, Drop, NodeOf;
      ghost var fs := files[..];
      ghost var name := files[i].name;
      ChangeSlot(fs, at, m, i, e);
      files[i] := e;
      m := Without(m, name)[e.name := NodeOf(e)];
      at := Drop(at, name)[e.name := i];
      assert files[..] == fs[i := e];
    }

    /** Creates or overwrites a file. */
    method Create(p: string, data: Bytes, readOnly: bool) returns (r: Result<nat>)
      requires Valid()
      modifies this, files
      ensures Valid()
      ensures match CreateOn(old(m), p, data, readOnly)
              case Done(now) => r.Ok? && m == now && p in at && r.value == at[p]
              case Refused(e) => r == Err(e) && m == old(m)
    {
      if |data| > MAX_FILE_SIZE { return Err(FileTooLarge); }
      assert files.Length == MAX_FILES;
      hide Valid, Without;
      var i := Find(p);
      if i < MAX_FILES {
        if files[i].readOnly { return Err(ReadOnly); }
        Replace(i, files[i].(isDir := false, data := data));
        SameName(old(m), p, Node(false, data, false));
        return Ok(i);
      }
      i := FindUnused();
      if i == MAX_FILES { return Err(DiskFull); }
      r := Take(i, Entry(p, data, false, readOnly, true));
    }

    /** The contents of a file, by exact path. */
    method Read(p: string) returns (r: Result<Bytes>)
      requires Valid()
      ensures r == ReadOn(m, p)
    {
      assert files.Length == MAX_FILES;
      hide Valid;
      var i := Find(p);
      if i == MAX_FILES || files[i].isDir { return Err(FileNotFound); }
      r := Ok(files[i].data);
    }

    /** Some name in use lies below p. */
    method HasChildren(p: string) returns (has: bool)
      requires Valid()
      ensures has <==> exists n :: n in m && Under(n, p)
    {
      hide Under, Count;
      var i := 0;
      while i < MAX_FILES
        invariant i <= MAX_FILES && forall j :: 0 <= j < i && files[j].used ==> !Under(files[j].name, p)
      {
        assert files[i] == files[..][i];
        if files[i].used && Under(files[i].name, p) { return true; }
        i := i + 1;
      }
      forall n | n in m ensures !Under(n, p) {
        assert files[..][at[n]].name == n;
      }
      has := false;
    }

    method Delete(p: string) returns (r: Result<()>)
      requires Valid()
      modifies this, files
      ensures Valid()
      ensures match DeleteOn(old(m), p)
              case Done(now) => r == Ok(()) && m == now
              case Refused(e) => r == Err(e) && m == old(m)
    {
      assert files.Length == MAX_FILES;
      hide Valid, Without, Under;
      var has := HasChildren(p);
      if has { return Err(DirectoryNotEmpty); }
      var i := Find(p);
      if i == MAX_FILES { return Err(FileNotFound); }
      if files[i].readOnly { return Err(ReadOnly); }
      Clear(i);
      r := Ok(());
    }

    method Clear(i: nat)
      requires Valid() && i < files.Length && files[i].used
      modifies this, files
      ensures Valid() && m == Without(old(m), old(files[i].name))
    {
      RemoveSlot(files[..], at, m, i, EMPTY);
      hide Holds, Without, Drop;
      ghost var name := files[i].name;
      m := Without(m, name);
      at := Drop(at, name);
      files[i] := EMPTY;
      assert files[..] == old(files[..])[i := EMPTY];
    }

    method Rename(p: string, q: string) returns (r: Result<()>)
      requires Valid()
      modifies this, files
      ensures Valid()
      ensures match RenameOn(old(m), p, q)
              case Done(now) => r == Ok(()) && m == now
              case Refused(e) => r == Err(e) && m == old(m)
    {
      assert files.Length == MAX_FILES;
      hide Valid, Without;
      var j := Find(q);
      if j < MAX_FILES { return Err(AlreadyExists); }
      var i := Find(p);
      if i == MAX_FILES { return Err(FileNotFound); }
      if files[i].readOnly { return Err(ReadOnly); }
      Replace(i, files[i].(name := q));
      r := Ok(());
    }
  }

  lemma SameName(m: Tree, p: string, n: Node)
    requires p in m
    ensures Without(m, p)[p := n] == m[p := n]
  {
  }

  lemma {:induction false} NoneUsed(fs: seq<Entry>)
    requires forall i :: 0 <= i < |fs| ==> !fs[i].used
    ensures Holds(fs, map[], map[])
  {
    if fs != [] { NoneUsed(fs[..|fs| - 1]); }
  }

  // ---- what the map says -------------------------------------------------------

  /** What a read of p finds. */
  function ReadOn(m: Tree, p: string): Result<Bytes> {
    if p in m && !m[p].isDir then Ok(m[p].data) else Err(FileNotFound)
  }

  datatype Op = Mkdir(p: string) | Create(p: string, data: Bytes,
      readOnly: bool) | Delete(p: string) | Rename(p: string, q: string)

  function Apply(m: Tree, op: Op): Change {
    match op
    case Mkdir(p) => MkdirOn(m, p)
    case Create(p, data, readOnly) => CreateOn(m, p, data, readOnly)
    case Delete(p) => DeleteOn(m, p)
    case Rename(p, q) => RenameOn(m, p, q)
  }

  function After(m: Tree, op: Op): Tree {
    match Apply(m, op)
    case Done(now) => now
    case Refused(_) => m
  }

  predicate Touches(op: Op, x: string) {
    x == op.p || (op.Rename? && x == op.q)
  }

  function AfterAll(m: Tree, ops: seq<Op>): Tree
    decreases |ops|
  {
    if ops == [] then m else After(AfterAll(m, ops[..|ops| - 1]), ops[|ops| - 1])
  }

  /** After any history: what a path reads is what the last operation that
      named it made of it; operations on other paths do not matter, and there
      are never more names than slots. */
  lemma {:induction false} OthersUntouched(m: Tree, ops: seq<Op>, x: string)
    requires |m| <= MAX_FILES && forall i :: 0 <= i < |ops| ==> !Touches(ops[i], x)
    ensures |AfterAll(m, ops)| <= MAX_FILES
    ensures x in AfterAll(m, ops) <==> x in m
    ensures x in m ==> AfterAll(m, ops)[x] == m[x]
    decreases |ops|
  {
    if ops != [] {
      var was := AfterAll(m, ops[..|ops| - 1]);
      var op := ops[|ops| - 1];
      OthersUntouched(m, ops[..|ops| - 1], x);
      if Apply(was, op).Done? { SizeKept(was, op); }
    }
  }

  lemma SizeKept(m: Tree, op: Op)
    requires |m| <= MAX_FILES && Apply(m, op).Done?
    ensures |After(m, op)| <= MAX_FILES
  {
    hide Without;
    match op
    case Mkdir(_) =>
    case Create(_, _, _) =>
    case Delete(_) =>
    case Rename(_, _) =>
  }

  // ---- one operation -------------------------------------------------------------

  /** Nothing but p, and q where it is given too, differs. */
  ghost predicate SameBut(m: Tree, now: Tree, p: string, q: string) {
    forall x :: x != p && x != q ==> (x in now <==> x in m) && (x in m ==> now[x] == m[x])
  }

  /** A rename moves the node as it is; it is refused for a taken target, a
      missing path and a read-only node, in this order. */
  lemma RenameMoves(m: Tree, p: string, q: string)
    ensures RenameOn(m, p, q).Done? <==> p in m && q !in m && !m[p].readOnly
    ensures RenameOn(m, p, q) == Refused(AlreadyExists) <==> q in m
    ensures RenameOn(m, p, q) == Refused(FileNotFound) <==> p !in m && q !in m
    ensures RenameOn(m, p, q).Done? ==>
              var now := RenameOn(m, p, q).m;
              && ReadOn(now, q) == ReadOn(m, p) && ReadOn(now, p) == Err(FileNotFound)
              && p !in now && q in now && |now| == |m|
              && now[q].isDir == m[p].isDir && now[q].readOnly == m[p].readOnly
              && SameBut(m, now, p, q)
  {
  }

  /** A create leaves the contents to be read. A file that exists keeps none of
      its old contents; a read-only one, contents beyond 4096 bytes and a
      hundred and twenty-ninth name are refused. */
  lemma CreateStores(m: Tree, p: string, data: Bytes, readOnly: bool)
    ensures var c := CreateOn(m, p, data, readOnly);
            && (c.Done? <==> |data| <= 4096 && if p in m then !m[p].readOnly else |m| < 128)
            && (c == Refused(FileTooLarge) <==> |data| > 4096)
            && (c == Refused(ReadOnly) <==> |data| <= 4096 && p in m && m[p].readOnly)
            && (c.Done? ==>
                  && ReadOn(c.m, p) == Ok(data) && SameBut(m, c.m, p, p)
                  && (c.m[p].readOnly <==> p !in m && readOnly))
  {
  }

  /** A directory is made where no name is; it reads as missing. */
  lemma MkdirAdds(m: Tree, p: string)
    ensures MkdirOn(m, p).Done? <==> p in m || |m| < 128
    ensures MkdirOn(m, p).Done? ==>
              var now := MkdirOn(m, p).m;
              && p in now && SameBut(m, now, p, p)
              && (p in m ==> now[p] == m[p])
              && (p !in m ==> now[p].isDir && !now[p].readOnly && ReadOn(now, p) == Err(FileNotFound))
  {
  }

  /** A delete takes exactly one name away; it is refused where some name goes
      on behind the path and a slash, where there is no such path, and for a
      read-only node. */
  lemma DeleteRemoves(m: Tree, p: string)
    ensures var d := DeleteOn(m, p);
            && (d == Refused(DirectoryNotEmpty) <==> exists n :: n in m && Behind(n, p))
            && (d.Done? <==> p in m && !m[p].readOnly && forall n :: n in m ==> !Behind(n, p))
            && (d.Done? ==> p !in d.m && ReadOn(d.m, p) == Err(FileNotFound) && SameBut(m, d.m, p, p))
  {
    forall n ensures Behind(n, p) <==> Under(n, p) { BehindIsUnder(n, p); }
  }

  /** n goes on behind p and a slash. */
  ghost predicate Behind(n: string, p: string) {
    |n| > |p| && n[..|p|] == p && n[|p|] == '/'
  }

  lemma BehindIsUnder(n: string, p: string)
    ensures Behind(n, p) <==> Under(n, p)
  {
    if Behind(n, p) { assert n[..|p| + 1] == p + "/"; }
    if Under(n, p) { assert n[..|p| + 1] == p + "/"; assert n[|p|] == (p + "/")[|p|]; }
  }

  // ---- a file through its renames --------------------------------------------------

  /** Where the file that p was before the history is after it. */
  ghost function Place(m: Tree, ops: seq<Op>, p: string): string
    decreases |ops|
  {
    if ops == [] then p
    else
      Moved(AfterAll(m, ops[..|ops| - 1]), ops[|ops| - 1], Place(m, ops[..|ops| - 1], p))
  }

  /** Where the operation takes what is at x. */
  ghost function Moved(m: Tree, op: Op, x: string): string {
    if op.Rename? && op.p == x && Apply(m, op).Done? then op.q else x
  }

  lemma MovedKeeps(m: Tree, op: Op, x: string)
    requires x in m && (op.Create? || op.Delete? ==> op.p != x)
    ensures Moved(m, op, x) in After(m, op) && After(m, op)[Moved(m, op, x)] == m[x]
  {
  }

  lemma MovedApart(m: Tree, op: Op, x: string, y: string)
    requires x in m && y in m && x != y
    ensures Moved(m, op, x) != Moved(m, op, y)
  {
  }

  /** No create or delete names the file where it is. */
  ghost predicate Spared(m: Tree, ops: seq<Op>, p: string)
    decreases |ops|
  {
    ops != [] ==>
      && Spared(m, ops[..|ops| - 1], p)
      && (ops[|ops| - 1].Create? || ops[|ops| - 1].Delete? ==> ops[|ops| - 1].p != Place(m, ops[..|ops| - 1], p))
  }

  lemma SameRead(m: Tree, p: string, n: Tree, q: string)
    requires p in m && q in n && m[p] == n[q]
    ensures ReadOn(m, p) == ReadOn(n, q)
  {
  }

  /** After any history that neither overwrites nor deletes it, a file or
      directory is found where its renames took it, with the contents, the kind
      and the read-only flag it had. */
  lemma {:induction false} FollowsRenames(m: Tree, ops: seq<Op>, p: string)
    requires p in m && Spared(m, ops, p)
    ensures Place(m, ops, p) in AfterAll(m, ops) && AfterAll(m, ops)[Place(m, ops, p)] == m[p]
    ensures ReadOn(AfterAll(m, ops), Place(m, ops, p)) == ReadOn(m, p)
    decreases |ops|
  {
    hide Moved, After, ReadOn;
    if ops != [] {
      var t := ops[..|ops| - 1];
      FollowsRenames(m, t, p);
      MovedKeeps(AfterAll(m, t), ops[|ops| - 1], Place(m, t, p));
    }
    SameRead(AfterAll(m, ops), Place(m, ops, p), m, p);
  }

  /** Two of them are never found in one place. */
  lemma {:induction false} PlacesApart(m: Tree, ops: seq<Op>, p: string, q: string)
    requires p in m && q in m && p != q && Spared(m, ops, p) && Spared(m, ops, q)
    ensures Place(m, ops, p) != Place(m, ops, q)
    decreases |ops|
  {
    hide Moved, After;
    if ops != [] {
      var t := ops[..|ops| - 1];
      PlacesApart(m, t, p, q);
      FollowsRenames(m, t, p);
      FollowsRenames(m, t, q);
      MovedApart(AfterAll(m, t), ops[|ops| - 1], Place(m, t, p), Place(m, t, q));
    }
  }

  /** Read back what was created, however other paths change in between. */
  lemma ReadAfterCreate(m: Tree, p: string, data: Bytes, readOnly: bool, ops: seq<Op>)
    requires |m| <= MAX_FILES && CreateOn(m, p, data, readOnly).Done?
    requires forall i :: 0 <= i < |ops| ==> !Touches(ops[i], p)
    ensures ReadOn(AfterAll(After(m, Create(p, data, readOnly)), ops), p) == Ok(data)
  {
    SizeKept(m, Create(p, data, readOnly));
    OthersUntouched(After(m, Create(p, data, readOnly)), ops, p);
  }
}
