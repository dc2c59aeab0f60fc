// Static storage: where the compiler places arrays and constant tables, and
// that the machine, which computes the places again, agrees with it.

module Storage {
  import opened Words
  import opened Isa
  import opened Vm

  const MAX_ARRAYS: nat := 8
  const MAX_ELEMENTS: nat := 256

  datatype StorageError = MaxArraysExceeded | ArrayCapacityExceeded | ConstPoolFull | ConstPoolExceeded

  datatype Result<T> = Ok(value: T) | Err(error: StorageError)

  // ---- the compiler's array table ------------------------------------------

  /** What the compiler answers to a declaration after those in lens. */
  function Declared(lens: seq<nat>, len: nat): Result<nat> {
    if |lens| >= MAX_ARRAYS then Err(MaxArraysExceeded)
    else if SumTo(lens, |lens|) + len > MAX_ELEMENTS then Err(ArrayCapacityExceeded)
    else Ok(|lens|)
  }

  /** A declaration is accepted exactly if there are then at most eight arrays and
      256 elements in all; its number is the count of those before it. */
  lemma DeclaredIff(lens: seq<nat>, len: nat)
    ensures Declared(lens, len).Ok? <==> |lens + [len]| <= 8 && SumTo(lens + [len], |lens + [len]|) <= 256
    ensures Declared(lens, len).Ok? ==> (lens + [len])[Declared(lens, len).value] == len
    ensures Declared(lens, len) == Err(MaxArraysExceeded) <==> |lens + [len]| > 8
  {
    SumPrefix(lens, [len], |lens|);
    assert (lens + [len])[|lens|] == len;
  }

  /** Arrays the compiler can have accepted. */
  ghost predicate Accepted(lens: seq<nat>) {
    |lens| <= MAX_ARRAYS && SumTo(lens, |lens|) <= MAX_ELEMENTS
  }

  class ArrayTable {
    const bases: array<nat>
    const lens: array<nat>
    var arrayCount: nat
    var totalElements: nat
    ghost var declared: seq<nat>

    ghost predicate Valid()
      reads this, bases, lens
    {
      && bases != lens && bases.Length == lens.Length == MAX_ARRAYS
      && arrayCount == |declared| && Accepted(declared)
      && totalElements == SumTo(declared, |declared|)
      && (forall i :: 0 <= i < arrayCount ==> lens[i] == declared[i] && bases[i] == SumTo(declared, i))
    }

    constructor ()
      ensures Valid() && declared == [] && fresh(bases) && fresh(lens)
    {
      bases := new nat[MAX_ARRAYS](_ => 0);
      lens := new nat[MAX_ARRAYS](_ => 0);
      arrayCount, totalElements, declared := 0, 0, [];
    }

    /** Arrays are laid out one behind the other, in declaration order. */
    method Declare(len: nat) returns (r: Result<nat>)
      requires Valid()
      modifies this, bases, lens
      ensures Valid() && r == Declared(old(declared), len)
      ensures declared == if r.Ok? then old(declared) + [len] else old(declared)
    {
      if arrayCount >= MAX_ARRAYS { return Err(MaxArraysExceeded); }
      if totalElements + len > MAX_ELEMENTS { return Err(ArrayCapacityExceeded); }
      bases[arrayCount] := totalElements;
      lens[arrayCount] := len;
      ghost var was := declared;
      declared := declared + [len];
      forall i | 0 <= i <= |was| ensures SumTo(declared, i) == SumTo(was, i) { SumPrefix(was, [len], i); }
      r := Ok(arrayCount);
      arrayCount := arrayCount + 1;
      totalElements := totalElements + len;
    }
  }

  lemma {:induction false} SumPrefix(a: seq<nat>, b: seq<nat>, n: nat)
    requires n <= |a|
    ensures SumTo(a + b, n) == SumTo(a, n)
    decreases n
  {
    if n > 0 { SumPrefix(a, b, n - 1); }
  }

  lemma {:induction false} SumGrows(a: seq<nat>, i: nat, j: nat)
    requires i <= j <= |a|
    ensures SumTo(a, i) <= SumTo(a, j)
    decreases j - i
  {
    if i < j { SumGrows(a, i, j - 1); }
  }

  lemma {:induction false} SumSame(a: seq<nat>, b: seq<nat>, n: nat)
    requires n <= |a| && n <= |b| && forall i :: 0 <= i < n ==> a[i] == b[i]
    ensures SumTo(a, n) == SumTo(b, n)
    decreases n
  {
    if n > 0 { SumSame(a, b, n - 1); }
  }

  // ---- the machine's array definitions ----------------------------------------

  /** The machine's memory after the definitions of the first n arrays, in
      order of their ids. */
  ghost function Defined(mem: Memory, lens: seq<nat>, n: nat): (r: Memory)
    requires ValidMemory(mem) && n <= |lens| && Accepted(lens)
    ensures ValidMemory(r)
  {
    if n == 0 then mem
    else
      SumGrows(lens, n - 1, |lens|);
      SumGrows(lens, n, |lens|);
      DefineArray(Defined(mem, lens, n - 1), n - 1, lens[n - 1])
  }

  /** The machine has the compiler's lengths and bases for the first n arrays. */
  ghost predicate Agrees(mem: Memory, lens: seq<nat>, n: nat)
    requires ValidMemory(mem) && n <= |lens| && Accepted(lens)
  {
    forall i :: 0 <= i < n ==> mem.arrayLens[i] == lens[i] && mem.arrayBases[i] == SumTo(lens, i)
  }

  /** The two fields a definition changes besides the slots. */
  lemma DefinedFields(mem: Memory, i: nat, len: nat)
    requires ValidMemory(mem) && i < 8 && len < 0x1_0000 && SumTo(mem.arrayLens[i := len], i) < 0x1_0000
    ensures var now := DefineArray(mem, i, len);
            && now.arrayLens == mem.arrayLens[i := len]
            && now.arrayBases == mem.arrayBases[i := SumTo(mem.arrayLens[i := len], i)]
  {
    hide ZeroFill, SumTo;
  }

  lemma NextAgrees(mem: Memory, lens: seq<nat>, i: nat)
    requires ValidMemory(mem) && i < |lens| && Accepted(lens) && Agrees(mem, lens, i) && lens[i] < 0x1_0000
    requires SumTo(lens, i) < 0x1_0000
    ensures ValidMemory(DefineArray(mem, i, lens[i])) && Agrees(DefineArray(mem, i, lens[i]), lens, i + 1)
  {
    hide SumTo, DefineArray;
    SumSame(mem.arrayLens[i := lens[i]], lens, i);
    DefinedFields(mem, i, lens[i]);
  }

  lemma {:induction false} DefinitionsAgree(mem: Memory, lens: seq<nat>, n: nat)
    requires ValidMemory(mem) && n <= |lens| && Accepted(lens)
    ensures Agrees(Defined(mem, lens, n), lens, n)
    decreases n
  {
    hide DefineArray, SumTo, Accepted;
    if n > 0 {
      DefinitionsAgree(mem, lens, n - 1);
      Bounds(lens, n - 1);
      NextAgrees(Defined(mem, lens, n - 1), lens, n - 1);
    }
  }

  lemma Bounds(lens: seq<nat>, i: nat)
    requires Accepted(lens) && i < |lens|
    ensures lens[i] <= MAX_ELEMENTS && SumTo(lens, i) <= MAX_ELEMENTS
  {
    SumGrows(lens, i, |lens|);
    SumGrows(lens, i + 1, |lens|);
  }

  /** The slots of array i. */
  ghost function Elements(mem: Memory, lens: seq<nat>, i: nat): (s: seq<i64>)
    requires ValidMemory(mem) && Accepted(lens) && i < |lens|
    ensures |s| == lens[i]
  {
    SumGrows(lens, i + 1, |lens|);
    mem.arraySlots[SumTo(lens, i)..SumTo(lens, i) + lens[i]]
  }

  /** Defining an array clears it and no array before it. */
  lemma DefinitionClears(mem: Memory, lens: seq<nat>, i: nat, j: nat)
    requires ValidMemory(mem) && Accepted(lens) && j <= i < |lens| && Agrees(mem, lens, i) && lens[i] < 0x1_0000
    ensures ValidMemory(DefineArray(mem, i, lens[i]))
    ensures Elements(DefineArray(mem, i, lens[i]), lens, j)
         == if j == i then seq(lens[i], _ => 0) else Elements(mem, lens, j)
  {
    SumGrows(lens, i + 1, |lens|);
    SumGrows(lens, j + 1, |lens|);
    SumSame(mem.arrayLens[i := lens[i]], lens, i);
    if j < i { SumGrows(lens, j + 1, i); }
  }

  /** Every index the machine accepts lies in its array's own region, so that
      two accesses meet exactly if array and index are the same. */
  lemma RegionsDisjoint(mem: Memory, lens: seq<nat>, i: nat, x: i64, j: nat, y: i64)
    requires ValidMemory(mem) && Accepted(lens) && Agrees(mem, lens, |lens|) && i < |lens| && j < |lens|
    ensures LocateArray(mem, i, x).At? <==> 0 <= x < lens[i]
    ensures LocateArray(mem, i, x).Bad? ==> LocateArray(mem, i, x).f == ArrayOutOfBounds
    ensures LocateArray(mem, i, x).At? && LocateArray(mem, j, y).At? ==>
      (LocateArray(mem, i, x) == LocateArray(mem, j, y) <==> i == j && x == y)
  {
    SumGrows(lens, i + 1, |lens|);
    SumGrows(lens, j + 1, |lens|);
    if i < j { SumGrows(lens, i + 1, j); }
    if j < i { SumGrows(lens, j + 1, i); }
  }

  /** A store into array i, at run time. */
  ghost function StoreAt(mem: Memory, a: nat, v: i64): (r: Memory)
    requires ValidMemory(mem) && a < 256
    ensures ValidMemory(r)
  {
    mem.(arraySlots := mem.arraySlots[a := v])
  }

  /** A store changes its own element of its own array and nothing else. */
  lemma StoreIsolated(mem: Memory, lens: seq<nat>, i: nat, x: i64, v: i64, j: nat)
    requires ValidMemory(mem) && Accepted(lens) && Agrees(mem, lens, |lens|) && i < |lens| && j < |lens|
    requires LocateArray(mem, i, x).At?
    ensures var now := StoreAt(mem, LocateArray(mem, i, x).index, v);
            && Agrees(now, lens, |lens|)
            && Elements(now, lens, j) == if j == i then Elements(mem, lens, i)[x := v] else Elements(mem, lens, j)
  {
    RegionsDisjoint(mem, lens, i, x, i, x);
    var a := LocateArray(mem, i, x).index;
    var now := StoreAt(mem, a, v);
    SumGrows(lens, i + 1, |lens|);
    SumGrows(lens, j + 1, |lens|);
    if i < j { SumGrows(lens, i + 1, j); }
    if j < i { SumGrows(lens, j + 1, i); }
    assert a == SumTo(lens, i) + x;
    forall y | 0 <= y < lens[j]
      ensures Elements(now, lens, j)[y] == if j == i && y == x then v else Elements(mem, lens, j)[y]
    {
    }
  }

  /** ARR_STORE and ARR_LOAD of one machine: reading back gives the stored
      word exactly where it was stored, and what was there everywhere else. */
  lemma LoadAfterStore(mem: Memory, lens: seq<nat>, i: nat, x: i64, v: i64, j: nat, y: i64)
    requires ValidMemory(mem) && Accepted(lens) && Agrees(mem, lens, |lens|) && i < |lens| && j < |lens|
    requires 0 <= x < lens[i] && 0 <= y < lens[j]
    ensures LocateArray(mem, i, x).At?
    ensures var now := StoreAt(mem, LocateArray(mem, i, x).index, v);
            && LocateArray(now, j, y) == LocateArray(mem, j, y) && LocateArray(now, j, y).At?
            && now.arraySlots[LocateArray(now, j, y).index]
               == if i == j && x == y then v else mem.arraySlots[LocateArray(mem, j, y).index]
  {
    RegionsDisjoint(mem, lens, i, x, j, y);
    RegionsDisjoint(mem, lens, j, y, i, x);
  }

  // ---- structures --------------------------------------------------------------

  /** The field counts of the instances a script has declared. */
  ghost predicate FieldCounts(counts: seq<nat>) {
    |counts| <= 8 && forall i :: 0 <= i < |counts| ==> counts[i] < 256
  }

  /** The machine's memory after the definitions of the first n instances, in
      order of their ids. */
  ghost function StructsDefined(mem: Memory, counts: seq<nat>, n: nat): (r: Memory)
    requires ValidMemory(mem) && n <= |counts| && FieldCounts(counts)
    ensures ValidMemory(r)
  {
    if n == 0 then mem else DefineStruct(StructsDefined(mem, counts, n - 1), n - 1, counts[n - 1])
  }

  /** The machine has the instances' field counts, and places each behind those
      before it. */
  ghost predicate StructsAgree(mem: Memory, counts: seq<nat>, n: nat)
    requires ValidMemory(mem) && n <= |counts| <= 8
  {
    forall i :: 0 <= i < n ==> mem.structCounts[i] == counts[i] && mem.structBases[i] == SumTo(counts, i)
  }

  lemma {:induction false} SumSmall(counts: seq<nat>, n: nat)
    requires FieldCounts(counts) && n <= |counts|
    ensures SumTo(counts, n) <= 255 * n
    decreases n
  {
    if n > 0 { SumSmall(counts, n - 1); }
  }

  lemma NextStructAgrees(mem: Memory, counts: seq<nat>, i: nat)
    requires ValidMemory(mem) && FieldCounts(counts) && i < |counts| && StructsAgree(mem, counts, i)
    ensures ValidMemory(DefineStruct(mem, i, counts[i])) && StructsAgree(DefineStruct(mem, i, counts[i]), counts, i + 1)
  {
    SumSame(mem.structCounts[i := counts[i]], counts, i);
    SumSmall(counts, i);
    hide SumTo;
  }

  lemma {:induction false} StructDefinitionsAgree(mem: Memory, counts: seq<nat>, n: nat)
    requires ValidMemory(mem) && n <= |counts| && FieldCounts(counts)
    ensures StructsAgree(StructsDefined(mem, counts, n), counts, n)
    ensures StructsDefined(mem, counts, n).structSlots == mem.structSlots
    decreases n
  {
    if n > 0 {
      StructDefinitionsAgree(mem, counts, n - 1);
      NextStructAgrees(StructsDefined(mem, counts, n - 1), counts, n - 1);
    }
  }

  /** After the definitions a field beyond its instance's count is refused, one
      beyond the 256 cells for all instances faults, every other access is in
      bounds, and two of them meet exactly if instance and field are the same. */
  lemma FieldsDisjoint(mem: Memory, counts: seq<nat>, i: nat, x: u8, j: nat, y: u8)
    requires ValidMemory(mem) && FieldCounts(counts) && i < |counts| && j < |counts|
    ensures var now := StructsDefined(mem, counts, |counts|);
            var a, b := LocateStruct(now, i, x), LocateStruct(now, j, y);
            && (a == Bad(StructOutOfBounds) <==> x >= counts[i])
            && (a == Bad(IndexPanic) <==> x < counts[i] && SumTo(counts, i) + x >= 256)
            && (a.At? <==> x < counts[i] && SumTo(counts, i) + x < 256)
            && (a.At? && b.At? ==> (a == b <==> i == j && x == y))
  {
    StructDefinitionsAgree(mem, counts, |counts|);
    SumGrows(counts, i + 1, |counts|);
    SumGrows(counts, j + 1, |counts|);
    if i < j { SumGrows(counts, i + 1, j); }
    if j < i { SumGrows(counts, j + 1, i); }
    hide StructsDefined;
  }

  // ---- constant tables -------------------------------------------------------

  /** A table's literals go to the end of the constant pool. */
  function DeclareTable(pool: seq<i64>, vals: seq<i64>): (r: Result<seq<i64>>) {
    if |pool| + |vals| > 256 then Err(ConstPoolExceeded)
    else if |pool| + |vals| > MAX_CONST_POOL then Err(ConstPoolFull)
    else Ok(pool + vals)
  }

  /** A table is accepted exactly if the pool has room for its literals, which
      then follow what was there. */
  lemma TableAcceptedIff(pool: seq<i64>, vals: seq<i64>)
    ensures DeclareTable(pool, vals).Ok? <==> |pool + vals| <= 64
    ensures DeclareTable(pool, vals).Ok? ==> DeclareTable(pool, vals).value == pool + vals
    ensures DeclareTable(pool, vals) == Err(ConstPoolExceeded) <==> |pool + vals| > 256
  {
  }

  /** Whatever constants are added later, a table load of every index in range
      reads the literal declared there, and earlier pool indices stay valid. */
  lemma TableReadsLiterals(m: Machine, mem: Memory, id: nat, pool: seq<i64>, vals: seq<i64>, i: i64)
    requires ValidMemory(mem) && id < 8 && DeclareTable(pool, vals).Ok? && pool + vals <= m.constPool
    ensures var now := mem.(tableBases := mem.tableBases[id := |pool|], tableLens := mem.tableLens[id := |vals|]);
            && (0 <= i < |vals| ==>
              LocateTable(m, now, id, i).At? && m.constPool[LocateTable(m, now, id, i).index] == vals[i])
            && (!(0 <= i < |vals|) ==> LocateTable(m, now, id, i) == Bad(TableOutOfBounds))
    ensures forall k :: 0 <= k < |pool| ==> k < |m.constPool| && m.constPool[k] == pool[k]
  {
    assert forall k :: 0 <= k < |pool + vals| ==> m.constPool[k] == (pool + vals)[k];
    if 0 <= i < |vals| { assert (pool + vals)[|pool| + i] == vals[i]; }
  }

  /** The literals of a table are appended one by one. */
  method AppendTable(pool: array<i64>, poolLen: nat, vals: seq<i64>) returns (r: Result<nat>)
    requires pool.Length == MAX_CONST_POOL && poolLen <= MAX_CONST_POOL
    modifies pool
    ensures match DeclareTable(old(pool[..poolLen]), vals)
            case Ok(now) => r == Ok(|now|) && pool[..|now|] == now
            case Err(e) => r == Err(e)
  {
    if poolLen + |vals| > 256 { return Err(ConstPoolExceeded); }
    var n := poolLen;
    var i := 0;
    assert vals[..0] == [];
    while i < |vals|
      invariant i <= |vals| && n == poolLen + i <= MAX_CONST_POOL
      invariant pool[..n] == old(pool[..poolLen]) + vals[..i]
    {
      if n >= MAX_CONST_POOL { return Err(ConstPoolFull); }
      pool[n] := vals[i];
      n := n + 1;
      i := i + 1;
    }
    assert vals[..i] == vals;
    r := Ok(n);
  }
}
