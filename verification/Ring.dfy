// The lock-free ring between one producer core and one consumer core: every
// interleaving of their single loads and stores, with indices that wrap at
// 2^64. An index that was loaded may be out of date when it is used.

module Ring {
  import opened Words

  const CAP: nat := 16

  /** `head` and `tail` are 64-bit counters; slots are used modulo CAP. */
  datatype Buffer<T> = Buffer(slots: seq<T>, head: nat, tail: nat)

  /** Where the producer stands in `push`; `seen` is how many items had been
      popped when it loaded the tail. */
  datatype Producer<T> =
    | Ready
    | HeadLoaded(item: T, h: nat)
    | TailLoaded(item: T, h: nat, t: nat, seen: nat)
    | SlotWritten(item: T, h: nat)
    | Accepted
    | Refused

  /** Where the consumer stands in `pop`; `seen` is how many items had been
      pushed when it loaded the head. */
  datatype Consumer<T> =
    | Waiting
    | TailTaken(t: nat)
    | HeadTaken(t: nat, h: nat, seen: nat)
    | SlotRead(t: nat, item: T)
    | Popped(item: T)
    | Empty

  /** The ring, both cores, and all items ever pushed and popped. */
  datatype World<T> = World(
    ring: Buffer<T>, prod: Producer<T>, cons: Consumer<T>, pushed: seq<T>, popped: seq<T>)

  function WrapAdd(x: nat): nat { (x + 1) % TWO_64 }

  function WrapSub(x: nat, y: nat): (d: nat)
    requires x < TWO_64 && y < TWO_64
    ensures d < TWO_64
  {
    (x - y) % TWO_64
  }

  ghost predicate Sane<T>(w: World<T>) {
    && |w.ring.slots| == CAP && w.ring.head < TWO_64 && w.ring.tail < TWO_64
    && (w.prod.HeadLoaded? || w.prod.TailLoaded? || w.prod.SlotWritten? ==> w.prod.h < TWO_64)
    && (w.prod.TailLoaded? ==> w.prod.t < TWO_64)
    && (w.cons.TailTaken? || w.cons.HeadTaken? || w.cons.SlotRead? ==> w.cons.t < TWO_64)
  }

  /** The producer's next atomic step; `item` is what it pushes when ready. */
  ghost function ProducerStep<T>(w: World<T>, item: T): (r: World<T>)
    requires Sane(w)
    ensures Sane(r)
  {
    match w.prod
    case Ready => w.(prod := HeadLoaded(item, w.ring.head))
    case HeadLoaded(i, h) => w.(prod := TailLoaded(i, h, w.ring.tail, |w.popped|))
    case TailLoaded(i, h, t, _) =>
      if WrapSub(h, t) >= CAP then w.(prod := Refused)
      else w.(prod := SlotWritten(i, h), ring := w.ring.(slots := w.ring.slots[h % CAP := i]))
    case SlotWritten(i, h) =>
      w.(prod := Accepted, ring := w.ring.(head := WrapAdd(h)), pushed := w.pushed + [i])
    case _ => w.(prod := Ready)
  }

  ghost function ConsumerStep<T>(w: World<T>): (r: World<T>)
    requires Sane(w)
    ensures Sane(r)
  {
    match w.cons
    case Waiting => w.(cons := TailTaken(w.ring.tail))
    case TailTaken(t) => w.(cons := HeadTaken(t, w.ring.head, |w.pushed|))
    case HeadTaken(t, h, _) =>
      if t == h then w.(cons := Empty) else w.(cons := SlotRead(t, w.ring.slots[t % CAP]))
    case SlotRead(t, i) =>
      w.(cons := Popped(i), ring := w.ring.(tail := WrapAdd(t)), popped := w.popped + [i])
    case _ => w.(cons := Waiting)
  }

  // ---- the invariant -----------------------------------------------------------

  ghost predicate InOrder<T>(w: World<T>) {
    && |w.ring.slots| == CAP && |w.popped| <= |w.pushed| <= |w.popped| + CAP
    && (forall k :: 0 <= k < |w.popped| ==> w.popped[k] == w.pushed[k])
    && w.ring.head == |w.pushed| % TWO_64 && w.ring.tail == |w.popped| % TWO_64
    && (forall k :: |w.popped| <= k < |w.pushed| ==> w.ring.slots[k % CAP] == w.pushed[k])
  }

  ghost predicate ProducerKnows<T>(w: World<T>) {
    match w.prod
    case HeadLoaded(_, h) => h == w.ring.head
    case TailLoaded(_, h, t, seen) =>
      h == w.ring.head && t == seen % TWO_64 && seen <= |w.popped| && |w.pushed| <= seen + CAP
    case SlotWritten(i, h) =>
      h == w.ring.head && |w.pushed| < |w.popped| + CAP && |w.ring.slots| == CAP && w.ring.slots[h % CAP] == i
    case _ => true
  }

  ghost predicate ConsumerKnows<T>(w: World<T>) {
    match w.cons
    case TailTaken(t) => t == w.ring.tail
    case HeadTaken(t, h, seen) =>
      t == w.ring.tail && h == seen % TWO_64 && |w.popped| <= seen <= |w.pushed|
    case SlotRead(t, i) =>
      t == w.ring.tail && |w.popped| < |w.pushed| && i == w.pushed[|w.popped|]
    case _ => true
  }

  ghost predicate Inv<T>(w: World<T>) {
    Sane(w) && InOrder(w) && ProducerKnows(w) && ConsumerKnows(w)
  }

  ghost function Start<T>(slots: seq<T>): (w: World<T>)
    requires |slots| == CAP
    ensures Inv(w)
  {
    World(Buffer(slots, 0, 0), Ready, Waiting, [], [])
  }

  // ---- arithmetic of wrapped indices -----------------------------------------

  lemma SlotOfIndex(n: nat)
    ensures n % TWO_64 % CAP == n % CAP
  {
    var q := n / TWO_64;
    assert n == TWO_64 * q + n % TWO_64;
    assert TWO_64 * q == CAP * (q * 0x1000_0000_0000_0000);
    ModShift(n % TWO_64, q * 0x1000_0000_0000_0000);
  }

  lemma ModShift(a: nat, m: nat)
    ensures (CAP * m + a) % CAP == a % CAP
  {
  }

  /** Nearby counts keep their distance modulo 2^64. */
  lemma Distance(a: nat, b: nat)
    requires b <= a <= b + CAP
    ensures WrapSub(a % TWO_64, b % TWO_64) == a - b
    ensures a % TWO_64 == b % TWO_64 <==> a == b
  {
    var qa, qb := a / TWO_64, b / TWO_64;
    assert a == TWO_64 * qa + a % TWO_64 && b == TWO_64 * qb + b % TWO_64;
    assert a % TWO_64 - b % TWO_64 == a - b - TWO_64 * (qa - qb);
  }

  /** Two different counts less than CAP apart use different slots. */
  lemma SlotsDiffer(j: nat, k: nat)
    requires j < k < j + CAP
    ensures j % CAP != k % CAP
  {
  }

  lemma WrapAddIsNext(n: nat)
    ensures WrapAdd(n % TWO_64) == (n + 1) % TWO_64
  {
  }

  // ---- every step keeps it ------------------------------------------------

  lemma ProducerKeeps<T>(w: World<T>, item: T)
    requires Inv(w)
    ensures Inv(ProducerStep(w, item))
  {
    var n := |w.pushed|;
    match w.prod
    case TailLoaded(i, h, t, seen) =>
      Distance(n, seen);
      SlotOfIndex(n);
      forall k | |w.popped| <= k < n && WrapSub(h, t) < CAP ensures k % CAP != h % CAP { SlotsDiffer(k, n); }
    case SlotWritten(i, h) =>
      WrapAddIsNext(n);
      SlotOfIndex(n);
    case _ =>
  }

  lemma ConsumerKeeps<T>(w: World<T>)
    requires Inv(w)
    ensures Inv(ConsumerStep(w))
  {
    var n := |w.popped|;
    match w.cons
    case HeadTaken(t, h, seen) =>
      Distance(seen, n);
      SlotOfIndex(n);
    case SlotRead(t, i) => WrapAddIsNext(n);
    case _ =>
  }

  // ---- every run --------------------------------------------------------------

  /** Which core moves next, and what the producer would push. */
  datatype Move<T> = Produce(item: T) | Consume

  ghost function Run<T>(w: World<T>, moves: seq<Move<T>>): (r: World<T>)
    requires Sane(w)
    ensures Sane(r)
    decreases |moves|
  {
    if moves == [] then w
    else
      var last := moves[|moves| - 1];
      var v := Run(w, moves[..|moves| - 1]);
      match last
      case Produce(item) => ProducerStep(v, item)
      case Consume => ConsumerStep(v)
  }

  lemma {:induction false} RunKeeps<T>(w: World<T>, moves: seq<Move<T>>)
    requires Inv(w)
    ensures Inv(Run(w, moves))
    decreases |moves|
  {
    assert Sane(w);
    hide Inv, Sane, ProducerStep, ConsumerStep;
    if moves != [] {
      var v := Run(w, moves[..|moves| - 1]);
      RunKeeps(w, moves[..|moves| - 1]);
      match moves[|moves| - 1]
      case Produce(item) => ProducerKeeps(v, item);
      case Consume => ConsumerKeeps(v);
    }
  }

  /** Safety under every interleaving: what was popped is a prefix of what was
      pushed, in order, and the ring holds between 0 and CAP items. */
  lemma FirstInFirstOut<T>(slots: seq<T>, moves: seq<Move<T>>)
    requires |slots| == CAP
    ensures var w := Run(Start(slots), moves);
            w.popped <= w.pushed && 0 <= |w.pushed| - |w.popped| <= CAP
  {
    RunKeeps(Start(slots), moves);
    var w := Run(Start(slots), moves);
    assert w.pushed[..|w.popped|] == w.popped;
  }

  /** When the producer writes a slot, no unpopped item lies in it. */
  lemma WriteHitsFreeSlot<T>(w: World<T>, item: T, k: nat)
    requires Inv(w) && w.prod.TailLoaded? && ProducerStep(w, item).prod.SlotWritten?
    requires |w.popped| <= k < |w.pushed|
    ensures ProducerStep(w, item).ring.slots[k % CAP] == w.pushed[k]
  {
    ProducerKeeps(w, item);
  }

  /** A push is refused exactly if the ring was full when its tail was loaded. */
  lemma RefusedIffFull<T>(w: World<T>, item: T)
    requires Inv(w) && w.prod.TailLoaded?
    ensures ProducerStep(w, item).prod.Refused? <==> |w.pushed| - w.prod.seen == CAP
  {
    Distance(|w.pushed|, w.prod.seen);
  }

  /** A pop finds nothing exactly if the ring was empty when its head was loaded. */
  lemma EmptyIffNothing<T>(w: World<T>)
    requires Inv(w) && w.cons.HeadTaken?
    ensures ConsumerStep(w).cons.Empty? <==> w.cons.seen == |w.popped|
  {
    Distance(w.cons.seen, |w.popped|);
  }

  // ---- len ------------------------------------------------------------------

  /** `len` on two loaded indices. */
  function Len(head: nat, tail: nat): (n: nat)
    ensures n <= CAP
  {
    if head >= tail then (if head - tail <= CAP then head - tail else CAP) else 0
  }

  /** `len` loads the head in w and the tail later in v: it reports the items
      pushed before the first load and not popped before the second. */
  lemma LenReports<T>(w: World<T>, moves: seq<Move<T>>)
    requires Inv(w) && |Run(w, moves).popped| / TWO_64 == |w.pushed| / TWO_64
    ensures var v := Run(w, moves);
            Len(w.ring.head, v.ring.tail) == if |v.popped| <= |w.pushed| then |w.pushed| - |v.popped| else 0
  {
    var v := Run(w, moves);
    RunKeeps(w, moves);
    RunGrows(w, moves);
    var q := |w.pushed| / TWO_64;
    assert |w.pushed| == TWO_64 * q + w.ring.head && |v.popped| == TWO_64 * q + v.ring.tail;
  }

  /** Loaded together, the two indices give the occupancy exactly if the head
      has not wrapped below the tail. */
  lemma LenExact<T>(w: World<T>)
    requires Inv(w)
    ensures Len(w.ring.head, w.ring.tail) == |w.pushed| - |w.popped| <==> w.ring.head >= w.ring.tail
  {
    var p, c := |w.pushed| / TWO_64, |w.popped| / TWO_64;
    assert |w.pushed| == TWO_64 * p + w.ring.head && |w.popped| == TWO_64 * c + w.ring.tail;
    Distance(|w.pushed|, |w.popped|);
  }

  lemma {:induction false} RunGrows<T>(w: World<T>, moves: seq<Move<T>>)
    requires Sane(w)
    ensures w.pushed <= Run(w, moves).pushed && w.popped <= Run(w, moves).popped
    decreases |moves|
  {
    if moves != [] { RunGrows(w, moves[..|moves| - 1]); }
  }

  // ---- a run in which `len` misses an item ----------------------------------

  lemma RunSnoc<T>(w: World<T>, moves: seq<Move<T>>, next: Move<T>)
    requires Sane(w)
    ensures Run(w, moves + [next])
         == if next.Produce? then ProducerStep(Run(w, moves), next.item) else ConsumerStep(Run(w, moves))
  {
    hide ProducerStep, ConsumerStep;
    assert (moves + [next])[..|moves|] == moves;
  }

  /** Both cores are between two calls. */
  ghost predicate Idle<T>(w: World<T>) {
    Inv(w) && w.prod.Ready? && w.cons.Waiting?
  }

  /** Five moves of the producer alone push an item into a ring with room. */
  lemma PushOnce<T>(w: World<T>, moves: seq<Move<T>>, item: T) returns (more: seq<Move<T>>)
    requires Sane(w) && Idle(Run(w, moves)) && |Run(w, moves).pushed| < |Run(w, moves).popped| + CAP
    ensures Idle(Run(w, more)) && Run(w, more).popped == Run(w, moves).popped
    ensures Run(w, more).pushed == Run(w, moves).pushed + [item]
  {
    hide Run;
    var v := Run(w, moves);
    Distance(|v.pushed|, |v.popped|);
    more := moves;
    for i := 0 to 5
      invariant Inv(Run(w, more)) && Run(w, more).cons.Waiting? && Run(w, more).popped == v.popped
      invariant Run(w, more).pushed == if i >= 4 then v.pushed + [item] else v.pushed
      invariant i == 0 || i == 5 ==> Run(w, more).prod.Ready?
      invariant i == 1 ==> Run(w, more).prod.HeadLoaded? && Run(w, more).prod.item == item
      invariant i == 2 ==> Run(w, more).prod.TailLoaded? && Run(w, more).prod.item == item
                           && Run(w, more).prod.t == v.ring.tail && Run(w, more).prod.h == v.ring.head
      invariant i == 3 ==> Run(w, more).prod.SlotWritten? && Run(w, more).prod.item == item
      invariant i == 4 ==> Run(w, more).prod.Accepted?
      invariant i <= 3 ==> Run(w, more).ring.head == v.ring.head && Run(w, more).ring.tail == v.ring.tail
    {
      RunSnoc(w, more, Produce(item));
      ProducerKeeps(Run(w, more), item);
      more := more + [Produce(item)];
    }
  }

  /** Five moves of the consumer alone pop an item from a ring that has one. */
  lemma PopOnce<T>(w: World<T>, moves: seq<Move<T>>) returns (more: seq<Move<T>>)
    requires Sane(w) && Idle(Run(w, moves)) && |Run(w, moves).popped| < |Run(w, moves).pushed|
    ensures Idle(Run(w, more)) && Run(w, more).pushed == Run(w, moves).pushed
    ensures |Run(w, more).popped| == |Run(w, moves).popped| + 1
  {
    hide Run;
    var v := Run(w, moves);
    Distance(|v.pushed|, |v.popped|);
    more := moves;
    for i := 0 to 5
      invariant Inv(Run(w, more)) && Run(w, more).prod.Ready? && Run(w, more).pushed == v.pushed
      invariant |Run(w, more).popped| == |v.popped| + if i >= 4 then 1 else 0
      invariant i == 0 || i == 5 ==> Run(w, more).cons.Waiting?
      invariant i == 1 ==> Run(w, more).cons.TailTaken?
      invariant i == 2 ==> Run(w, more).cons.HeadTaken? && Run(w, more).cons.h == v.ring.head
                           && Run(w, more).cons.t == v.ring.tail
      invariant i == 3 ==> Run(w, more).cons.SlotRead?
      invariant i == 4 ==> Run(w, more).cons.Popped?
      invariant i <= 3 ==> Run(w, more).ring.head == v.ring.head && Run(w, more).ring.tail == v.ring.tail
    {
      RunSnoc(w, more, Consume);
      ConsumerKeeps(Run(w, more));
      more := more + [Consume];
    }
  }

  /** n items pushed and popped one by one. */
  lemma {:induction false} Cycles<T>(slots: seq<T>, item: T, n: nat) returns (moves: seq<Move<T>>)
    requires |slots| == CAP
    ensures var w := Run(Start(slots), moves);
            Idle(w) && |w.pushed| == |w.popped| == n
    decreases n
  {
    moves := [];
    if n > 0 {
      moves := Cycles(slots, item, n - 1);
      moves := PushOnce(Start(slots), moves, item);
      moves := PopOnce(Start(slots), moves);
    }
  }

  /** From the empty ring, 2^64 pushes and one pop less lead to a state in which
      `len` misses the item in the ring. */
  lemma LenMissesItem<T>(slots: seq<T>, item: T) returns (moves: seq<Move<T>>)
    requires |slots| == CAP
    ensures var w := Run(Start(slots), moves);
            |w.pushed| - |w.popped| == 1 && Len(w.ring.head, w.ring.tail) == 0
  {
    moves := Cycles(slots, item, TWO_64 - 1);
    moves := PushOnce(Start(slots), moves, item);
  }

  // ---- the ring object, one call at a time ----------------------------------

  class SpscRingBuffer<T> {
    const buffer: array<T>
    var head: nat
    var tail: nat
    ghost var pushed: seq<T>
    ghost var popped: seq<T>

    ghost function Value(): World<T>
      reads this, buffer
    {
      World(Buffer(buffer[..], head, tail), Ready, Waiting, pushed, popped)
    }

    ghost predicate Valid()
      reads this, buffer
    {
      Inv(Value())
    }

    constructor (val: T)
      ensures Valid() && pushed == popped == [] && fresh(buffer)
    {
      buffer := new T[CAP](_ => val);
      head, tail := 0, 0;
      pushed, popped := [], [];
    }

    /** Called by the producer core only. */
    method Push(item: T) returns (ok: bool)
      requires Valid()
      modifies this`head, this`pushed, buffer
      ensures Valid() && ok == (|old(pushed)| - |popped| < CAP)
      ensures pushed == if ok then old(pushed) + [item] else old(pushed)
    {
      ghost var w1 := ProducerStep(Value(), item);
      ghost var w2 := ProducerStep(w1, item);
      ghost var w3 := ProducerStep(w2, item);
      ProducerKeeps(Value(), item);
      ProducerKeeps(w1, item);
      ProducerKeeps(w2, item);
      ProducerKeeps(w3, item);
      RefusedIffFull(w2, item);
      if WrapSub(head, tail) >= CAP { return false; }
      buffer[head % CAP] := item;
      assert buffer[..] == w3.ring.slots;
      head := WrapAdd(head);
      pushed := pushed + [item];
      ok := true;
    }

    /** Called by the consumer core only. */
    method Pop(default: T) returns (ok: bool, item: T)
      requires Valid()
      modifies this`tail, this`popped
      ensures Valid() && ok == (|pushed| > |old(popped)|)
      ensures if ok then item == pushed[|old(popped)|] && popped == old(popped) + [item] else popped == old(popped)
    {
      ghost var w1 := ConsumerStep(Value());
      ghost var w2 := ConsumerStep(w1);
      ghost var w3 := ConsumerStep(w2);
      ConsumerKeeps(Value());
      ConsumerKeeps(w1);
      ConsumerKeeps(w2);
      ConsumerKeeps(w3);
      EmptyIffNothing(w2);
      if tail == head { return false, default; }
      item := buffer[tail % CAP];
      tail := WrapAdd(tail);
      popped := popped + [item];
      ok := true;
    }
  }
}
