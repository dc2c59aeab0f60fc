// The capture, encode and network cores around their two rings: every
// interleaving of their atomic steps, the order in which frames arrive, and
// what the frame counters say.

module Pipeline {
  import opened Words
  import opened Ring

  /** What the encode core does between two polls. */
  datatype Encoder = Polling | Counting(frame: nat) | Forwarding(frame: nat)

  /** `a` is the ring from capture to encode, `b` the one from encode to
      network; items are frame ids. `counting` says that core 1 has pushed a
      frame it has not counted. `origin` records, for every frame pushed to b,
      which capture it was. */
  datatype System = System(
    a: World<nat>, b: World<nat>,
    frameSeq: nat, counting: bool, encoder: Encoder,
    captured: nat, consumed: nat, origin: seq<nat>)

  ghost predicate Sane(s: System) {
    Ring.Sane(s.a) && Ring.Sane(s.b)
  }

  function LastIndex(s: seq<nat>): nat {
    if s == [] then 0 else |s| - 1
  }

  /** Core 1: push the next frame; after a success count it and number the
      next one; after a refusal try again with the same number. */
  ghost function CaptureStep(s: System): (r: System)
    requires Sane(s)
    ensures Sane(r)
  {
    if s.counting then s.(counting := false, captured := s.captured + 1, frameSeq := WrapAdd(s.frameSeq))
    else
      var a := ProducerStep(s.a, s.frameSeq);
      s.(a := a, counting := a.prod.Accepted?)
  }

  /** Core 2: pop, count, push on; a frame the second ring refuses is lost. */
  ghost function EncodeStep(s: System): (r: System)
    requires Sane(s)
    ensures Sane(r)
  {
    match s.encoder
    case Polling =>
      var a := ConsumerStep(s.a);
      s.(a := a, encoder := if a.cons.Popped? then Counting(a.cons.item) else Polling)
    case Counting(f) => s.(consumed := s.consumed + 1, encoder := Forwarding(f))
    case Forwarding(f) =>
      var b := ProducerStep(s.b, f);
      s.(b := b,
         origin := if b.prod.Accepted? then s.origin + [LastIndex(s.a.popped)] else s.origin,
         encoder := if b.prod.Ready? then Polling else Forwarding(f))
  }

  /** Core 3: pop and send. */
  ghost function NetworkStep(s: System): (r: System)
    requires Sane(s)
    ensures Sane(r)
  {
    s.(b := ConsumerStep(s.b))
  }

  datatype Core = Capture | Encode | Network

  ghost function Schedule(s: System, cores: seq<Core>): (r: System)
    requires Sane(s)
    ensures Sane(r)
    decreases |cores|
  {
    if cores == [] then s
    else
      var v := Schedule(s, cores[..|cores| - 1]);
      match cores[|cores| - 1]
      case Capture => CaptureStep(v)
      case Encode => EncodeStep(v)
      case Network => NetworkStep(v)
  }

  ghost function Boot(slots: seq<nat>): (s: System)
    requires |slots| == CAP
    ensures Sane(s)
  {
    System(Start(slots), Start(slots), 0, false, Polling, 0, 0, [])
  }

  // ---- the invariant ---------------------------------------------------------

  function Due(counting: bool): nat { if counting then 1 else 0 }

  /** Frames are numbered in capture order, modulo 2^64. */
  ghost predicate Numbered(s: System) {
    && (forall k :: 0 <= k < |s.a.pushed| ==> s.a.pushed[k] == k % TWO_64)
    && (s.counting ==> s.a.prod.Accepted? && |s.a.pushed| > 0)
    && s.frameSeq == (|s.a.pushed| - Due(s.counting)) % TWO_64
    && (s.a.prod.HeadLoaded? || s.a.prod.TailLoaded? || s.a.prod.SlotWritten? ==> s.a.prod.item == s.frameSeq)
  }

  ghost predicate Counted(s: System) {
    && s.captured + Due(s.counting) == |s.a.pushed|
    && s.consumed + Due(s.encoder.Counting?) == |s.a.popped|
  }

  /** The frame in the encode core's hands is the last one it popped. */
  ghost predicate InHand(s: System) {
    && (s.encoder.Counting? || s.encoder.Forwarding? ==>
      |s.a.popped| > 0 && s.encoder.frame == s.a.popped[|s.a.popped| - 1])
    && (!s.encoder.Forwarding? ==> s.b.prod.Ready?)
    && (s.b.prod.HeadLoaded? || s.b.prod.TailLoaded? || s.b.prod.SlotWritten? ==>
      s.encoder.Forwarding? && s.b.prod.item == s.encoder.frame)
  }

  /** Frames pushed to b are popped frames of a, in order, none twice. */
  ghost predicate Forwarded(s: System) {
    && |s.origin| == |s.b.pushed|
    && (forall j :: 0 <= j < |s.origin| ==> s.origin[j] < |s.a.popped| && s.b.pushed[j] == s.a.popped[s.origin[j]])
    && (forall i, j :: 0 <= i < j < |s.origin| ==> s.origin[i] < s.origin[j])
    && (s.encoder.Counting? || (s.encoder.Forwarding? && !s.b.prod.Accepted?) ==>
      forall j :: 0 <= j < |s.origin| ==> s.origin[j] < |s.a.popped| - 1)
  }

  ghost predicate Steady(s: System) {
    Inv(s.a) && Inv(s.b) && Numbered(s) && Counted(s) && InHand(s) && Forwarded(s)
  }

  lemma ProducerOnly<T>(w: World<T>, item: T)
    requires Ring.Sane(w)
    ensures var r := ProducerStep(w, item);
            && r.popped == w.popped && r.cons == w.cons
            && r.pushed == (if r.prod.Accepted? then w.pushed + [w.prod.item] else w.pushed)
            && (r.prod.Accepted? <==> w.prod.SlotWritten?)
            && (r.prod.HeadLoaded? || r.prod.TailLoaded? || r.prod.SlotWritten? ==>
                  || (w.prod.Ready? && r.prod.item == item)
                  || ((w.prod.HeadLoaded? || w.prod.TailLoaded?) && r.prod.item == w.prod.item))
  {
  }

  lemma ConsumerOnly<T>(w: World<T>)
    requires Ring.Sane(w)
    ensures var r := ConsumerStep(w);
            && r.pushed == w.pushed && r.prod == w.prod
            && r.popped == (if r.cons.Popped? then w.popped + [r.cons.item] else w.popped)
  {
  }

  lemma NextNumber(n: nat)
    ensures WrapAdd(n % TWO_64) == (n + 1) % TWO_64
  {
  }

  lemma CaptureKeeps(s: System)
    requires Steady(s)
    ensures Steady(CaptureStep(s))
  {
    if s.counting {
      NextNumber(|s.a.pushed| - 1);
    } else {
      ProducerKeeps(s.a, s.frameSeq);
      ProducerOnly(s.a, s.frameSeq);
      hide ProducerStep, Inv, Ring.Sane;
    }
  }

  lemma NetworkKeeps(s: System)
    requires Steady(s)
    ensures Steady(NetworkStep(s))
  {
    ConsumerKeeps(s.b);
    ConsumerOnly(s.b);
    hide ConsumerStep, Inv, Ring.Sane;
  }

  lemma EncodeKeeps(s: System)
    requires Steady(s)
    ensures Steady(EncodeStep(s))
  {
    match s.encoder
    case Polling =>
      ConsumerKeeps(s.a);
      ConsumerOnly(s.a);
      hide ConsumerStep, Inv, Ring.Sane;
    case Counting(_) =>
    case Forwarding(f) => ForwardKeeps(s, f);
  }

  lemma ForwardKeeps(s: System, f: nat)
    requires Steady(s) && s.encoder == Forwarding(f)
    ensures Steady(EncodeStep(s))
  {
    ProducerKeeps(s.b, f);
    ProducerOnly(s.b, f);
    FromReady(s.b, f);
    hide ProducerStep, Inv, Ring.Sane;
  }

  /** A push ends before the producer is ready again. */
  lemma FromReady<T>(w: World<T>, item: T)
    requires Ring.Sane(w)
    ensures ProducerStep(w, item).prod.Ready? <==> w.prod.Accepted? || w.prod.Refused?
  {
  }

  lemma {:induction false} ScheduleKeeps(s: System, cores: seq<Core>)
    requires Steady(s)
    ensures Steady(Schedule(s, cores))
    decreases |cores|
  {
    assert Sane(s);
    hide Steady, CaptureStep, EncodeStep, NetworkStep;
    if cores != [] {
      var v := Schedule(s, cores[..|cores| - 1]);
      ScheduleKeeps(s, cores[..|cores| - 1]);
      match cores[|cores| - 1]
      case Capture => CaptureKeeps(v);
      case Encode => EncodeKeeps(v);
      case Network => NetworkKeeps(v);
    }
  }

  // ---- what it means ------------------------------------------------------------

  /** In every interleaving the frames that reach the network are captured
      frames, in capture order and each at most once. */
  lemma FramesArriveInOrder(slots: seq<nat>, cores: seq<Core>)
    requires |slots| == CAP
    ensures var s := Schedule(Boot(slots), cores);
            && |s.origin| >= |s.b.popped|
            && (forall j :: 0 <= j < |s.b.popped| ==>
              s.origin[j] < |s.a.pushed| && s.b.popped[j] == s.a.pushed[s.origin[j]] == s.origin[j] % TWO_64)
            && (forall i, j :: 0 <= i < j < |s.b.popped| ==> s.origin[i] < s.origin[j])
  {
    ScheduleKeeps(Boot(slots), cores);
    var s := Schedule(Boot(slots), cores);
    forall j | 0 <= j < |s.b.popped|
      ensures s.origin[j] < |s.a.pushed| && s.b.popped[j] == s.a.pushed[s.origin[j]] == s.origin[j] % TWO_64
    {
      assert s.b.popped[j] == s.b.pushed[j];
    }
  }

  /** Until 2^64 frames were captured, ids arrive strictly increasing. */
  lemma IdsIncrease(slots: seq<nat>, cores: seq<Core>)
    requires |slots| == CAP && |Schedule(Boot(slots), cores).a.pushed| <= TWO_64
    ensures var s := Schedule(Boot(slots), cores);
            forall i, j :: 0 <= i < j < |s.b.popped| ==> s.b.popped[i] < s.b.popped[j]
  {
    hide Schedule;
    FramesArriveInOrder(slots, cores);
  }

  /** The two counters differ by the first ring's occupancy, up to one frame
      that core 1 and one that core 2 has moved but not counted. */
  lemma CountersMatchRing(slots: seq<nat>, cores: seq<Core>)
    requires |slots| == CAP
    ensures var s := Schedule(Boot(slots), cores);
            && s.captured - s.consumed
               == |s.a.pushed| - |s.a.popped| - Due(s.counting) + Due(s.encoder.Counting?)
            && -1 <= s.captured - s.consumed <= CAP + 1
  {
    ScheduleKeeps(Boot(slots), cores);
  }
}
