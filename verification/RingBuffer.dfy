// The single-producer/single-consumer sample ring of voip/ring_buffer.h.
//
// RingIndex     the size_t index arithmetic, modulo 2^64
// RingProtocol  push and pop as interleaved micro-steps: one shared access per step
// SampleRing    the class itself; its two methods are runs of those micro-steps

module RingIndex {
  /** One more than the largest size_t. */
  const WORD := 0x1_0000_0000_0000_0000

  type Capacity = c: nat | 0 < c witness 1

  /** Reduction of a size_t expression. */
  function Wrap(x: int): (r: nat)
    ensures r < WORD
  {
    x % WORD
  }

  /** (head - tail + capacity) % capacity, as size_t arithmetic evaluates it. */
  function Used(head: nat, tail: nat, capacity: Capacity): (r: nat)
    ensures r < capacity
  {
    Wrap(Wrap(head - tail) + capacity) % capacity
  }

  /** capacity - 1 - Used. */
  function Free(head: nat, tail: nat, capacity: Capacity): nat
  {
    Wrap(Wrap(capacity - 1) - Used(head, tail, capacity))
  }

  /** (base + i) % capacity. */
  function Slot(base: nat, i: nat, capacity: Capacity): (r: nat)
    ensures r < capacity
  {
    Wrap(base + i) % capacity
  }

  /** The slot that the j-th sample of the whole stream occupies. */
  function Home(j: nat, capacity: Capacity): (r: nat)
    ensures r < capacity
  {
    j % capacity
  }

  lemma NoSmallMultiple(q: int, m: int)
    requires 0 < m
    ensures q * m <= -m || q * m == 0 || m <= q * m
  {
    if q >= 1 {
      assert (q - 1) * m >= 0;
    } else if q <= -1 {
      assert (q + 1) * m <= 0;
    }
  }

  lemma ModUnique(a: int, q: int, r: int, m: int)
    requires 0 < m && 0 <= r < m && a == q * m + r
    ensures a % m == r
  {
    NoSmallMultiple(a / m - q, m);
    assert (a / m - q) * m == a / m * m - q * m;
  }

  /** Reducing before adding does not change the slot. */
  lemma HomeShift(j: nat, i: nat, capacity: Capacity)
    ensures (j % capacity + i) % capacity == Home(j + i, capacity)
  {
    var q := j / capacity;
    var x := j % capacity + i;
    ModUnique(j + i, q + x / capacity, x % capacity, capacity);
  }

  lemma SlotExact(j: nat, i: nat, capacity: Capacity)
    requires capacity <= WORD / 2 && i < capacity
    ensures Slot(Home(j, capacity), i, capacity) == Home(j + i, capacity)
  {
    HomeShift(j, i, capacity);
  }

  /** Samples less than one lap apart never share a slot. */
  lemma HomesDiffer(a: nat, b: nat, capacity: Capacity)
    requires a < b < a + capacity
    ensures Home(a, capacity) != Home(b, capacity)
  {
    var d := b / capacity - a / capacity;
    NoSmallMultiple(d, capacity);
    assert d * capacity == b / capacity * capacity - a / capacity * capacity;
  }

  lemma WrapSmall(x: nat)
    requires x < WORD
    ensures Wrap(x) == x
  {
  }

  lemma WrapCancels(h: nat, t: nat, capacity: Capacity)
    requires h < capacity && t < capacity && capacity <= WORD / 2
    ensures Wrap(Wrap(h - t) + capacity) == h - t + capacity
  {
  }

  lemma IndexDifference(r: nat, w: nat, m: nat)
    requires 0 < m && r <= w < r + m
    ensures (w % m - r % m + m) % m == w - r
  {
    var q := r / m - w / m + 1;
    assert q * m == r / m * m - w / m * m + m;
    ModUnique(w % m - r % m + m, q, w - r, m);
  }

  /** Up to a capacity of 2^63 the modulo-2^64 expressions give the exact used and free counts of a
      ring into which w samples were written and from which r were read. */
  lemma CountsExact(r: nat, w: nat, capacity: Capacity)
    requires capacity <= WORD / 2 && r <= w < r + capacity
    ensures Used(Home(w, capacity), Home(r, capacity), capacity) == w - r
    ensures Free(Home(w, capacity), Home(r, capacity), capacity) == capacity - 1 - (w - r)
  {
    WrapCancels(Home(w, capacity), Home(r, capacity), capacity);
    IndexDifference(r, w, capacity);
    assert Used(Home(w, capacity), Home(r, capacity), capacity) == w - r;
    WrapSmall(capacity - 1);
    WrapSmall(capacity - 1 - (w - r));
  }

  lemma CountExactBelowLimit(h: nat, t: nat, capacity: Capacity)
    requires capacity <= WORD / 2 && h < capacity && t < capacity
    ensures Used(h, t, capacity) == (h - t) % capacity
  {
    var d := h - t + capacity;
    WrapCancels(h, t, capacity);
    assert (d / capacity - 1) * capacity == d / capacity * capacity - capacity;
    ModUnique(h - t, d / capacity - 1, d % capacity, capacity);
  }

  lemma CountWrongAboveLimit(capacity: Capacity)
    requires WORD / 2 < capacity < WORD
    ensures Used(capacity - 1, 0, capacity) == 2 * capacity - 1 - WORD < capacity - 1
  {
    var r := 2 * capacity - 1 - WORD;
    assert Wrap(Wrap(capacity - 1 - 0) + capacity) == r;
    ModUnique(r, 0, r, capacity);
  }

  /** 2^63 is exactly where the expression starts to lie for some pair of indices. */
  lemma CountsExactIffCapacityFits(capacity: Capacity)
    requires capacity < WORD
    ensures (forall h: nat, t: nat | h < capacity && t < capacity :: Used(h, t, capacity) == (h - t) % capacity)
            <==> capacity <= WORD / 2
  {
    if capacity <= WORD / 2 {
      forall h: nat, t: nat | h < capacity && t < capacity
        ensures Used(h, t, capacity) == (h - t) % capacity
      {
        CountExactBelowLimit(h, t, capacity);
      }
    } else {
      CountWrongAboveLimit(capacity);
      ModUnique(capacity - 1 - 0, 0, capacity - 1, capacity);
    }
  }
}

module RingProtocol {
  import opened Bytes
  import opened RingIndex

  type Sample = x: int | -0x8000 <= x < 0x8000

  /** Where the producer thread stands inside push. */
  datatype Producer =
    | ProducerIdle
    | HeadLoaded(data: seq<Sample>, head: nat)
    | Writing(data: seq<Sample>, head: nat, n: nat, i: nat)

  /** Where the consumer thread stands inside pop; out is the caller's buffer so far, and waiting is
      how many samples were in the queue when the head was loaded, which pop itself does not know. */
  datatype Consumer =
    | ConsumerIdle
    | HeadSeen(want: nat, head: nat, waiting: nat)
    | Reading(want: nat, tail: nat, n: nat, out: seq<Sample>, waiting: nat)

  /** accepted and delivered are the histories of published and of consumed samples. */
  datatype State = State(
    capacity: Capacity, buffer: seq<Sample>, head: nat, tail: nat, p: Producer, c: Consumer,
    accepted: seq<Sample>, delivered: seq<Sample>)

  /** Each step makes one access to shared memory. */
  datatype Step =
    | BeginPush(data: seq<Sample>) | LoadTail | WriteSlot | PublishHead
    | BeginPop(want: nat) | LoadOwnTail | ReadSlot | PadSilence | PublishTail

  predicate Init(s: State) {
    && s.capacity <= WORD / 2 && |s.buffer| == s.capacity
    && s.head == s.tail == 0 && s.p.ProducerIdle? && s.c.ConsumerIdle?
    && s.accepted == s.delivered == []
  }

  predicate Enabled(s: State, step: Step)
  {
    match step
    case BeginPush(_) => s.p.ProducerIdle?
    case LoadTail => s.p.HeadLoaded?
    case WriteSlot => s.p.Writing? && s.p.i < s.p.n && s.p.i < |s.p.data| && Slot(s.p.head, s.p.i, s.capacity) < |s.buffer|
    case PublishHead => s.p.Writing? && s.p.i == s.p.n <= |s.p.data|
    case BeginPop(_) => s.c.ConsumerIdle?
    case LoadOwnTail => s.c.HeadSeen?
    case ReadSlot => s.c.Reading? && |s.c.out| < s.c.n && Slot(s.c.tail, |s.c.out|, s.capacity) < |s.buffer|
    case PadSilence => s.c.Reading? && s.c.n <= |s.c.out| < s.c.want
    case PublishTail => s.c.Reading? && s.c.n <= |s.c.out| == s.c.want
  }

  /** How many samples are accepted and not yet delivered. */
  function Waiting(s: State): nat {
    if |s.delivered| <= |s.accepted| then |s.accepted| - |s.delivered| else 0
  }

  function Apply(s: State, step: Step): State
    requires Enabled(s, step)
  {
    match step
    case BeginPush(data) => s.(p := HeadLoaded(data, s.head))
    case LoadTail =>
      var n := Min(|s.p.data|, Free(s.p.head, s.tail, s.capacity));
      s.(p := if n == 0 then ProducerIdle else Writing(s.p.data, s.p.head, n, 0))
    case WriteSlot =>
      s.(buffer := s.buffer[Slot(s.p.head, s.p.i, s.capacity) := s.p.data[s.p.i]],
         p := s.p.(i := s.p.i + 1))
    case PublishHead =>
      s.(head := Slot(s.p.head, s.p.n, s.capacity), p := ProducerIdle,
         accepted := s.accepted + s.p.data[..s.p.n])
    case BeginPop(want) => s.(c := HeadSeen(want, s.head, Waiting(s)))
    case LoadOwnTail =>
      s.(c := Reading(s.c.want, s.tail, Min(s.c.want, Used(s.c.head, s.tail, s.capacity)), [], s.c.waiting))
    case ReadSlot =>
      s.(c := s.c.(out := s.c.out + [s.buffer[Slot(s.c.tail, |s.c.out|, s.capacity)]]))
    case PadSilence => s.(c := s.c.(out := s.c.out + [0]))
    case PublishTail =>
      s.(tail := Slot(s.c.tail, s.c.n, s.capacity), c := ConsumerIdle,
         delivered := s.delivered + s.c.out[..s.c.n])
  }

  /** The samples accepted and not yet delivered, oldest first. */
  function Queue(s: State): seq<Sample>
    requires |s.delivered| <= |s.accepted|
  {
    s.accepted[|s.delivered|..]
  }

  ghost predicate IndicesOk(s: State) {
    && s.capacity <= WORD / 2 && |s.buffer| == s.capacity
    && |s.delivered| <= |s.accepted| < |s.delivered| + s.capacity
    && s.head == Home(|s.accepted|, s.capacity)
    && s.tail == Home(|s.delivered|, s.capacity)
  }

  ghost predicate ContentsOk(s: State)
    requires IndicesOk(s)
  {
    && s.delivered == s.accepted[..|s.delivered|]
    && forall j | |s.delivered| <= j < |s.accepted| :: s.buffer[Home(j, s.capacity)] == s.accepted[j]
  }

  /** A stale tail only underestimates the free space, a stale head the used space. */
  ghost predicate ProducerOk(s: State)
    requires IndicesOk(s)
  {
    match s.p
    case ProducerIdle => true
    case HeadLoaded(_, h) => h == s.head
    case Writing(data, h, n, i) =>
      && h == s.head && i <= n <= |data| && 0 < n
      && |s.accepted| + n < |s.delivered| + s.capacity
      && forall j | 0 <= j < i :: s.buffer[Home(|s.accepted| + j, s.capacity)] == data[j]
  }

  ghost predicate ConsumerOk(s: State)
    requires IndicesOk(s)
  {
    match s.c
    case ConsumerIdle => true
    case HeadSeen(_, h, waiting) => Used(h, s.tail, s.capacity) == waiting <= |s.accepted| - |s.delivered|
    case Reading(want, t, n, out, waiting) =>
      && t == s.tail && n == Min(want, waiting) && |out| <= want
      && |s.delivered| + n <= |s.accepted|
      && (forall j | 0 <= j < |out| && j < n :: out[j] == s.accepted[|s.delivered| + j])
      && (forall j | n <= j < |out| :: out[j] == 0)
  }

  ghost predicate Inv(s: State) {
    IndicesOk(s) && ContentsOk(s) && ProducerOk(s) && ConsumerOk(s)
  }

  lemma WriteKeepsInv(s: State)
    requires Inv(s) && Enabled(s, WriteSlot)
    ensures Inv(Apply(s, WriteSlot))
  {
    var w, i := |s.accepted|, s.p.i;
    SlotExact(w, i, s.capacity);
    forall j | |s.delivered| <= j < w + i
      ensures Home(j, s.capacity) != Home(w + i, s.capacity)
    {
      HomesDiffer(j, w + i, s.capacity);
    }
  }

  lemma PublishHeadKeepsInv(s: State)
    requires Inv(s) && Enabled(s, PublishHead)
    ensures Inv(Apply(s, PublishHead))
  {
    hide Used, Free, Home, Slot;
    var t := Apply(s, PublishHead);
    var w, n := |s.accepted|, s.p.n;
    SlotExact(w, n, s.capacity);
    forall j | |t.delivered| <= j < |t.accepted|
      ensures t.buffer[Home(j, t.capacity)] == t.accepted[j]
    {
      if j >= w {
        assert s.buffer[Home(w + (j - w), s.capacity)] == s.p.data[j - w];
      }
    }
  }

  lemma ReadKeepsInv(s: State)
    requires Inv(s) && Enabled(s, ReadSlot)
    ensures Inv(Apply(s, ReadSlot))
  {
    SlotExact(|s.delivered|, |s.c.out|, s.capacity);
    assert s.accepted[|s.delivered| + |s.c.out|] == s.buffer[Home(|s.delivered| + |s.c.out|, s.capacity)];
  }

  lemma PublishTailKeepsInv(s: State)
    requires Inv(s) && Enabled(s, PublishTail)
    ensures Inv(Apply(s, PublishTail))
  {
    SlotExact(|s.delivered|, s.c.n, s.capacity);
    assert s.c.out[..s.c.n] == s.accepted[|s.delivered|..|s.delivered| + s.c.n];
  }

  lemma LoadKeepsInv(s: State, step: Step)
    requires step.LoadTail? || step.BeginPop? || step.LoadOwnTail?
    requires Inv(s) && Enabled(s, step)
    ensures Inv(Apply(s, step))
  {
    CountsExact(|s.delivered|, |s.accepted|, s.capacity);
  }

  lemma StepKeepsInv(s: State, step: Step)
    requires Inv(s) && Enabled(s, step)
    ensures Inv(Apply(s, step))
  {
    match step
    case WriteSlot => WriteKeepsInv(s);
    case PublishHead => PublishHeadKeepsInv(s);
    case ReadSlot => ReadKeepsInv(s);
    case PublishTail => PublishTailKeepsInv(s);
    case LoadTail => LoadKeepsInv(s, step);
    case BeginPop(_) => LoadKeepsInv(s, step);
    case LoadOwnTail => LoadKeepsInv(s, step);
    case BeginPush(_) =>
    case PadSilence =>
  }

  /** t is reached from s by the steps, in any interleaving of the two threads. */
  ghost predicate Run(s: State, steps: seq<Step>, t: State)
    decreases |steps|
  {
    if steps == [] then s == t
    else Enabled(s, steps[0]) && Run(Apply(s, steps[0]), steps[1..], t)
  }

  lemma {:induction false} RunKeepsInv(s: State, steps: seq<Step>, t: State)
    requires Inv(s) && Run(s, steps, t)
    ensures Inv(t)
    decreases |steps|
  {
    if steps != [] {
      StepKeepsInv(s, steps[0]);
      RunKeepsInv(Apply(s, steps[0]), steps[1..], t);
    }
  }

  lemma {:induction false} RunExtends(s: State, steps: seq<Step>, t: State, step: Step)
    requires Run(s, steps, t) && Enabled(t, step)
    ensures Run(s, steps + [step], Apply(t, step))
    decreases |steps|
  {
    if steps == [] {
      assert Run(Apply(s, step), [], Apply(t, step));
      assert [step][1..] == [];
    } else {
      RunExtends(Apply(s, steps[0]), steps[1..], t, step);
      assert (steps + [step])[1..] == steps[1..] + [step];
    }
  }

  ghost predicate Reachable(t: State) {
    exists s, steps :: Init(s) && Run(s, steps, t)
  }

  lemma ReachableInv(t: State)
    requires Reachable(t)
    ensures Inv(t)
  {
    var s, steps :| Init(s) && Run(s, steps, t);
    RunKeepsInv(s, steps, t);
  }

  /** FIFO delivery without loss, duplication or invention, in every interleaving: what was accepted
      is what was delivered followed by what the slots from tail to head hold. */
  lemma DeliveredInOrder(t: State)
    requires Reachable(t)
    ensures t.delivered <= t.accepted && |t.buffer| == t.capacity
    ensures |t.accepted| == |t.delivered| + Used(t.head, t.tail, t.capacity)
    ensures forall i | 0 <= i < Used(t.head, t.tail, t.capacity) ::
              t.accepted[|t.delivered| + i] == t.buffer[Slot(t.tail, i, t.capacity)]
  {
    ReachableInv(t);
    CountsExact(|t.delivered|, |t.accepted|, t.capacity);
    forall i | 0 <= i < |t.accepted| - |t.delivered|
      ensures t.accepted[|t.delivered| + i] == t.buffer[Slot(t.tail, i, t.capacity)]
    {
      SlotExact(|t.delivered|, i, t.capacity);
      assert t.accepted[|t.delivered| + i] == t.buffer[Home(|t.delivered| + i, t.capacity)];
    }
  }

  /** While both threads copy, no slot of the one range is a slot of the other. */
  lemma CopiesNeverOverlap(t: State, a: nat, b: nat)
    requires Reachable(t)
    requires t.p.Writing? && t.c.Reading? && a < t.p.n && b < t.c.n
    ensures Slot(t.p.head, a, t.capacity) != Slot(t.c.tail, b, t.capacity)
  {
    ReachableInv(t);
    SlotExact(|t.accepted|, a, t.capacity);
    SlotExact(|t.delivered|, b, t.capacity);
    HomesDiffer(|t.delivered| + b, |t.accepted| + a, t.capacity);
  }

  /** A push keeps the first samples that fit: it drops one only when the ring holds capacity - 1. */
  lemma TruncatesOnlyWhenFull(t: State)
    requires Reachable(t) && t.p.HeadLoaded?
    ensures |t.delivered| <= |t.accepted| < |t.delivered| + t.capacity
    ensures var n := Min(|t.p.data|, t.capacity - 1 - |Queue(t)|);
            Apply(t, LoadTail).p == if n == 0 then ProducerIdle else Writing(t.p.data, t.head, n, 0)
  {
    ReachableInv(t);
    CountsExact(|t.delivered|, |t.accepted|, t.capacity);
  }

  lemma FinishedPop(t: State)
    requires Inv(t) && Enabled(t, PublishTail)
    ensures t.c.out == Queue(t)[..t.c.n] + seq(t.c.want - t.c.n, _ => 0)
    ensures t.delivered + t.c.out[..t.c.n] == t.accepted[..|t.delivered| + t.c.n]
  {
    assert t.c.out[..t.c.n] == Queue(t)[..t.c.n];
  }

  /** What a finished pop hands to its caller: all the samples that were in the queue when it began, or
      the oldest it has room for, and silence for the rest. */
  lemma PopHandsOutOldestThenSilence(t: State)
    requires Reachable(t) && Enabled(t, PublishTail)
    ensures |t.delivered| + t.c.n <= |t.accepted| && t.c.n == Min(t.c.want, t.c.waiting)
    ensures t.c.out == Queue(t)[..t.c.n] + seq(t.c.want - t.c.n, _ => 0)
    ensures Apply(t, PublishTail).delivered == t.accepted[..|t.delivered| + t.c.n]
  {
    ReachableInv(t);
    FinishedPop(t);
  }
}

module SampleRing {
  import opened Bytes
  import opened RingIndex
  import opened RingProtocol

  class RingBuffer {
    const capacity: Capacity
    var buffer: array<Sample>
    var head: nat
    var tail: nat
    ghost var accepted: seq<Sample>
    ghost var delivered: seq<Sample>

    /** The ring with neither thread inside a call. */
    ghost function Model(): State
      reads this, buffer
    {
      State(capacity, buffer[..], head, tail, ProducerIdle, ConsumerIdle, accepted, delivered)
    }

    ghost predicate Valid()
      reads this, buffer
    {
      Inv(Model())
    }

    constructor (samples: Capacity)
      requires samples <= WORD / 2
      ensures Valid() && Init(Model()) && fresh(buffer) && capacity == samples
    {
      capacity := samples;
      buffer := new Sample[samples](_ => 0);
      head, tail := 0, 0;
      accepted, delivered := [], [];
    }

    /** The copy loop of push, slot by slot. */
    method CopyIn(data: array<Sample>, samples: nat, ghost from: State, ghost before: seq<Step>)
      returns (ghost steps: seq<Step>)
      requires samples <= data.Length && data != buffer && buffer.Length == capacity
      requires Run(from, before, Model().(p := Writing(data[..], head, samples, 0)))
      modifies buffer
      ensures Run(from, steps, Model().(p := Writing(data[..], head, samples, samples)))
    {
      steps := before;
      var i := 0;
      while i < samples
        invariant 0 <= i <= samples
        invariant Run(from, steps, Model().(p := Writing(data[..], head, samples, i)))
      {
        ghost var s := Model().(p := Writing(data[..], head, samples, i));
        buffer[Slot(head, i, capacity)] := data[i];
        steps := Extend(from, steps, s, WriteSlot);
        i := i + 1;
        assert Model().(p := Writing(data[..], head, samples, i)) == Apply(s, WriteSlot);
      }
    }

    /** A sequential push is a run of the producer's micro-steps: it accepts the samples that fit
        into a queue of capacity - 1, in order, and drops the rest. */
    method Push(data: array<Sample>)
      requires Valid() && data != buffer
      modifies this`head, this`accepted, buffer
      ensures Valid() && exists steps :: Run(old(Model()), steps, Model())
      ensures accepted == old(accepted) + data[..Min(data.Length, capacity - 1 - |old(Queue(Model()))|)]
    {
      hide Used, Free, Home, Slot;
      ghost var s := Model();
      ghost var steps := Extend(s, [], s, BeginPush(data[..]));
      steps := Extend(s, steps, Apply(s, BeginPush(data[..])), LoadTail);
      CountsExact(|delivered|, |accepted|, capacity);
      var available := Free(head, tail, capacity);
      var samples := Min(data.Length, available);
      if samples > 0 {
        steps := CopyIn(data, samples, s, steps);
        ghost var t := Model().(p := Writing(data[..], head, samples, samples));
        steps := Extend(s, steps, t, PublishHead);
        head := Slot(head, samples, capacity);
        accepted := accepted + data[..samples];
        assert Model() == Apply(t, PublishHead);
      }
      RunKeepsInv(s, steps, Model());
    }

    /** The copy loop of pop. */
    method CopyOut(out: array<Sample>, toCopy: nat, ghost waiting: nat, ghost from: State, ghost before: seq<Step>)
      returns (ghost steps: seq<Step>)
      requires toCopy <= out.Length && out != buffer && buffer.Length == capacity
      requires Run(from, before, Model().(c := Reading(out.Length, tail, toCopy, [], waiting)))
      modifies out
      ensures Run(from, steps, Model().(c := Reading(out.Length, tail, toCopy, out[..toCopy], waiting)))
    {
      steps := before;
      var i := 0;
      assert out[..0] == [];
      while i < toCopy
        invariant 0 <= i <= toCopy
        invariant Run(from, steps, Model().(c := Reading(out.Length, tail, toCopy, out[..i], waiting)))
      {
        ghost var s := Model().(c := Reading(out.Length, tail, toCopy, out[..i], waiting));
        out[i] := buffer[Slot(tail, i, capacity)];
        steps := Extend(from, steps, s, ReadSlot);
        i := i + 1;
        assert out[..i] == s.c.out + [out[i - 1]];
        assert Model().(c := Reading(out.Length, tail, toCopy, out[..i], waiting)) == Apply(s, ReadSlot);
      }
    }

    /** The padding loop of pop. */
    method PadOut(out: array<Sample>, toCopy: nat, ghost waiting: nat, ghost from: State, ghost before: seq<Step>)
      returns (ghost steps: seq<Step>)
      requires toCopy <= out.Length && out != buffer && buffer.Length == capacity
      requires Run(from, before, Model().(c := Reading(out.Length, tail, toCopy, out[..toCopy], waiting)))
      modifies out
      ensures Run(from, steps, Model().(c := Reading(out.Length, tail, toCopy, out[..], waiting)))
    {
      steps := before;
      var i := toCopy;
      while i < out.Length
        invariant toCopy <= i <= out.Length
        invariant Run(from, steps, Model().(c := Reading(out.Length, tail, toCopy, out[..i], waiting)))
      {
        ghost var s := Model().(c := Reading(out.Length, tail, toCopy, out[..i], waiting));
        out[i] := 0;
        steps := Extend(from, steps, s, PadSilence);
        i := i + 1;
        assert out[..i] == s.c.out + [out[i - 1]];
        assert Model().(c := Reading(out.Length, tail, toCopy, out[..i], waiting)) == Apply(s, PadSilence);
      }
      assert out[..out.Length] == out[..];
    }

    /** A sequential pop is a run of the consumer's micro-steps: it fills out with the oldest samples
        of the queue and pads with silence. */
    method Pop(out: array<Sample>)
      requires Valid() && out != buffer
      modifies this`tail, this`delivered, out
      ensures Valid() && exists steps :: Run(old(Model()), steps, Model())
      ensures var n := Min(out.Length, |old(Queue(Model()))|);
              && out[..] == old(Queue(Model()))[..n] + seq(out.Length - n, _ => 0)
              && delivered == old(delivered) + out[..n]
    {
      hide Used, Free, Home, Slot;
      ghost var s := Model();
      ghost var waiting := Waiting(s);
      ghost var steps := Extend(s, [], s, BeginPop(out.Length));
      steps := Extend(s, steps, Apply(s, BeginPop(out.Length)), LoadOwnTail);
      CountsExact(|delivered|, |accepted|, capacity);
      var available := Used(head, tail, capacity);
      var toCopy := Min(out.Length, available);
      steps := CopyOut(out, toCopy, waiting, s, steps);
      steps := PadOut(out, toCopy, waiting, s, steps);
      ghost var t := Model().(c := Reading(out.Length, tail, toCopy, out[..], waiting));
      RunKeepsInv(s, steps, t);
      FinishedPop(t);
      steps := Extend(s, steps, t, PublishTail);
      tail := Slot(tail, toCopy, capacity);
      delivered := delivered + out[..][..toCopy];
      assert Model() == Apply(t, PublishTail);
      RunKeepsInv(s, steps, Model());
    }
  }

  /** One more micro-step of a run. */
  lemma Extend(from: State, steps: seq<Step>, s: State, step: Step) returns (longer: seq<Step>)
    requires Enabled(s, step) && Run(from, steps, s)
    ensures Run(from, longer, Apply(s, step))
  {
    RunExtends(from, steps, s, step);
    longer := steps + [step];
  }
}
