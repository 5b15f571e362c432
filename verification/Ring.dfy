/**
 * The receive ring (src/drivers/uart.rs): a single-producer, single-consumer
 * ring of 256 slots, run to completion by each side and, below, interleaved
 * one shared access at a time.
 */
module Ring {
  import opened Wrappers

  const RING_SIZE := 256

  /** The slot `i` places after `tail`. */
  function Slot(tail: nat, i: nat): (k: nat)
    requires tail < RING_SIZE && i < RING_SIZE
    ensures k == (tail + i) % RING_SIZE
  {
    if tail + i < RING_SIZE then tail + i else tail + i - RING_SIZE
  }

  /** The ring with each side run to completion; `queue` holds the waiting bytes, oldest first. */
  class RxRing {
    const buf: array<char>
    var head: nat
    var tail: nat
    ghost var queue: seq<char>

    ghost predicate Valid()
      reads this, buf
    {
      buf.Length == RING_SIZE && head < RING_SIZE && tail < RING_SIZE &&
      |queue| < RING_SIZE && head == Slot(tail, |queue|) &&
      forall i | 0 <= i < |queue| :: buf[Slot(tail, i)] == queue[i]
    }

    constructor ()
      ensures Valid() && fresh(buf) && queue == []
    {
      buf := new char[RING_SIZE];
      head, tail := 0, 0;
      queue := [];
    }

    /** A received byte joins the queue unless 255 bytes are waiting, in which case it is dropped. */
    method IrqHandler(received: Option<char>)
      requires Valid()
      modifies this, buf
      ensures Valid()
      ensures queue == old(queue) + if received.Some? && |old(queue)| < RING_SIZE - 1 then [received.value] else []
    {
      if received.Some? {
        var next := (head + 1) % RING_SIZE;
        assert next == if |queue| + 1 == RING_SIZE then tail else Slot(tail, |queue| + 1);
        if next != tail {
          buf[head] := received.value;
          head := next;
          queue := queue + [received.value];
        }
      }
    }

    method RingPop() returns (r: Option<char>)
      requires Valid()
      modifies this
      ensures Valid()
      ensures old(queue) == [] ==> r == None && queue == []
      ensures old(queue) != [] ==> r == Some(old(queue)[0]) && queue == old(queue)[1..]
    {
      if tail == head {
        return None;
      }
      r := Some(buf[tail]);
      assert forall i | 0 <= i < |queue| - 1 :: Slot(Slot(tail, 1), i) == Slot(tail, i + 1);
      tail := (tail + 1) % RING_SIZE;
      queue := queue[1..];
    }
  }

  // ---- the two sides interleaved ----

  /** Where the interrupt handler stands; `next` is its local variable. */
  datatype Producer =
    | Idle
    | HasByte(b: char)
    | HasNext(b: char, next: nat)
    | HasRoom(b: char, next: nat)
    | Stored(b: char, next: nat)

  /** Where the reader stands. */
  datatype Consumer =
    | Resting
    | HasTail(t: nat)
    | NonEmpty
    | Fetched(b: char)

  datatype Fate = Kept | Lost

  /** The shared ring, both sides, and the history of bytes. */
  datatype System = System(
    buf: seq<char>,
    head: nat,
    tail: nat,
    producer: Producer,
    consumer: Consumer,
    arrived: seq<char>,
    fates: seq<Fate>,
    published: seq<char>,
    delivered: seq<char>)

  /** One access to shared memory by one side; `Arrive` is the byte coming off the wire. */
  datatype Action =
    | Arrive(b: char)
    | ReadHead
    | CompareTail
    | Store
    | Publish
    | ReadTail
    | CompareHead
    | Fetch
    | Advance

  predicate Enabled(s: System, a: Action) {
    match a
    case Arrive(_) => s.producer.Idle?
    case ReadHead => s.producer.HasByte?
    case CompareTail => s.producer.HasNext?
    case Store => s.producer.HasRoom? && s.head < |s.buf|
    case Publish => s.producer.Stored?
    case ReadTail => s.consumer.Resting?
    case CompareHead => s.consumer.HasTail?
    case Fetch => s.consumer.NonEmpty? && s.tail < |s.buf|
    case Advance => s.consumer.Fetched?
  }

  function Next(s: System, a: Action): System
    requires Enabled(s, a)
  {
    match a
    case Arrive(b) => s.(producer := HasByte(b), arrived := s.arrived + [b])
    case ReadHead => s.(producer := HasNext(s.producer.b, (s.head + 1) % RING_SIZE))
    case CompareTail =>
      if s.producer.next != s.tail then s.(producer := HasRoom(s.producer.b, s.producer.next))
      else s.(producer := Idle, fates := s.fates + [Lost])
    case Store => s.(buf := s.buf[s.head := s.producer.b], producer := Stored(s.producer.b, s.producer.next))
    case Publish =>
      s.(head := s.producer.next, producer := Idle, fates := s.fates + [Kept],
         published := s.published + [s.producer.b])
    case ReadTail => s.(consumer := HasTail(s.tail))
    case CompareHead => s.(consumer := if s.consumer.t == s.head then Resting else NonEmpty)
    case Fetch => s.(consumer := Fetched(s.buf[s.tail]))
    case Advance =>
      s.(tail := (s.tail + 1) % RING_SIZE, consumer := Resting, delivered := s.delivered + [s.consumer.b])
  }

  predicate Initial(s: System) {
    |s.buf| == RING_SIZE && s.head == 0 && s.tail == 0 && s.producer.Idle? && s.consumer.Resting? &&
    s.arrived == [] && s.fates == [] && s.published == [] && s.delivered == []
  }

  predicate IsRun(s: System, run: seq<Action>)
    decreases |run|
  {
    run == [] || (Enabled(s, run[0]) && IsRun(Next(s, run[0]), run[1..]))
  }

  function After(s: System, run: seq<Action>): System
    requires IsRun(s, run)
    decreases |run|
  {
    if run == [] then s else After(Next(s, run[0]), run[1..])
  }

  /** The bytes whose fate was to be kept, in arrival order. */
  function KeptOf(arrived: seq<char>, fates: seq<Fate>): seq<char>
    requires |fates| <= |arrived|
  {
    if fates == [] then []
    else
      var n := |fates| - 1;
      KeptOf(arrived, fates[..n]) + if fates[n].Kept? then [arrived[n]] else []
  }

  /** The bytes published and not yet taken. */
  function Queue(s: System): seq<char>
    requires |s.delivered| <= |s.published|
  {
    s.published[|s.delivered|..]
  }

  predicate InFlight(p: Producer) {
    !p.Idle?
  }

  /** The slot of the byte with absolute number `i`. */
  function At(i: nat): (k: nat)
    ensures k < RING_SIZE
  {
    i % RING_SIZE
  }

  lemma AtStep(i: nat)
    ensures (At(i) + 1) % RING_SIZE == At(i + 1)
  {
  }

  lemma AtWraps(i: nat)
    ensures At(i + RING_SIZE) == At(i)
  {
  }

  predicate SharedInv(s: System) {
    |s.buf| == RING_SIZE &&
    s.delivered <= s.published &&
    |s.published| < |s.delivered| + RING_SIZE &&
    s.head == At(|s.published|) &&
    s.tail == At(|s.delivered|) &&
    forall i | |s.delivered| <= i < |s.published| :: s.buf[At(i)] == s.published[i]
  }

  predicate ProducerInv(s: System)
    requires |s.buf| == RING_SIZE && s.head < RING_SIZE
  {
    |s.arrived| == |s.fates| + (if InFlight(s.producer) then 1 else 0) &&
    s.published == KeptOf(s.arrived, s.fates) &&
    (InFlight(s.producer) ==> s.arrived[|s.fates|] == s.producer.b) &&
    (s.producer.HasNext? || s.producer.HasRoom? || s.producer.Stored? ==>
       s.producer.next == At(|s.published| + 1)) &&
    (s.producer.HasRoom? || s.producer.Stored? ==> |s.published| < |s.delivered| + RING_SIZE - 1) &&
    (s.producer.Stored? ==> s.buf[s.head] == s.producer.b)
  }

  predicate ConsumerInv(s: System) {
    (s.consumer.HasTail? ==> s.consumer.t == s.tail) &&
    (s.consumer.NonEmpty? || s.consumer.Fetched? ==> |s.delivered| < |s.published|) &&
    (s.consumer.Fetched? ==> s.consumer.b == s.published[|s.delivered|])
  }

  predicate Inv(s: System) {
    SharedInv(s) && ProducerInv(s) && ConsumerInv(s)
  }

  lemma ModDistinct(i: nat, j: nat)
    requires i < j < i + RING_SIZE
    ensures At(i) != At(j)
  {
  }

  lemma {:induction false} KeptIgnoresLater(arrived: seq<char>, fates: seq<Fate>, b: char)
    requires |fates| <= |arrived|
    ensures KeptOf(arrived + [b], fates) == KeptOf(arrived, fates)
  {
    if fates != [] {
      KeptIgnoresLater(arrived, fates[..|fates| - 1], b);
    }
  }

  lemma {:induction false} KeptSnoc(arrived: seq<char>, fates: seq<Fate>, f: Fate)
    requires |fates| < |arrived|
    ensures KeptOf(arrived, fates + [f])
         == KeptOf(arrived, fates) + if f.Kept? then [arrived[|fates|]] else []
  {
    assert (fates + [f])[..|fates|] == fates;
  }

  /**
   * What one access may do to the queue: nothing, let the byte in flight join
   * at the back with room to spare, or hand the oldest byte to the reader.  A
   * byte is lost only at the moment the tail read shows 255 bytes waiting.
   */
  predicate FifoStep(s: System, a: Action, e: System)
    requires Inv(s) && Inv(e)
  {
    (match a
     case Publish =>
       s.producer.Stored? && |Queue(s)| < RING_SIZE - 1 && Queue(e) == Queue(s) + [s.arrived[|s.fates|]]
     case Advance =>
       Queue(s) != [] && Queue(e) == Queue(s)[1..] && e.delivered == s.delivered + [Queue(s)[0]]
     case _ =>
       Queue(e) == Queue(s) && e.delivered == s.delivered) &&
    (e.fates == s.fates + [Lost] ==> |Queue(s)| == RING_SIZE - 1)
  }

  lemma CompareTailStep(s: System)
    requires Inv(s) && s.producer.HasNext?
    ensures Inv(Next(s, CompareTail)) && FifoStep(s, CompareTail, Next(s, CompareTail))
  {
    hide KeptOf, At;
    KeptSnoc(s.arrived, s.fates, Lost);
    AtWraps(|s.delivered|);
    if |s.published| + 1 < |s.delivered| + RING_SIZE {
      ModDistinct(|s.delivered|, |s.published| + 1);
    }
  }

  lemma StoreStep(s: System)
    requires Inv(s) && s.producer.HasRoom?
    ensures Inv(Next(s, Store)) && FifoStep(s, Store, Next(s, Store))
  {
    hide KeptOf, At;
    forall i | |s.delivered| <= i < |s.published|
      ensures At(i) != s.head
    {
      ModDistinct(i, |s.published|);
    }
  }

  lemma PublishStep(s: System)
    requires Inv(s) && s.producer.Stored?
    ensures Inv(Next(s, Publish)) && FifoStep(s, Publish, Next(s, Publish))
  {
    hide KeptOf, At;
    KeptSnoc(s.arrived, s.fates, Kept);
    var e := Next(s, Publish);
    assert e.fates[|s.fates|] == Kept;
    assert e.published == s.published + [s.producer.b];
  }

  lemma AdvanceStep(s: System)
    requires Inv(s) && s.consumer.Fetched?
    ensures Inv(Next(s, Advance)) && FifoStep(s, Advance, Next(s, Advance))
  {
    hide KeptOf, At;
    AtStep(|s.delivered|);
  }

  lemma QuietStep(s: System, a: Action)
    requires Inv(s) && Enabled(s, a)
    requires a.ReadHead? || a.ReadTail? || a.CompareHead? || a.Fetch?
    ensures Inv(Next(s, a)) && FifoStep(s, a, Next(s, a))
  {
    hide KeptOf, At;
    AtStep(|s.published|);
    if |s.delivered| < |s.published| {
      assert s.buf[At(|s.delivered|)] == s.published[|s.delivered|];
    }
  }

  lemma ArriveStep(s: System, b: char)
    requires Inv(s) && s.producer.Idle?
    ensures Inv(Next(s, Arrive(b))) && FifoStep(s, Arrive(b), Next(s, Arrive(b)))
  {
    hide KeptOf, At;
    KeptIgnoresLater(s.arrived, s.fates, b);
  }

  /** Each access keeps the invariant and is a step of a FIFO queue of capacity 255. */
  lemma StepRefinesFifo(s: System, a: Action)
    requires Inv(s) && Enabled(s, a)
    ensures Inv(Next(s, a)) && FifoStep(s, a, Next(s, a))
  {
    match a
    case Arrive(b) => ArriveStep(s, b);
    case CompareTail => CompareTailStep(s);
    case Store => StoreStep(s);
    case Publish => PublishStep(s);
    case Advance => AdvanceStep(s);
    case _ => QuietStep(s, a);
  }

  lemma {:induction false} InvAlong(s: System, run: seq<Action>)
    requires Inv(s) && IsRun(s, run)
    ensures Inv(After(s, run))
    decreases |run|
  {
    if run != [] {
      StepRefinesFifo(s, run[0]);
      InvAlong(Next(s, run[0]), run[1..]);
    }
  }

  /**
   * After any interleaving: what the reader got is a prefix of the bytes kept,
   * which are the arrived bytes in order, without the lost ones; never more
   * than 255 bytes wait.
   */
  lemma {:induction false} RingIsFifo(s: System, run: seq<Action>)
    requires Initial(s) && IsRun(s, run)
    ensures var e := After(s, run);
            |e.fates| <= |e.arrived| <= |e.fates| + 1 &&
            e.delivered <= KeptOf(e.arrived, e.fates) &&
            |KeptOf(e.arrived, e.fates)| <= |e.delivered| + 255
  {
    InvAlong(s, run);
  }

  /** An action of a run that loses a byte does so while 255 bytes are waiting. */
  lemma {:induction false} LostOnlyWhenFull(s: System, run: seq<Action>, k: nat)
    requires Initial(s) && IsRun(s, run) && k < |run| && IsRun(s, run[..k])
    ensures var before := After(s, run[..k]);
            Inv(before) && Enabled(before, run[k]) &&
            (Next(before, run[k]).fates == before.fates + [Lost] ==> |Queue(before)| == 255)
  {
    InvAlong(s, run[..k]);
    RunSplits(s, run, k);
    StepRefinesFifo(After(s, run[..k]), run[k]);
  }

  /** The reader takes the ring for empty exactly when no byte is waiting as it compares. */
  lemma EmptyIsSeenRightly(s: System)
    requires Inv(s) && Enabled(s, CompareHead)
    ensures Next(s, CompareHead).consumer == Resting <==> Queue(s) == []
    ensures Next(s, CompareHead).consumer == NonEmpty <==> Queue(s) != []
  {
    hide KeptOf, At;
    if |s.delivered| < |s.published| {
      ModDistinct(|s.delivered|, |s.published|);
    }
  }

  /** In particular along any run: whenever the reader reports nothing, nothing was waiting. */
  lemma {:induction false} EmptyReportsAreTrue(s: System, run: seq<Action>, k: nat)
    requires Initial(s) && IsRun(s, run) && k < |run| && run[k] == CompareHead
    ensures IsRun(s, run[..k]) && Enabled(After(s, run[..k]), CompareHead)
    ensures var before := After(s, run[..k]);
            Inv(before) && (Next(before, CompareHead).consumer == Resting <==> Queue(before) == [])
  {
    RunSplits(s, run, k);
    InvAlong(s, run[..k]);
    EmptyIsSeenRightly(After(s, run[..k]));
  }

  lemma {:induction false} RunSplits(s: System, run: seq<Action>, k: nat)
    requires IsRun(s, run) && k < |run|
    ensures IsRun(s, run[..k]) && Enabled(After(s, run[..k]), run[k])
    decreases |run|
  {
    if k > 0 {
      assert run[..k][1..] == run[1..][..k - 1];
      RunSplits(Next(s, run[0]), run[1..], k - 1);
    } else {
      assert run[..k] == [];
    }
  }
}
