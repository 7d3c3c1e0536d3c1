/**
 * The lock-free ring of pointers: any number of writers and readers, interleaved at every
 * atomic access, against one bounded queue.
 *
 * The indices of the program are remainders modulo the capacity, a power of two, so that
 * masking an index is taking a remainder.  'History' keeps what the program does not store:
 * how far each index has really advanced, the values in the order of reservation, and which
 * thread reserved which place.
 */
module Ring {
  import opened Modulo

  type Address = int

  /** What a thread will do next; 'at' is the index it has loaded. */
  datatype Thread =
    | Idle
    | StartWrite(value: Address)
    | HeadLoaded(value: Address, at: nat)
    | RoomSeen(value: Address, at: nat)
    | Reserved(value: Address, at: nat)
    | Stored(value: Address, at: nat)
    | Publishing(value: Address, at: nat)
    | StartRead
    | ReadLoaded(at: nat)
    | ItemSeen(at: nat)
    | Fetched(at: nat, got: Address)

  datatype State = State(cap: nat, whead: nat, wtail: nat, r: nat, slots: seq<Address>, threads: seq<Thread>)

  datatype Action = CallWrite(t: nat, value: Address) | CallRead(t: nat) | Go(t: nat)

  /** What a step does for its caller: a call that returns, or nothing yet. */
  datatype Event = Silent | Put(value: Address) | PutFull | Get(value: Address) | GetEmpty

  predicate WellFormed(s: State) {
    && |s.slots| == s.cap > 0
    && s.whead < s.cap && s.wtail < s.cap && s.r < s.cap
    && forall t :: 0 <= t < |s.threads| ==> Fitting(s.threads[t], s.cap)
  }

  predicate Fitting(th: Thread, cap: nat) {
    match th
    case HeadLoaded(_, at) => at < cap
    case RoomSeen(_, at) => at < cap
    case Reserved(_, at) => at < cap
    case Stored(_, at) => at < cap
    case Publishing(_, at) => at < cap
    case ReadLoaded(at) => at < cap
    case ItemSeen(at) => at < cap
    case Fetched(at, _) => at < cap
    case _ => true
  }

  predicate Enabled(s: State, a: Action) {
    a.t < |s.threads| && (a.Go? <==> s.threads[a.t] != Idle)
  }

  function Become(s: State, t: nat, th: Thread): State
    requires t < |s.threads|
  {
    s.(threads := s.threads[t := th])
  }

  /** One atomic access of one thread. */
  function Act(s: State, a: Action): (s2: State)
    requires WellFormed(s) && Enabled(s, a)
    ensures WellFormed(s2) && s2.cap == s.cap && |s2.threads| == |s.threads|
  {
    match a
    case CallWrite(t, v) => Become(s, t, StartWrite(v))
    case CallRead(t) => Become(s, t, StartRead)
    case Go(t) =>
      match s.threads[t]
      case StartWrite(v) => Become(s, t, HeadLoaded(v, s.whead))
      case HeadLoaded(v, at) => Become(s, t, if Next(at, s.cap) == s.r then Idle else RoomSeen(v, at))
      case RoomSeen(v, at) =>
        if s.whead == at then Become(s, t, Reserved(v, at)).(whead := Next(at, s.cap))
        else Become(s, t, StartWrite(v))
      case Reserved(v, at) => Become(s, t, Stored(v, at)).(slots := s.slots[at := v])
      case Stored(v, at) => if s.wtail == at then Become(s, t, Publishing(v, at)) else s
      case Publishing(v, at) => Become(s, t, Idle).(wtail := Next(at, s.cap))
      case StartRead => Become(s, t, ReadLoaded(s.r))
      case ReadLoaded(at) => Become(s, t, if at == s.wtail then Idle else ItemSeen(at))
      case ItemSeen(at) => Become(s, t, Fetched(at, s.slots[at]))
      case Fetched(at, got) =>
        if s.r == at then Become(s, t, Idle).(r := Next(at, s.cap))
        else Become(s, t, StartRead)
  }

  function Observe(s: State, a: Action): Event
    requires WellFormed(s) && Enabled(s, a)
  {
    if !a.Go? then Silent else
    match s.threads[a.t]
    case HeadLoaded(v, at) => if Next(at, s.cap) == s.r then PutFull else Silent
    case Publishing(v, at) => Put(v)
    case ReadLoaded(at) => if at == s.wtail then GetEmpty else Silent
    case Fetched(at, got) => if s.r == at then Get(got) else Silent
    case _ => Silent
  }

  /**
   * head, tail, read: the full indices.  log: the value of every place ever reserved.
   * owner: who reserved it.  loaded: the full index behind the one a thread has loaded.
   */
  datatype History = History(head: nat, tail: nat, read: nat, log: seq<Address>, owner: seq<nat>, loaded: seq<nat>)

  function Track(s: State, h: History, a: Action): (h2: History)
    requires WellFormed(s) && Enabled(s, a) && |h.loaded| == |s.threads|
    ensures |h2.loaded| == |s.threads|
  {
    if !a.Go? then h else
    match s.threads[a.t]
    case StartWrite(v) => h.(loaded := h.loaded[a.t := h.head])
    case StartRead => h.(loaded := h.loaded[a.t := h.read])
    case RoomSeen(v, at) =>
      if s.whead == at then
        h.(head := h.head + 1, log := h.log + [v], owner := h.owner + [a.t], loaded := h.loaded[a.t := h.head])
      else h
    case Publishing(v, at) => h.(tail := h.tail + 1)
    case Fetched(at, got) => if s.r == at then h.(read := h.read + 1) else h
    case _ => h
  }

  /**
   * What a thread saw before its compare-and-set is still so when this succeeds: there is room at
   * the head, or the value that was fetched is still there and unread.
   */
  predicate Fresh(s: State, a: Action)
    requires WellFormed(s) && Enabled(s, a)
  {
    a.Go? ==>
      match s.threads[a.t]
      case RoomSeen(v, at) => s.whead == at ==> Next(at, s.cap) != s.r
      case Fetched(at, got) => s.r == at ==> at != s.wtail && s.slots[at] == got
      case _ => true
  }

  /** No index has gone all the way round since the thread about to compare it has loaded it. */
  predicate NoLap(s: State, h: History, a: Action)
    requires WellFormed(s) && Enabled(s, a) && |h.loaded| == |s.threads|
  {
    a.Go? ==>
      match s.threads[a.t]
      case RoomSeen(v, at) => h.head - h.loaded[a.t] < s.cap
      case Fetched(at, got) => h.read - h.loaded[a.t] < s.cap
      case _ => true
  }

  predicate Holds(th: Thread) {
    th.Reserved? || th.Stored? || th.Publishing?
  }

  predicate Shape(s: State, h: History) {
    && WellFormed(s) && |h.loaded| == |s.threads|
    && h.read <= h.tail <= h.head < h.read + s.cap
    && |h.log| == |h.owner| == h.head
    && s.whead == h.head % s.cap && s.wtail == h.tail % s.cap && s.r == h.read % s.cap
  }

  /** What thread 't' knows about the indices. */
  predicate Knows(s: State, h: History, t: nat)
    requires Shape(s, h) && t < |s.threads|
  {
    var n := h.loaded[t];
    match s.threads[t]
    case HeadLoaded(v, at) => at == n % s.cap && n <= h.head
    case RoomSeen(v, at) => at == n % s.cap && n <= h.head && (n == h.head ==> n + 1 < h.read + s.cap)
    case Reserved(v, at) => at == n % s.cap && Owns(h, t, v)
    case Stored(v, at) => at == n % s.cap && Owns(h, t, v) && s.slots[at] == v
    case Publishing(v, at) => at == n % s.cap && Owns(h, t, v) && s.slots[at] == v && n == h.tail
    case ReadLoaded(at) => at == n % s.cap && n <= h.read
    case ItemSeen(at) => at == n % s.cap && n <= h.read && (n == h.read ==> n < h.tail)
    case Fetched(at, got) => at == n % s.cap && n <= h.read && (n == h.read ==> n < h.tail && got == h.log[n])
    case _ => true
  }

  /** The place thread 't' has loaded is its own, reserved and not yet published. */
  predicate Owns(h: History, t: nat, v: Address)
    requires t < |h.loaded| && h.head == |h.log| == |h.owner|
  {
    var n := h.loaded[t];
    h.tail <= n < h.head && h.owner[n] == t && h.log[n] == v
  }

  /** Place 'n', reserved and not yet published, has its writer. */
  predicate HasWriter(s: State, h: History, n: nat)
    requires Shape(s, h) && n < h.head
  {
    var t := h.owner[n];
    t < |s.threads| && Holds(s.threads[t]) && h.loaded[t] == n
  }

  /** Place 'n' holds its value. */
  predicate Filled(s: State, h: History, n: nat)
    requires Shape(s, h) && n < h.head
  {
    s.slots[n % s.cap] == h.log[n]
  }

  predicate Inv(s: State, h: History) {
    && Shape(s, h)
    && (forall t :: 0 <= t < |s.threads| ==> Knows(s, h, t))
    && (forall n :: h.tail <= n < h.head ==> HasWriter(s, h, n))
    && (forall n :: h.read <= n < h.tail ==> Filled(s, h, n))
  }

  /** The unread values. */
  function Queue(h: History): seq<Address>
    requires h.read <= h.tail <= |h.log|
  {
    h.log[h.read..h.tail]
  }

  // ----- every step keeps the invariant -----

  /** The writer's test: the next index meets the reader's exactly when all places but one are taken. */
  lemma RoomTest(head: nat, read: nat, cap: nat)
    requires read <= head < read + cap
    ensures Next(head % cap, cap) == read % cap <==> head + 1 == read + cap
  {
    AddMod(head, 1, cap);
    if head + 1 == read + cap {
      Unique(head + 1, read / cap + 1, read % cap, cap);
    } else if (head + 1) % cap == read % cap {
      SameLap(head + 1, read, cap);
    }
  }

  /** Steps that only change what thread 't' knows. */
  lemma BecomeKeeps(s: State, h: History, t: nat, th: Thread, loaded: nat)
    requires Inv(s, h) && t < |s.threads| && !Holds(s.threads[t]) && !Holds(th) && Fitting(th, s.cap)
    requires
      var s2 := Become(s, t, th);
      var h2 := h.(loaded := h.loaded[t := loaded]);
      Knows(s2, h2, t)
    ensures Inv(Become(s, t, th), h.(loaded := h.loaded[t := loaded]))
  {
    var s2 := Become(s, t, th);
    var h2 := h.(loaded := h.loaded[t := loaded]);
    forall u | 0 <= u < |s2.threads| ensures Knows(s2, h2, u) {
      assert Knows(s, h, u);
    }
    forall n | h2.tail <= n < h2.head ensures HasWriter(s2, h2, n) {
      assert HasWriter(s, h, n);
    }
    forall n | h2.read <= n < h2.tail ensures Filled(s2, h2, n) {
      assert Filled(s, h, n);
    }
  }

  lemma ReserveKeeps(s: State, h: History, t: nat)
    requires Inv(s, h) && t < |s.threads| && s.threads[t].RoomSeen? && Fresh(s, Go(t))
    requires s.whead == s.threads[t].at
    ensures Inv(Act(s, Go(t)), Track(s, h, Go(t)))
  {
    var s2, h2 := Act(s, Go(t)), Track(s, h, Go(t));
    assert Knows(s, h, t);
    RoomTest(h.head, h.read, s.cap);
    AddMod(h.head, 1, s.cap);
    forall u | 0 <= u < |s2.threads| ensures Knows(s2, h2, u) {
      assert Knows(s, h, u);
    }
    forall n | h2.tail <= n < h2.head ensures HasWriter(s2, h2, n) {
      if n < h.head { assert HasWriter(s, h, n); }
    }
    forall n | h2.read <= n < h2.tail ensures Filled(s2, h2, n) {
      assert Filled(s, h, n);
    }
  }

  lemma StoreKeeps(s: State, h: History, t: nat)
    requires Inv(s, h) && t < |s.threads| && s.threads[t].Reserved?
    ensures Inv(Act(s, Go(t)), Track(s, h, Go(t)))
  {
    var s2, h2 := Act(s, Go(t)), Track(s, h, Go(t));
    assert Knows(s, h, t);
    var at, i := s.threads[t].at, h.loaded[t];
    forall n | h.read <= n < h.head && n % s.cap == at ensures n == i {
      SameLap(n, i, s.cap);
    }
    forall u | 0 <= u < |s2.threads| ensures Knows(s2, h2, u) {
      assert Knows(s, h, u);
    }
    forall n | h2.tail <= n < h2.head ensures HasWriter(s2, h2, n) {
      assert HasWriter(s, h, n);
    }
    forall n | h2.read <= n < h2.tail ensures Filled(s2, h2, n) {
      assert Filled(s, h, n);
    }
  }

  lemma TurnKeeps(s: State, h: History, t: nat)
    requires Inv(s, h) && t < |s.threads| && s.threads[t].Stored? && s.wtail == s.threads[t].at
    ensures Inv(Act(s, Go(t)), Track(s, h, Go(t)))
  {
    var s2, h2 := Act(s, Go(t)), Track(s, h, Go(t));
    assert Knows(s, h, t);
    SameLap(h.loaded[t], h.tail, s.cap);
    forall u | 0 <= u < |s2.threads| ensures Knows(s2, h2, u) {
      assert Knows(s, h, u);
    }
    forall n | h2.tail <= n < h2.head ensures HasWriter(s2, h2, n) {
      assert HasWriter(s, h, n);
    }
    forall n | h2.read <= n < h2.tail ensures Filled(s2, h2, n) {
      assert Filled(s, h, n);
    }
  }

  lemma PublishKeeps(s: State, h: History, t: nat)
    requires Inv(s, h) && t < |s.threads| && s.threads[t].Publishing?
    ensures Inv(Act(s, Go(t)), Track(s, h, Go(t)))
  {
    var s2, h2 := Act(s, Go(t)), Track(s, h, Go(t));
    assert Knows(s, h, t);
    AddMod(h.tail, 1, s.cap);
    forall u | 0 <= u < |s2.threads| ensures Knows(s2, h2, u) {
      assert Knows(s, h, u);
    }
    forall n | h2.tail <= n < h2.head ensures HasWriter(s2, h2, n) {
      assert HasWriter(s, h, n);
    }
    forall n | h2.read <= n < h2.tail ensures Filled(s2, h2, n) {
      if n < h.tail { assert Filled(s, h, n); }
    }
  }

  lemma TakeKeeps(s: State, h: History, t: nat)
    requires Inv(s, h) && t < |s.threads| && s.threads[t].Fetched? && Fresh(s, Go(t))
    requires s.r == s.threads[t].at
    ensures Inv(Act(s, Go(t)), Track(s, h, Go(t)))
    ensures h.read < h.tail && s.threads[t].got == h.log[h.read]
  {
    var s2, h2 := Act(s, Go(t)), Track(s, h, Go(t));
    assert Knows(s, h, t);
    assert h.read < h.tail && Filled(s, h, h.read);
    AddMod(h.read, 1, s.cap);
    forall u | 0 <= u < |s2.threads| ensures Knows(s2, h2, u) {
      assert Knows(s, h, u);
    }
    forall n | h2.tail <= n < h2.head ensures HasWriter(s2, h2, n) {
      assert HasWriter(s, h, n);
    }
    forall n | h2.read <= n < h2.tail ensures Filled(s2, h2, n) {
      assert Filled(s, h, n);
    }
  }

  /** Loading an index, or seeing whether there is room or a value. */
  lemma LookKeeps(s: State, h: History, t: nat)
    requires Inv(s, h) && t < |s.threads|
    requires s.threads[t].StartWrite? || s.threads[t].StartRead? || s.threads[t].HeadLoaded?
          || s.threads[t].ReadLoaded? || s.threads[t].ItemSeen?
    ensures Inv(Act(s, Go(t)), Track(s, h, Go(t)))
  {
    var s2, h2 := Act(s, Go(t)), Track(s, h, Go(t));
    var n := h2.loaded[t];
    assert Knows(s, h, t);
    assert s2 == Become(s, t, s2.threads[t]);
    assert h2.loaded == h.loaded[t := n];
    assert h2 == h.(loaded := h.loaded[t := n]);
    match s.threads[t] {
      case HeadLoaded(v, at) => RoomTest(h.head, h.read, s.cap); AddMod(n, 1, s.cap);
      case ItemSeen(at) => if n == h.read { assert Filled(s, h, n); }
      case _ =>
    }
    BecomeKeeps(s, h, t, s2.threads[t], n);
  }

  /** An index that has not gone all the way round is as it was when it was loaded. */
  lemma NoLapFresh(s: State, h: History, a: Action)
    requires Inv(s, h) && Enabled(s, a) && NoLap(s, h, a)
    ensures Fresh(s, a)
  {
    assert Knows(s, h, a.t);
    var n := h.loaded[a.t];
    if a.Go? && s.threads[a.t].RoomSeen? && s.whead == s.threads[a.t].at {
      SameLap(h.head, n, s.cap);
      RoomTest(h.head, h.read, s.cap);
    } else if a.Go? && s.threads[a.t].Fetched? && s.r == s.threads[a.t].at {
      SameLap(h.read, n, s.cap);
      assert Filled(s, h, n);
      if s.wtail == s.r { SameLap(h.tail, h.read, s.cap); }
    }
  }

  lemma StepKeeps(s: State, h: History, a: Action)
    requires Inv(s, h) && Enabled(s, a) && Fresh(s, a)
    ensures Inv(Act(s, a), Track(s, h, a))
  {
    var t := a.t;
    var th := s.threads[t];
    match a
    case CallWrite(_, v) =>
      BecomeKeeps(s, h, t, StartWrite(v), h.loaded[t]);
      assert h.loaded[t := h.loaded[t]] == h.loaded;
    case CallRead(_) =>
      BecomeKeeps(s, h, t, StartRead, h.loaded[t]);
      assert h.loaded[t := h.loaded[t]] == h.loaded;
    case Go(_) =>
      match th
      case RoomSeen(v, at) =>
        if s.whead == at {
          ReserveKeeps(s, h, t);
        } else {
          BecomeKeeps(s, h, t, StartWrite(v), h.loaded[t]);
          assert h.loaded[t := h.loaded[t]] == h.loaded;
        }
      case Reserved(v, at) => StoreKeeps(s, h, t);
      case Stored(v, at) => if s.wtail == at { TurnKeeps(s, h, t); }
      case Publishing(v, at) => PublishKeeps(s, h, t);
      case Fetched(at, got) =>
        if s.r == at {
          TakeKeeps(s, h, t);
        } else {
          BecomeKeeps(s, h, t, StartRead, h.loaded[t]);
          assert h.loaded[t := h.loaded[t]] == h.loaded;
        }
      case _ => LookKeeps(s, h, t);
  }

  // ----- one step against the queue -----

  /** The specification: may a queue of at most 'room' values do this? */
  predicate May(q: seq<Address>, room: int, e: Event) {
    match e
    case Silent => true
    case Put(_) => |q| < room
    case PutFull => |q| == room
    case Get(v) => q != [] && q[0] == v
    case GetEmpty => q == []
  }

  /** What it then holds. */
  function After(q: seq<Address>, e: Event): seq<Address> {
    match e
    case Put(v) => q + [v]
    case Get(_) => if q == [] then [] else q[1..]
    case _ => q
  }

  predicate Refused(e: Event) {
    e.PutFull? || e.GetEmpty?
  }

  /** The earliest reserved place is published, with value 'v'. */
  predicate Publishes(h: History, h2: History, v: Address) {
    h2.log == h.log && h2.tail == h.tail + 1 && h.tail < |h.log| && h.log[h.tail] == v
  }

  /** Every step is a step of the queue, or a refusal, which leaves the queue alone. */
  lemma StepRefines(s: State, h: History, a: Action)
    requires Inv(s, h) && Enabled(s, a) && Fresh(s, a)
    ensures Inv(Act(s, a), Track(s, h, a))
    ensures Refused(Observe(s, a)) || May(Queue(h), s.cap - 1, Observe(s, a))
    ensures Queue(Track(s, h, a)) == After(Queue(h), Observe(s, a))
    ensures Observe(s, a).Put? ==> Publishes(h, Track(s, h, a), Observe(s, a).value)
    ensures !Observe(s, a).Put? ==> h.log <= Track(s, h, a).log && Track(s, h, a).tail == h.tail
  {
    StepKeeps(s, h, a);
    var h2 := Track(s, h, a);
    assert Knows(s, h, a.t);
    if a.Go? {
      match s.threads[a.t]
      case Publishing(v, at) =>
        assert h2.log[h2.read..h2.tail] == h.log[h.read..h.tail] + [h.log[h.tail]];
      case Fetched(at, got) =>
        if s.r == at { TakeKeeps(s, h, a.t); }
      case RoomSeen(v, at) =>
        assert h2.log[h.read..h.tail] == h.log[h.read..h.tail];
      case _ =>
    }
  }

  /** The step keeps the invariant and is one that the queue allows, or a refusal. */
  predicate Right(s: State, h: History, a: Action)
    requires Inv(s, h) && Enabled(s, a)
  {
    Inv(Act(s, a), Track(s, h, a)) && (Refused(Observe(s, a)) || May(Queue(h), s.cap - 1, Observe(s, a)))
  }

  /**
   * A step is right if and only if what its thread saw still holds.  A writer that succeeds when it
   * does not makes a ring with cap - 1 places taken look empty.
   */
  lemma StepExact(s: State, h: History, a: Action)
    requires Inv(s, h) && Enabled(s, a)
    ensures Right(s, h, a) <==> Fresh(s, a)
    ensures !Fresh(s, a) && s.threads[a.t].RoomSeen? ==> h.head - h.read == s.cap - 1 && Act(s, a).whead == s.r
  {
    if Fresh(s, a) {
      StepRefines(s, h, a);
    } else {
      RoomTest(h.head, h.read, s.cap);
      if h.read < h.tail {
        assert Filled(s, h, h.read);
        if s.wtail == s.r { SameLap(h.tail, h.read, s.cap); }
      }
    }
  }

  /**
   * When a write is refused, every place is taken if and only if the head is where the thread loaded
   * it; when a read is refused, there is nothing to read if and only if the reading index is.  Less
   * than a lap later that means that no other writer, or reader, has moved it.
   */
  lemma RefusalTruth(s: State, h: History, t: nat)
    requires Inv(s, h) && Enabled(s, Go(t))
    ensures Observe(s, Go(t)) == PutFull ==> (h.head - h.read == s.cap - 1 <==> s.whead == s.threads[t].at)
    ensures Observe(s, Go(t)) == GetEmpty ==> (Queue(h) == [] <==> s.r == s.threads[t].at)
    ensures Observe(s, Go(t)) == PutFull && h.head - h.loaded[t] < s.cap ==>
      (s.whead == s.threads[t].at <==> h.head == h.loaded[t])
    ensures Observe(s, Go(t)) == GetEmpty && h.read - h.loaded[t] < s.cap ==>
      (s.r == s.threads[t].at <==> h.read == h.loaded[t])
  {
    assert Knows(s, h, t);
    var n := h.loaded[t];
    if Observe(s, Go(t)) == PutFull {
      RoomTest(h.head, h.read, s.cap);
      SameNext(s.threads[t].at, s.whead, s.cap);
      if s.whead == s.threads[t].at && h.head - n < s.cap { SameLap(h.head, n, s.cap); }
    }
    if Observe(s, Go(t)) == GetEmpty {
      if s.r == s.wtail { SameLap(h.tail, h.read, s.cap); }
      if s.r == s.threads[t].at && h.read - n < s.cap { SameLap(h.read, n, s.cap); }
    }
  }

  /** Indices below the capacity are equal if the next ones are. */
  lemma SameNext(a: nat, b: nat, cap: nat)
    requires a < cap && b < cap
    ensures Next(a, cap) == Next(b, cap) <==> a == b
  {
    if Next(a, cap) == Next(b, cap) { SameLap(a + 1, b + 1, cap); }
  }

  /** No two threads ever write the same slot at the same time. */
  lemma OneWriter(s: State, h: History, t: nat, u: nat)
    requires Inv(s, h) && t < |s.threads| && u < |s.threads|
    requires Holds(s.threads[t]) && Holds(s.threads[u]) && s.threads[t].at == s.threads[u].at
    ensures t == u
  {
    assert Knows(s, h, t) && Knows(s, h, u);
    SameLap(h.loaded[t], h.loaded[u], s.cap);
  }

  // ----- whole runs -----

  function Start(cap: nat, threads: nat): (s: State)
    requires cap > 0
  {
    State(cap, 0, 0, 0, seq(cap, i => 0), seq(threads, i => Idle))
  }

  function NoHistory(threads: nat): History {
    History(0, 0, 0, [], [], seq(threads, i => 0))
  }

  lemma StartInv(cap: nat, threads: nat)
    requires cap > 0
    ensures Inv(Start(cap, threads), NoHistory(threads))
  {
  }

  predicate Possible(s: State, acts: seq<Action>)
    requires WellFormed(s)
    decreases |acts|
  {
    acts == [] || (Enabled(s, acts[0]) && Possible(Act(s, acts[0]), acts[1..]))
  }

  function Exec(s: State, acts: seq<Action>): (s2: State)
    requires WellFormed(s) && Possible(s, acts)
    ensures WellFormed(s2)
    decreases |acts|
  {
    if acts == [] then s else Exec(Act(s, acts[0]), acts[1..])
  }

  function Trace(s: State, acts: seq<Action>): (tr: seq<Event>)
    requires WellFormed(s) && Possible(s, acts)
    ensures |tr| == |acts|
    decreases |acts|
  {
    if acts == [] then [] else [Observe(s, acts[0])] + Trace(Act(s, acts[0]), acts[1..])
  }

  function HistoryOf(s: State, h: History, acts: seq<Action>): (h2: History)
    requires WellFormed(s) && Possible(s, acts) && |h.loaded| == |s.threads|
    decreases |acts|
  {
    if acts == [] then h else HistoryOf(Act(s, acts[0]), Track(s, h, acts[0]), acts[1..])
  }

  predicate NeverLaps(s: State, h: History, acts: seq<Action>)
    requires WellFormed(s) && Possible(s, acts) && |h.loaded| == |s.threads|
    decreases |acts|
  {
    acts == [] || (NoLap(s, h, acts[0]) && NeverLaps(Act(s, acts[0]), Track(s, h, acts[0]), acts[1..]))
  }

  /** No compare-and-set of the run succeeds on what is no longer so. */
  predicate NeverStale(s: State, acts: seq<Action>)
    requires WellFormed(s) && Possible(s, acts)
    decreases |acts|
  {
    acts == [] || (Fresh(s, acts[0]) && NeverStale(Act(s, acts[0]), acts[1..]))
  }

  /** Every step of the run is right. */
  predicate AllRight(s: State, h: History, acts: seq<Action>)
    requires Inv(s, h) && Possible(s, acts)
    decreases |acts|
  {
    acts == [] || (Right(s, h, acts[0]) && AllRight(Act(s, acts[0]), Track(s, h, acts[0]), acts[1..]))
  }

  /** A run is right if and only if no compare-and-set succeeds on what is no longer so. */
  lemma {:induction false} RunExact(s: State, h: History, acts: seq<Action>)
    requires Inv(s, h) && Possible(s, acts)
    ensures AllRight(s, h, acts) <==> NeverStale(s, acts)
    decreases |acts|
  {
    hide Act, Track, Observe, Knows, HasWriter, Filled, Fresh, Enabled, Fitting;
    if acts != [] {
      StepExact(s, h, acts[0]);
      if Right(s, h, acts[0]) { RunExact(Act(s, acts[0]), Track(s, h, acts[0]), acts[1..]); }
    }
  }

  lemma {:induction false} NeverLapsFresh(s: State, h: History, acts: seq<Action>)
    requires Inv(s, h) && Possible(s, acts) && NeverLaps(s, h, acts)
    ensures NeverStale(s, acts)
    decreases |acts|
  {
    hide Act, Track, Observe, Knows, HasWriter, Filled, Fresh, Enabled, Fitting, NoLap;
    if acts != [] {
      NoLapFresh(s, h, acts[0]);
      StepKeeps(s, h, acts[0]);
      NeverLapsFresh(Act(s, acts[0]), Track(s, h, acts[0]), acts[1..]);
    }
  }

  /** The values of the writes that succeeded, in the order they were published. */
  function Written(tr: seq<Event>): seq<Address> {
    if tr == [] then [] else (if tr[0].Put? then [tr[0].value] else []) + Written(tr[1..])
  }

  /** The values that reads returned, in order. */
  function Returned(tr: seq<Event>): seq<Address> {
    if tr == [] then [] else (if tr[0].Get? then [tr[0].value] else []) + Returned(tr[1..])
  }

  /**
   * Whatever the interleaving of any number of writers and readers: what was unread, followed by
   * what is written, is what is returned, followed by what is left unread.
   */
  lemma {:induction false} RunConserves(s: State, h: History, acts: seq<Action>)
    requires Inv(s, h) && Possible(s, acts) && NeverStale(s, acts)
    ensures
      var h2 := HistoryOf(s, h, acts);
      var tr := Trace(s, acts);
      && Inv(Exec(s, acts), h2)
      && Queue(h) + Written(tr) == Returned(tr) + Queue(h2)
      && h.log <= h2.log && h.tail + |Written(tr)| == h2.tail
      && h2.log[h.tail..h2.tail] == Written(tr)
    decreases |acts|
  {
    hide Act, Track, Observe, Knows, HasWriter, Filled, Fresh, Enabled, Fitting, Queue;
    if acts != [] {
      var a := acts[0];
      var e := Observe(s, a);
      var s1, h1 := Act(s, a), Track(s, h, a);
      var tr1 := Trace(s1, acts[1..]);
      StepRefines(s, h, a);
      RunConserves(s1, h1, acts[1..]);
      var h2 := HistoryOf(s, h, acts);
      assert Trace(s, acts) == [e] + tr1;
      Conserved(Queue(h), e, tr1, Queue(h2));
      if e.Put? {
        assert h2.log[h.tail] == h1.log[h.tail];
        assert h2.log[h.tail..h2.tail] == [e.value] + h2.log[h1.tail..h2.tail];
      }
    }
  }

  lemma Unrolled(e: Event, tr: seq<Event>)
    ensures Written([e] + tr) == (if e.Put? then [e.value] else []) + Written(tr)
    ensures Returned([e] + tr) == (if e.Get? then [e.value] else []) + Returned(tr)
  {
    assert ([e] + tr)[1..] == tr;
  }

  lemma Conserved(q: seq<Address>, e: Event, tr: seq<Event>, q2: seq<Address>)
    requires e.Get? ==> q != [] && q[0] == e.value
    requires After(q, e) + Written(tr) == Returned(tr) + q2
    ensures q + Written([e] + tr) == Returned([e] + tr) + q2
    ensures Written([e] + tr) == (if e.Put? then [e.value] else []) + Written(tr)
  {
    Unrolled(e, tr);
    hide Written, Returned;
    match e
    case Put(v) =>
      assert q + ([v] + Written(tr)) == (q + [v]) + Written(tr);
    case Get(v) =>
      assert q == [v] + q[1..];
      assert q + Written(tr) == [v] + (q[1..] + Written(tr));
      assert ([v] + Returned(tr)) + q2 == [v] + (Returned(tr) + q2);
    case _ =>
      assert [] + Written(tr) == Written(tr) && [] + Returned(tr) == Returned(tr);
  }

  /** From an empty ring: reads return, in order and each once, the first of the values written. */
  lemma ManyToMany(cap: nat, threads: nat, acts: seq<Action>)
    requires cap > 0 && Possible(Start(cap, threads), acts)
    requires NeverStale(Start(cap, threads), acts)
    ensures
      var tr := Trace(Start(cap, threads), acts);
      var h := HistoryOf(Start(cap, threads), NoHistory(threads), acts);
      && Inv(Exec(Start(cap, threads), acts), h)
      && Returned(tr) <= Written(tr) <= h.log
      && |Written(tr)| - |Returned(tr)| < cap
      && Written(tr) == Returned(tr) + Queue(h)
  {
    var s, h0 := Start(cap, threads), NoHistory(threads);
    StartInv(cap, threads);
    RunConserves(s, h0, acts);
    var h := HistoryOf(s, h0, acts);
    var tr := Trace(s, acts);
    ExecCap(s, acts);
    assert Queue(h0) + Written(tr) == Written(tr);
    assert h.log[..h.tail] == Written(tr);
  }

  /** That nothing is lapped is enough for this, though not needed. */
  lemma ManyToManyNoLaps(cap: nat, threads: nat, acts: seq<Action>)
    requires cap > 0 && Possible(Start(cap, threads), acts)
    requires NeverLaps(Start(cap, threads), NoHistory(threads), acts)
    ensures
      var tr := Trace(Start(cap, threads), acts);
      Returned(tr) <= Written(tr) && |Written(tr)| - |Returned(tr)| < cap
  {
    StartInv(cap, threads);
    NeverLapsFresh(Start(cap, threads), NoHistory(threads), acts);
    ManyToMany(cap, threads, acts);
  }

  lemma {:induction false} ExecCap(s: State, acts: seq<Action>)
    requires WellFormed(s) && Possible(s, acts)
    ensures Exec(s, acts).cap == s.cap
    decreases |acts|
  {
    if acts != [] { ExecCap(Act(s, acts[0]), acts[1..]); }
  }

  // ----- one writer and one reader -----

  /** Only 'w' writes and only 'r' reads. */
  predicate Solo(acts: seq<Action>, w: nat, r: nat) {
    forall i :: 0 <= i < |acts| ==> (acts[i].CallWrite? ==> acts[i].t == w) && (acts[i].CallRead? ==> acts[i].t == r)
  }

  predicate Writes(th: Thread) {
    th.StartWrite? || th.HeadLoaded? || th.RoomSeen? || Holds(th)
  }

  predicate Reads(th: Thread) {
    th.StartRead? || th.ReadLoaded? || th.ItemSeen? || th.Fetched?
  }

  /** With one writer and one reader, a loaded index is never stale. */
  predicate SoloInv(s: State, h: History, w: nat, r: nat) {
    && Inv(s, h) && w != r
    && (forall t :: 0 <= t < |s.threads| ==> (Writes(s.threads[t]) ==> t == w) && (Reads(s.threads[t]) ==> t == r))
    && (w < |s.threads| && (s.threads[w].HeadLoaded? || s.threads[w].RoomSeen?) ==> h.loaded[w] == h.head)
    && (r < |s.threads| && Reads(s.threads[r]) && !s.threads[r].StartRead? ==> h.loaded[r] == h.read)
  }

  lemma SoloStep(s: State, h: History, a: Action, w: nat, r: nat)
    requires SoloInv(s, h, w, r) && Enabled(s, a) && Solo([a], w, r)
    ensures NoLap(s, h, a) && Fresh(s, a)
    ensures SoloInv(Act(s, a), Track(s, h, a), w, r)
    ensures May(Queue(h), s.cap - 1, Observe(s, a))
    ensures Queue(Track(s, h, a)) == After(Queue(h), Observe(s, a))
  {
    assert [a][0] == a;
    assert Knows(s, h, a.t);
    NoLapFresh(s, h, a);
    StepRefines(s, h, a);
    SoloKeeps(s, h, a, w, r);
    if a.Go? {
      RefusalTruth(s, h, a.t);
      if s.threads[a.t].HeadLoaded? { SoloTail(s, h, w, r); }
    }
  }

  /** While the only writer reserves nothing, everything reserved is published. */
  lemma SoloTail(s: State, h: History, w: nat, r: nat)
    requires SoloInv(s, h, w, r) && w < |s.threads| && !Holds(s.threads[w])
    ensures h.tail == h.head
  {
    if h.tail < h.head {
      ReservedHasWriter(s, h);
      assert false;
    }
  }

  lemma ReservedHasWriter(s: State, h: History)
    requires Inv(s, h) && h.tail < h.head
    ensures exists t :: 0 <= t < |s.threads| && Holds(s.threads[t])
  {
    assert HasWriter(s, h, h.tail);
    assert Holds(s.threads[h.owner[h.tail]]);
  }

  lemma SoloKeeps(s: State, h: History, a: Action, w: nat, r: nat)
    requires SoloInv(s, h, w, r) && Enabled(s, a) && Solo([a], w, r)
    requires Inv(Act(s, a), Track(s, h, a))
    ensures SoloInv(Act(s, a), Track(s, h, a), w, r)
  {
    hide Knows, HasWriter, Filled;
    assert [a][0] == a;
  }

  /** Every event of a trace is one the queue allows. */
  predicate Legal(q: seq<Address>, room: int, tr: seq<Event>)
    decreases |tr|
  {
    tr == [] || (May(q, room, tr[0]) && Legal(After(q, tr[0]), room, tr[1..]))
  }

  /**
   * One writer and one reader, whatever the interleaving and however long one of them sleeps:
   * the ring is a queue of at most cap - 1 values, which refuses a write only when it is full and
   * a read only when it is empty.
   */
  lemma {:induction false} SoloRefines(s: State, h: History, acts: seq<Action>, w: nat, r: nat)
    requires SoloInv(s, h, w, r) && Possible(s, acts) && Solo(acts, w, r)
    ensures Legal(Queue(h), s.cap - 1, Trace(s, acts))
    ensures NeverLaps(s, h, acts)
    decreases |acts|
  {
    if acts != [] {
      var a := acts[0];
      SoloStep(s, h, a, w, r);
      SoloRefines(Act(s, a), Track(s, h, a), acts[1..], w, r);
      assert Trace(s, acts)[1..] == Trace(Act(s, a), acts[1..]);
    }
  }

  lemma OneToOne(cap: nat, threads: nat, acts: seq<Action>, w: nat, r: nat)
    requires cap > 0 && w != r && Possible(Start(cap, threads), acts) && Solo(acts, w, r)
    ensures Legal([], cap - 1, Trace(Start(cap, threads), acts))
  {
    StartInv(cap, threads);
    SoloRefines(Start(cap, threads), NoHistory(threads), acts, w, r);
  }

  // ----- what the assumptions exclude -----

  /** Doing 'acts' from 's' leads to 's2' and shows 'tr'. */
  predicate Leads(s: State, acts: seq<Action>, s2: State, tr: seq<Event>)
    requires WellFormed(s)
  {
    Possible(s, acts) && Exec(s, acts) == s2 && Trace(s, acts) == tr
  }

  /** And no compare-and-set on the way succeeds on what is no longer so. */
  predicate Calm(s: State, acts: seq<Action>)
    requires WellFormed(s)
  {
    Possible(s, acts) && NeverStale(s, acts)
  }

  lemma {:induction false} Append(s: State, xs: seq<Action>, m: State, tr: seq<Event>, ys: seq<Action>, s2: State, tr2: seq<Event>)
    requires WellFormed(s) && Leads(s, xs, m, tr) && Leads(m, ys, s2, tr2)
    ensures Leads(s, xs + ys, s2, tr + tr2)
    ensures Calm(s, xs + ys) <==> Calm(s, xs) && Calm(m, ys)
    decreases |xs|
  {
    if xs == [] {
      assert xs + ys == ys && tr + tr2 == tr2;
    } else {
      assert (xs + ys)[0] == xs[0] && (xs + ys)[1..] == xs[1..] + ys;
      var s1 := Act(s, xs[0]);
      Append(s1, xs[1..], m, Trace(s1, xs[1..]), ys, s2, tr2);
      assert tr == [Observe(s, xs[0])] + Trace(s1, xs[1..]);
      assert tr + tr2 == [Observe(s, xs[0])] + (Trace(s1, xs[1..]) + tr2);
    }
  }

  lemma Begin(s: State, a: Action, s2: State)
    requires WellFormed(s) && !a.Go? && Enabled(s, a) && s2 == Act(s, a)
    ensures WellFormed(s2) && Leads(s, [a], s2, [Silent]) && Calm(s, [a])
  {
    assert [a][1..] == [];
  }

  lemma OneAction(m: State, a: Action)
    requires WellFormed(m) && Enabled(m, a)
    ensures Calm(m, [a]) <==> Fresh(m, a)
  {
    var xs := [a];
    assert xs[1..] == [] && xs[0] == a;
    assert NeverStale(m, xs) <==> Fresh(m, xs[0]) && NeverStale(Act(m, xs[0]), xs[1..]);
  }

  lemma Continue(s: State, xs: seq<Action>, m: State, tr: seq<Event>, a: Action, s2: State, e: Event)
    requires WellFormed(s) && WellFormed(m) && Leads(s, xs, m, tr)
    requires Enabled(m, a) && s2 == Act(m, a) && e == Observe(m, a)
    ensures WellFormed(s2) && Leads(s, xs + [a], s2, tr + [e])
    ensures Calm(s, xs + [a]) <==> Calm(s, xs) && Fresh(m, a)
  {
    OneAction(m, a);
    assert [a][1..] == [];
    Append(s, xs, m, tr, [a], s2, [e]);
  }

  lemma Bounds(s: State)
    requires WellFormed(s)
    ensures |s.slots| == s.cap > 0 && s.whead < s.cap && s.wtail < s.cap && s.r < s.cap
  {
  }

  /** All the steps of a write by 't' that nobody disturbs. */
  function WriteAlone(t: nat, v: Address): seq<Action> {
    [CallWrite(t, v), Go(t), Go(t), Go(t), Go(t), Go(t), Go(t)]
  }

  function ReadAlone(t: nat): seq<Action> {
    [CallRead(t), Go(t), Go(t), Go(t), Go(t)]
  }

  function WroteAlone(v: Address): seq<Event> {
    [Silent, Silent, Silent, Silent, Silent, Silent, Put(v)]
  }

  function GotAlone(v: Address): seq<Event> {
    [Silent, Silent, Silent, Silent, Get(v)]
  }

  /** With no other writer at work and a place free, a write succeeds. */
  lemma UndisturbedWrite(s: State, t: nat, v: Address)
    requires WellFormed(s) && t < |s.threads| && s.threads[t].Idle?
    requires s.whead == s.wtail && Next(s.whead, s.cap) != s.r
    ensures Leads(s, WriteAlone(t, v),
      State(s.cap, Next(s.whead, s.cap), Next(s.whead, s.cap), s.r, s.slots[s.whead := v], s.threads),
      WroteAlone(v))
    ensures Calm(s, WriteAlone(t, v))
  {
    Bounds(s);
    hide WellFormed, Leads, Calm, Fitting, Possible, Exec, Trace;
    var g, c, w, w2, r, d, ts := Go(t), s.cap, s.whead, Next(s.whead, s.cap), s.r, s.slots, s.threads;
    var s1 := State(c, w, w, r, d, ts[t := StartWrite(v)]);
    var s2 := State(c, w, w, r, d, ts[t := HeadLoaded(v, w)]);
    var s3 := State(c, w, w, r, d, ts[t := RoomSeen(v, w)]);
    var s4 := State(c, w2, w, r, d, ts[t := Reserved(v, w)]);
    var s5 := State(c, w2, w, r, d[w := v], ts[t := Stored(v, w)]);
    var s6 := State(c, w2, w, r, d[w := v], ts[t := Publishing(v, w)]);
    var s7 := State(c, w2, w2, r, d[w := v], ts);
    assert ts[t := Idle] == ts;
    var quiet := [Silent];
    var a1, e1 := [CallWrite(t, v)], quiet;
    var a2, a3, a4, a5, a6 := a1 + [g], a1 + [g] + [g], a1 + [g] + [g] + [g], a1 + [g] + [g] + [g] + [g], a1 + [g] + [g] + [g] + [g] + [g];
    var e2, e3, e4, e5, e6 := e1 + quiet, e1 + quiet + quiet, e1 + quiet + quiet + quiet, e1 + quiet + quiet + quiet + quiet, e1 + quiet + quiet + quiet + quiet + quiet;
    Begin(s, CallWrite(t, v), s1);
    Continue(s, a1, s1, e1, g, s2, Silent);
    Continue(s, a2, s2, e2, g, s3, Silent);
    Continue(s, a3, s3, e3, g, s4, Silent);
    Continue(s, a4, s4, e4, g, s5, Silent);
    Continue(s, a5, s5, e5, g, s6, Silent);
    Continue(s, a6, s6, e6, g, s7, Put(v));
    assert a6 + [g] == WriteAlone(t, v);
    assert e6 + [Put(v)] == WroteAlone(v);
  }

  /** With no other reader at work, a read takes the first unread value. */
  lemma UndisturbedRead(s: State, t: nat)
    requires WellFormed(s) && t < |s.threads| && s.threads[t].Idle? && s.r != s.wtail
    ensures Leads(s, ReadAlone(t),
      State(s.cap, s.whead, s.wtail, Next(s.r, s.cap), s.slots, s.threads),
      GotAlone(s.slots[s.r]))
    ensures Calm(s, ReadAlone(t))
  {
    Bounds(s);
    hide WellFormed, Leads, Calm, Fitting, Possible, Exec, Trace;
    var g, c, w, wt, r, d, ts := Go(t), s.cap, s.whead, s.wtail, s.r, s.slots, s.threads;
    var s1 := State(c, w, wt, r, d, ts[t := StartRead]);
    var s2 := State(c, w, wt, r, d, ts[t := ReadLoaded(r)]);
    var s3 := State(c, w, wt, r, d, ts[t := ItemSeen(r)]);
    var s4 := State(c, w, wt, r, d, ts[t := Fetched(r, d[r])]);
    var s5 := State(c, w, wt, Next(r, c), d, ts);
    assert ts[t := Idle] == ts;
    var quiet := [Silent];
    var a1, e1 := [CallRead(t)], quiet;
    var a2, a3, a4 := a1 + [g], a1 + [g] + [g], a1 + [g] + [g] + [g];
    var e2, e3, e4 := e1 + quiet, e1 + quiet + quiet, e1 + quiet + quiet + quiet;
    Begin(s, CallRead(t), s1);
    Continue(s, a1, s1, e1, g, s2, Silent);
    Continue(s, a2, s2, e2, g, s3, Silent);
    Continue(s, a3, s3, e3, g, s4, Silent);
    Continue(s, a4, s4, e4, g, s5, Get(d[r]));
    assert a4 + [g] == ReadAlone(t);
    assert e4 + [Get(d[r])] == GotAlone(d[r]);
  }

  /** A value written to an empty ring comes back. */
  lemma WriteThenRead(s: State, t: nat, u: nat, v: Address)
    requires WellFormed(s) && s.cap > 1 && t < |s.threads| && s.threads[t].Idle? && u < |s.threads| && s.threads[u].Idle?
    requires s.whead == s.wtail == s.r
    ensures Leads(s, WriteAlone(t, v) + ReadAlone(u),
      State(s.cap, Next(s.r, s.cap), Next(s.r, s.cap), Next(s.r, s.cap), s.slots[s.r := v], s.threads),
      WroteAlone(v) + GotAlone(v))
  {
    Bounds(s);
    hide Leads, Fitting;
    if Next(s.r, s.cap) == s.r {
      AddMod(s.r, 1, s.cap);
      SameLap(s.r + 1, s.r, s.cap);
    }
    var s1 := State(s.cap, Next(s.r, s.cap), Next(s.r, s.cap), s.r, s.slots[s.r := v], s.threads);
    var s2 := State(s.cap, Next(s.r, s.cap), Next(s.r, s.cap), Next(s.r, s.cap), s.slots[s.r := v], s.threads);
    UndisturbedWrite(s, t, v);
    UndisturbedRead(s1, u);
    Append(s, WriteAlone(t, v), s1, WroteAlone(v), ReadAlone(u), s2, GotAlone(v));
  }

  /**
   * Two writers and a reader, two slots.  Writer 0 loads the head and sleeps; writer 1 writes and
   * the reader reads; writer 0 is then refused, though the ring is empty and nothing has lapped.
   */
  lemma FullThoughEmpty()
    ensures Leads(Start(2, 3), [CallWrite(0, 7), Go(0)] + (WriteAlone(1, 8) + ReadAlone(2)) + [Go(0)],
      State(2, 1, 1, 1, [8, 0], [Idle, Idle, Idle]),
      [Silent, Silent] + (WroteAlone(8) + GotAlone(8)) + [PutFull])
  {
    var s0 := Start(2, 3);
    var s2 := State(2, 0, 0, 0, [0, 0], [HeadLoaded(7, 0), Idle, Idle]);
    var s4 := State(2, 1, 1, 1, [8, 0], [HeadLoaded(7, 0), Idle, Idle]);
    var s5 := State(2, 1, 1, 1, [8, 0], [Idle, Idle, Idle]);
    HeadLoads();
    hide Leads, WriteAlone, ReadAlone, WroteAlone, GotAlone, Start;
    assert [0, 0][0 := 8] == [8, 0] && [8, 0][0] == 8 && Next(0, 2) == 1;
    WriteThenRead(s2, 1, 2, 8);
    var a2, e2 := [CallWrite(0, 7), Go(0)], [Silent, Silent];
    var aw, ew := WriteAlone(1, 8) + ReadAlone(2), WroteAlone(8) + GotAlone(8);
    Append(s0, a2, s2, e2, aw, s4, ew);
    RefusedWrite(s4, 0, s5);
    Append(s0, a2 + aw, s4, e2 + ew, [Go(0)], s5, [PutFull]);
  }

  /** A writer that meets the reading index is refused, whatever the other indices are by then. */
  lemma RefusedWrite(s: State, t: nat, s2: State)
    requires WellFormed(s) && t < |s.threads| && s.threads[t].HeadLoaded?
    requires Next(s.threads[t].at, s.cap) == s.r && s2 == Become(s, t, Idle)
    ensures Leads(s, [Go(t)], s2, [PutFull])
  {
    assert [Go(t)][1..] == [];
  }

  lemma HeadLoads()
    ensures Leads(Start(2, 3), [CallWrite(0, 7), Go(0)],
      State(2, 0, 0, 0, [0, 0], [HeadLoaded(7, 0), Idle, Idle]), [Silent, Silent])
    ensures Calm(Start(2, 3), [CallWrite(0, 7), Go(0)])
  {
    hide Leads, Calm;
    var s0 := Start(2, 3);
    assert s0 == State(2, 0, 0, 0, [0, 0], [Idle, Idle, Idle]);
    var s1 := State(2, 0, 0, 0, [0, 0], [StartWrite(7), Idle, Idle]);
    var s2 := State(2, 0, 0, 0, [0, 0], [HeadLoaded(7, 0), Idle, Idle]);
    Begin(s0, CallWrite(0, 7), s1);
    var a1, e1 := [CallWrite(0, 7)], [Silent];
    Continue(s0, a1, s1, e1, Go(0), s2, Silent);
    assert a1 + [Go(0)] == [CallWrite(0, 7), Go(0)] && e1 + [Silent] == [Silent, Silent];
  }

  /** Writer 0 has seen a free place and sleeps while the head goes all the way round. */
  function Lapped(last: seq<Action>): seq<Action> {
    [CallWrite(0, 7), Go(0), Go(0)] + WriteAlone(1, 8) + ReadAlone(2) + WriteAlone(1, 9) + last
  }

  function LappedTrace(last: seq<Event>): seq<Event> {
    [Silent, Silent, Silent] + WroteAlone(8) + GotAlone(8) + WroteAlone(9) + last
  }

  lemma Lap(last: seq<Action>, s2: State, tr: seq<Event>)
    requires Leads(State(2, 0, 0, 1, [8, 9], [RoomSeen(7, 0), Idle, Idle]), last, s2, tr)
    ensures Leads(Start(2, 3), Lapped(last), s2, LappedTrace(tr))
    ensures Calm(Start(2, 3), Lapped(last)) <==> Calm(State(2, 0, 0, 1, [8, 9], [RoomSeen(7, 0), Idle, Idle]), last)
  {
    hide Leads, Calm, WriteAlone, ReadAlone, WroteAlone, GotAlone;
    var s0 := Start(2, 3);
    var s3 := State(2, 0, 0, 0, [0, 0], [RoomSeen(7, 0), Idle, Idle]);
    var s4 := State(2, 1, 1, 0, [8, 0], [RoomSeen(7, 0), Idle, Idle]);
    var s5 := State(2, 1, 1, 1, [8, 0], [RoomSeen(7, 0), Idle, Idle]);
    var s6 := State(2, 0, 0, 1, [8, 9], [RoomSeen(7, 0), Idle, Idle]);
    LapBegins();
    assert [0, 0][0 := 8] == [8, 0] && [8, 0][0] == 8 && [8, 0][1 := 9] == [8, 9];
    assert Next(0, 2) == 1 && Next(1, 2) == 0;
    UndisturbedWrite(s3, 1, 8);
    UndisturbedRead(s4, 2);
    UndisturbedWrite(s5, 1, 9);
    var a3, e3 := [CallWrite(0, 7), Go(0), Go(0)], [Silent, Silent, Silent];
    var a4, e4 := a3 + WriteAlone(1, 8), e3 + WroteAlone(8);
    var a5, e5 := a4 + ReadAlone(2), e4 + GotAlone(8);
    var a6, e6 := a5 + WriteAlone(1, 9), e5 + WroteAlone(9);
    Append(s0, a3, s3, e3, WriteAlone(1, 8), s4, WroteAlone(8));
    Append(s0, a4, s4, e4, ReadAlone(2), s5, GotAlone(8));
    Append(s0, a5, s5, e5, WriteAlone(1, 9), s6, WroteAlone(9));
    Append(s0, a6, s6, e6, last, s2, tr);
  }

  /**
   * What a lap may do.  The compare-and-set of writer 0 succeeds though there is no room by then,
   * and two written values can no longer be read.
   */
  lemma LapLosesValues()
    ensures
      var last := [Go(0), Go(0), Go(0), Go(0)] + [CallRead(2), Go(2), Go(2)];
      && Leads(Start(2, 3), Lapped(last), State(2, 1, 1, 1, [7, 9], [Idle, Idle, Idle]),
        LappedTrace([Silent, Silent, Silent, Put(7)] + [Silent, Silent, GetEmpty]))
      && !Calm(Start(2, 3), Lapped(last))
  {
    hide Leads, Calm, Lapped, LappedTrace;
    var s6 := State(2, 0, 0, 1, [8, 9], [RoomSeen(7, 0), Idle, Idle]);
    var s7 := State(2, 1, 1, 1, [7, 9], [Idle, Idle, Idle]);
    LapEnds(1);
    RefusedRead(s7, 2);
    Append(s6, [Go(0), Go(0), Go(0), Go(0)], s7, [Silent, Silent, Silent, Put(7)], [CallRead(2), Go(2), Go(2)], s7, [Silent, Silent, GetEmpty]);
    Lap([Go(0), Go(0), Go(0), Go(0)] + [CallRead(2), Go(2), Go(2)], s7,
      [Silent, Silent, Silent, Put(7)] + [Silent, Silent, GetEmpty]);
  }

  /** The same lap, but with the second value read in time: nothing is lost. */
  lemma LapHarmless()
    ensures
      var last := ReadAlone(2) + [Go(0), Go(0), Go(0), Go(0)] + ReadAlone(2);
      && Leads(Start(2, 3), Lapped(last), State(2, 1, 1, 1, [7, 9], [Idle, Idle, Idle]),
        LappedTrace(GotAlone(9) + [Silent, Silent, Silent, Put(7)] + GotAlone(7)))
      && Calm(Start(2, 3), Lapped(last))
      && !NeverLaps(Start(2, 3), NoHistory(3), Lapped(last))
  {
    hide Leads, Calm, Lapped, LappedTrace, ReadAlone, GotAlone, NeverLaps;
    var s6 := State(2, 0, 0, 1, [8, 9], [RoomSeen(7, 0), Idle, Idle]);
    var s7 := State(2, 0, 0, 0, [8, 9], [RoomSeen(7, 0), Idle, Idle]);
    var s8 := State(2, 1, 1, 0, [7, 9], [Idle, Idle, Idle]);
    var s9 := State(2, 1, 1, 1, [7, 9], [Idle, Idle, Idle]);
    var go, put := [Go(0), Go(0), Go(0), Go(0)], [Silent, Silent, Silent, Put(7)];
    assert Next(0, 2) == 1 && Next(1, 2) == 0 && [8, 9][1] == 9 && [7, 9][0] == 7;
    UndisturbedRead(s6, 2);
    LapEnds(0);
    UndisturbedRead(s8, 2);
    Append(s6, ReadAlone(2), s7, GotAlone(9), go, s8, put);
    Append(s6, ReadAlone(2) + go, s8, GotAlone(9) + put, ReadAlone(2), s9, GotAlone(7));
    Lap(ReadAlone(2) + go + ReadAlone(2), s9, GotAlone(9) + put + GotAlone(7));
    Lap(ReadAlone(2), s7, GotAlone(9));
    Append(s7, go, s8, put, ReadAlone(2), s9, GotAlone(7));
    LapIsOne(ReadAlone(2) + go + ReadAlone(2));
  }

  /**
   * A reader that sleeps through a lap.  Reader 2 has fetched 8; then 8 and 9 are read and 'v' is
   * written to the slot of the 8.  Its compare-and-set succeeds and it returns 8, which is wrong
   * unless 'v' is 8 too.
   */
  lemma StaleRead(v: Address)
    ensures
      var sleep, run := [CallRead(2), Go(2), Go(2), Go(2)], ReadAlone(1) + WriteAlone(0, 9) + ReadAlone(1) + WriteAlone(0, v);
      && Leads(Start(2, 3), WriteAlone(0, 8) + sleep + run + [Go(2)], State(2, 1, 1, 1, [v, 9], [Idle, Idle, Idle]),
        WroteAlone(8) + [Silent, Silent, Silent, Silent] + (GotAlone(8) + WroteAlone(9) + GotAlone(9) + WroteAlone(v)) + [Get(8)])
      && (Calm(Start(2, 3), WriteAlone(0, 8) + sleep + run + [Go(2)]) <==> v == 8)
  {
    hide Leads, Calm, WriteAlone, ReadAlone, WroteAlone, GotAlone;
    var s0 := Start(2, 3);
    var s1 := State(2, 1, 1, 0, [8, 0], [Idle, Idle, Idle]);
    var s2 := State(2, 1, 1, 0, [8, 0], [Idle, Idle, Fetched(0, 8)]);
    var s6 := State(2, 1, 1, 0, [v, 9], [Idle, Idle, Fetched(0, 8)]);
    var s7 := State(2, 1, 1, 1, [v, 9], [Idle, Idle, Idle]);
    var sleep, slept := [CallRead(2), Go(2), Go(2), Go(2)], [Silent, Silent, Silent, Silent];
    var run := ReadAlone(1) + WriteAlone(0, 9) + ReadAlone(1) + WriteAlone(0, v);
    var ran := GotAlone(8) + WroteAlone(9) + GotAlone(9) + WroteAlone(v);
    assert s0 == State(2, 0, 0, 0, [0, 0], [Idle, Idle, Idle]) && Next(0, 2) == 1 && [0, 0][0 := 8] == [8, 0];
    UndisturbedWrite(s0, 0, 8);
    ReaderSleeps();
    LapUnderReader(v);
    Append(s0, WriteAlone(0, 8), s1, WroteAlone(8), sleep, s2, slept);
    Append(s0, WriteAlone(0, 8) + sleep, s2, WroteAlone(8) + slept, run, s6, ran);
    Continue(s0, WriteAlone(0, 8) + sleep + run, s6, WroteAlone(8) + slept + ran, Go(2), s7, Get(8));
  }

  lemma ReaderSleeps()
    ensures
      var s, sleep := State(2, 1, 1, 0, [8, 0], [Idle, Idle, Idle]), [CallRead(2), Go(2), Go(2), Go(2)];
      && Leads(s, sleep, State(2, 1, 1, 0, [8, 0], [Idle, Idle, Fetched(0, 8)]), [Silent, Silent, Silent, Silent])
      && Calm(s, sleep)
  {
    hide Leads, Calm;
    var s0 := State(2, 1, 1, 0, [8, 0], [Idle, Idle, Idle]);
    var s1 := State(2, 1, 1, 0, [8, 0], [Idle, Idle, StartRead]);
    var s2 := State(2, 1, 1, 0, [8, 0], [Idle, Idle, ReadLoaded(0)]);
    var s3 := State(2, 1, 1, 0, [8, 0], [Idle, Idle, ItemSeen(0)]);
    var s4 := State(2, 1, 1, 0, [8, 0], [Idle, Idle, Fetched(0, 8)]);
    var a1, e1 := [CallRead(2)], [Silent];
    Begin(s0, CallRead(2), s1);
    Continue(s0, a1, s1, e1, Go(2), s2, Silent);
    Continue(s0, a1 + [Go(2)], s2, e1 + [Silent], Go(2), s3, Silent);
    Continue(s0, a1 + [Go(2)] + [Go(2)], s3, e1 + [Silent] + [Silent], Go(2), s4, Silent);
    assert a1 + [Go(2)] + [Go(2)] + [Go(2)] == [CallRead(2), Go(2), Go(2), Go(2)];
    assert e1 + [Silent] + [Silent] + [Silent] == [Silent, Silent, Silent, Silent];
  }

  lemma LapUnderReader(v: Address)
    ensures
      var s, run := State(2, 1, 1, 0, [8, 0], [Idle, Idle, Fetched(0, 8)]), ReadAlone(1) + WriteAlone(0, 9) + ReadAlone(1) + WriteAlone(0, v);
      && Leads(s, run, State(2, 1, 1, 0, [v, 9], [Idle, Idle, Fetched(0, 8)]),
        GotAlone(8) + WroteAlone(9) + GotAlone(9) + WroteAlone(v))
      && Calm(s, run)
  {
    hide Leads, Calm, WriteAlone, ReadAlone, WroteAlone, GotAlone;
    var ts := [Idle, Idle, Fetched(0, 8)];
    var s2, s3 := State(2, 1, 1, 0, [8, 0], ts), State(2, 1, 1, 1, [8, 0], ts);
    var s4, s5 := State(2, 0, 0, 1, [8, 9], ts), State(2, 0, 0, 0, [8, 9], ts);
    var s6 := State(2, 1, 1, 0, [v, 9], ts);
    assert Next(0, 2) == 1 && Next(1, 2) == 0 && [8, 0][1 := 9] == [8, 9] && [8, 9][0 := v] == [v, 9];
    assert [8, 0][0] == 8 && [8, 9][1] == 9;
    UndisturbedRead(s2, 1);
    UndisturbedWrite(s3, 0, 9);
    UndisturbedRead(s4, 1);
    UndisturbedWrite(s5, 0, v);
    Append(s2, ReadAlone(1), s3, GotAlone(8), WriteAlone(0, 9), s4, WroteAlone(9));
    Append(s2, ReadAlone(1) + WriteAlone(0, 9), s4, GotAlone(8) + WroteAlone(9), ReadAlone(1), s5, GotAlone(9));
    Append(s2, ReadAlone(1) + WriteAlone(0, 9) + ReadAlone(1), s5, GotAlone(8) + WroteAlone(9) + GotAlone(9), WriteAlone(0, v), s6, WroteAlone(v));
  }

  lemma LapBegins()
    ensures Leads(Start(2, 3), [CallWrite(0, 7), Go(0), Go(0)],
      State(2, 0, 0, 0, [0, 0], [RoomSeen(7, 0), Idle, Idle]), [Silent, Silent, Silent])
    ensures Calm(Start(2, 3), [CallWrite(0, 7), Go(0), Go(0)])
  {
    hide Leads, Calm;
    HeadLoads();
    var s2 := State(2, 0, 0, 0, [0, 0], [HeadLoaded(7, 0), Idle, Idle]);
    var s3 := State(2, 0, 0, 0, [0, 0], [RoomSeen(7, 0), Idle, Idle]);
    var a2, e2 := [CallWrite(0, 7), Go(0)], [Silent, Silent];
    Continue(Start(2, 3), a2, s2, e2, Go(0), s3, Silent);
    assert a2 + [Go(0)] == [CallWrite(0, 7), Go(0), Go(0)] && e2 + [Silent] == [Silent, Silent, Silent];
  }

  lemma LapEnds(r: nat)
    requires r < 2
    ensures
      var s := State(2, 0, 0, r, [8, 9], [RoomSeen(7, 0), Idle, Idle]);
      && Leads(s, [Go(0), Go(0), Go(0), Go(0)], State(2, 1, 1, r, [7, 9], [Idle, Idle, Idle]), [Silent, Silent, Silent, Put(7)])
      && (Calm(s, [Go(0), Go(0), Go(0), Go(0)]) <==> r == 0)
  {
    hide Leads, Calm;
    var s0 := State(2, 0, 0, r, [8, 9], [RoomSeen(7, 0), Idle, Idle]);
    var s1 := State(2, 1, 0, r, [8, 9], [Reserved(7, 0), Idle, Idle]);
    var s2 := State(2, 1, 0, r, [7, 9], [Stored(7, 0), Idle, Idle]);
    var s3 := State(2, 1, 0, r, [7, 9], [Publishing(7, 0), Idle, Idle]);
    var s4 := State(2, 1, 1, r, [7, 9], [Idle, Idle, Idle]);
    Nowhere(s0);
    Continue(s0, [], s0, [], Go(0), s1, Silent);
    var g, e := [] + [Go(0)], [] + [Silent];
    Continue(s0, g, s1, e, Go(0), s2, Silent);
    Continue(s0, g + [Go(0)], s2, e + [Silent], Go(0), s3, Silent);
    Continue(s0, g + [Go(0)] + [Go(0)], s3, e + [Silent] + [Silent], Go(0), s4, Put(7));
    assert g + [Go(0)] + [Go(0)] + [Go(0)] == [Go(0), Go(0), Go(0), Go(0)];
    assert e + [Silent] + [Silent] + [Put(7)] == [Silent, Silent, Silent, Put(7)];
  }

  lemma {:induction false} HasWritten(tr: seq<Event>, i: nat)
    requires i < |tr| && tr[i].Put?
    ensures Written(tr) != []
  {
    if i > 0 { HasWritten(tr[1..], i - 1); }
  }

  lemma FirstLoaded(mid: seq<Action>)
    requires WellFormed(Start(2, 3)) && Possible(Start(2, 3), [CallWrite(0, 7), Go(0), Go(0)] + mid)
    requires forall i :: 0 <= i < |mid| ==> mid[i].t != 0
    ensures
      var h := HistoryOf(Start(2, 3), NoHistory(3), [CallWrite(0, 7), Go(0), Go(0)] + mid);
      |h.loaded| == 3 && h.loaded[0] == 0
  {
    var s0, h0, first := Start(2, 3), NoHistory(3), [CallWrite(0, 7), Go(0), Go(0)];
    var s1, h1 := Act(s0, CallWrite(0, 7)), Track(s0, h0, CallWrite(0, 7));
    var s2, h2 := Act(s1, Go(0)), Track(s1, h1, Go(0));
    var s3, h3 := Act(s2, Go(0)), Track(s2, h2, Go(0));
    assert h3.loaded[0] == 0;
    var all := first + mid;
    assert all[0] == CallWrite(0, 7) && all[1..] == [Go(0), Go(0)] + mid;
    assert ([Go(0), Go(0)] + mid)[1..] == [Go(0)] + mid && ([Go(0)] + mid)[1..] == mid;
    assert HistoryOf(s0, h0, all) == HistoryOf(s1, h1, [Go(0), Go(0)] + mid);
    assert HistoryOf(s1, h1, [Go(0), Go(0)] + mid) == HistoryOf(s2, h2, [Go(0)] + mid);
    assert HistoryOf(s2, h2, [Go(0)] + mid) == HistoryOf(s3, h3, mid);
    hide Act, Track, HistoryOf;
    LoadedKept(s3, h3, mid, 0);
  }

  /** The head has gone round while writer 0 still holds what it loaded at first. */
  lemma LapIsOne(last: seq<Action>)
    requires last == ReadAlone(2) + [Go(0), Go(0), Go(0), Go(0)] + ReadAlone(2)
    requires Leads(Start(2, 3), Lapped(ReadAlone(2)), State(2, 0, 0, 0, [8, 9], [RoomSeen(7, 0), Idle, Idle]),
      LappedTrace(GotAlone(9)))
    requires Calm(Start(2, 3), Lapped(ReadAlone(2))) && Calm(Start(2, 3), Lapped(last))
    requires Calm(State(2, 0, 0, 0, [8, 9], [RoomSeen(7, 0), Idle, Idle]), [Go(0), Go(0), Go(0), Go(0)] + ReadAlone(2))
    ensures !NeverLaps(Start(2, 3), NoHistory(3), Lapped(last))
  {
    hide Lapped, LappedTrace, ReadAlone, GotAlone, Act, Track, Written, Returned, Trace, Start, NoHistory;
    var s0, h0, x, end := Start(2, 3), NoHistory(3), Lapped(ReadAlone(2)), [Go(0), Go(0), Go(0), Go(0)] + ReadAlone(2);
    var s7 := State(2, 0, 0, 0, [8, 9], [RoomSeen(7, 0), Idle, Idle]);
    LappedParts(last, end);
    StartInv(2, 3);
    RunConserves(s0, h0, x);
    LappedWritten();
    var h := HistoryOf(s0, h0, x);
    HistoryAppend(s0, h0, x, end);
    HeadMoved(s7, h, end);
  }

  lemma HeadMoved(s: State, h: History, end: seq<Action>)
    requires Inv(s, h) && s.whead == 0 && s.cap == 2 && |s.threads| > 0 && s.threads[0].RoomSeen?
    requires h.loaded[0] == 0 && h.tail > 0 && Possible(s, end) && end != [] && end[0] == Go(0)
    ensures !NeverLaps(s, h, end)
  {
    hide Knows, HasWriter, Filled, Act, Track;
  }

  lemma LappedWritten()
    ensures Written(LappedTrace(GotAlone(9))) != []
  {
    assert LappedTrace(GotAlone(9))[9] == Put(8);
    HasWritten(LappedTrace(GotAlone(9)), 9);
  }

  lemma LappedParts(last: seq<Action>, end: seq<Action>)
    requires last == ReadAlone(2) + [Go(0), Go(0), Go(0), Go(0)] + ReadAlone(2)
    requires end == [Go(0), Go(0), Go(0), Go(0)] + ReadAlone(2)
    requires Calm(Start(2, 3), Lapped(ReadAlone(2)))
    ensures Lapped(last) == Lapped(ReadAlone(2)) + end && end[0] == Go(0)
    ensures var h := HistoryOf(Start(2, 3), NoHistory(3), Lapped(ReadAlone(2))); |h.loaded| == 3 && h.loaded[0] == 0
    ensures NoHistory(3).tail == 0 && |NoHistory(3).loaded| == |Start(2, 3).threads|
  {
    hide HistoryOf, Possible, NeverStale;
    var mid := WriteAlone(1, 8) + ReadAlone(2) + WriteAlone(1, 9) + ReadAlone(2);
    assert Lapped(ReadAlone(2)) == [CallWrite(0, 7), Go(0), Go(0)] + mid;
    FirstLoaded(mid);
  }

  lemma Nowhere(s: State)
    requires WellFormed(s)
    ensures Leads(s, [], s, []) && Calm(s, [])
  {
  }

  lemma {:induction false} HistoryAppend(s: State, h: History, xs: seq<Action>, ys: seq<Action>)
    requires WellFormed(s) && |h.loaded| == |s.threads| && Possible(s, xs) && Possible(Exec(s, xs), ys)
    ensures Possible(s, xs + ys) && |HistoryOf(s, h, xs).loaded| == |Exec(s, xs).threads|
    ensures HistoryOf(s, h, xs + ys) == HistoryOf(Exec(s, xs), HistoryOf(s, h, xs), ys)
    ensures NeverLaps(s, h, xs + ys) ==> NeverLaps(s, h, xs) && NeverLaps(Exec(s, xs), HistoryOf(s, h, xs), ys)
    decreases |xs|
  {
    hide Act, Track, Enabled, NoLap;
    if xs == [] {
      assert xs + ys == ys;
    } else {
      assert (xs + ys)[0] == xs[0] && (xs + ys)[1..] == xs[1..] + ys;
      HistoryAppend(Act(s, xs[0]), Track(s, h, xs[0]), xs[1..], ys);
    }
  }

  /** Nobody else changes what a thread has loaded. */
  lemma {:induction false} LoadedKept(s: State, h: History, acts: seq<Action>, t: nat)
    requires WellFormed(s) && |h.loaded| == |s.threads| && Possible(s, acts) && t < |s.threads|
    requires forall i :: 0 <= i < |acts| ==> acts[i].t != t
    ensures |HistoryOf(s, h, acts).loaded| == |s.threads| && HistoryOf(s, h, acts).loaded[t] == h.loaded[t]
    decreases |acts|
  {
    if acts != [] {
      LoadedKept(Act(s, acts[0]), Track(s, h, acts[0]), acts[1..], t);
    }
  }

  /** With the indices equal, a read is refused. */
  lemma RefusedRead(s: State, t: nat)
    requires WellFormed(s) && t < |s.threads| && s.threads[t].Idle? && s.r == s.wtail
    ensures Leads(s, [CallRead(t), Go(t), Go(t)], s, [Silent, Silent, GetEmpty])
  {
    Bounds(s);
    hide WellFormed, Leads;
    var s1 := State(s.cap, s.whead, s.wtail, s.r, s.slots, s.threads[t := StartRead]);
    var s2 := State(s.cap, s.whead, s.wtail, s.r, s.slots, s.threads[t := ReadLoaded(s.r)]);
    assert s.threads[t := Idle] == s.threads;
    var a1, a2, e1, e2 := [CallRead(t)], [CallRead(t)] + [Go(t)], [Silent], [Silent] + [Silent];
    Begin(s, CallRead(t), s1);
    Continue(s, a1, s1, e1, Go(t), s2, Silent);
    Continue(s, a2, s2, e2, Go(t), s, GetEmpty);
    assert a2 + [Go(t)] == [CallRead(t), Go(t), Go(t)] && e2 + [GetEmpty] == [Silent, Silent, GetEmpty];
  }
}
