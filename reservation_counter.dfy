/**
 * The reservation engine: a bounded waiting line ordered by priority class,
 * a fixed table of fifteen service counters (some specialised by reservation
 * type), dispatch of the next suitable reservation to a counter, and the
 * confirm / cancel transitions that keep the running totals.
 */
module ReservationCounter {
  import opened Common

  const MaxQueueSize: int := 200
  const MaxCounters: int := 15
  const FirstReservationId: int := 1001
  const MinutesPerReservation: int := 4

  datatype ReservationType = Movie | Flight | Train | Event | Hotel
  datatype Priority = Normal | Premium | Vip | Emergency
  datatype TicketStatus = Pending | Confirmed | Cancelled | CheckedIn | Completed

  /** The numeric value of the priority enumeration: larger is served first. */
  function Rank(p: Priority): int {
    match p
    case Normal => 1
    case Premium => 2
    case Vip => 3
    case Emergency => 4
  }

  /** A reservation; the amount is kept in integer cents. */
  datatype Reservation = Reservation(
    id: int,
    kind: ReservationType,
    tickets: int,
    amountCents: int,
    priority: Priority,
    status: TicketStatus,
    estimatedWait: int)

  /** A service counter; `specialization == None` is the source's 0, "all types". */
  datatype Counter = Counter(
    id: int,
    specialization: Option<ReservationType>,
    current: Option<Reservation>,
    isActive: bool,
    totalProcessed: int)

  /** Everything an observer of the queue system can see. */
  datatype Snapshot = Snapshot(
    queue: seq<Reservation>,
    size: int,
    nextReservationId: int,
    counters: seq<Counter>,
    totalReservations: int,
    totalConfirmed: int,
    totalCancelled: int,
    totalRevenue: int)

  datatype DispatchOutcome =
    | Dispatched(reservation: Reservation)
    | QueueEmpty
    | InvalidCounter
    | CounterInactive
    | CounterBusy

  datatype ServiceOutcome = Served(reservation: Reservation) | UnknownCounter | NothingInProgress

  datatype SearchOutcome =
    | InQueue(found: Reservation)
    | AtCounter(counterId: int, found: Reservation)
    | NotFound

  // ---------------------------------------------------------------------
  // Specification of the waiting line

  /** No entry is ahead of an entry of strictly higher priority. */
  ghost predicate PriorityOrdered(q: seq<Reservation>) {
    forall i, j :: 0 <= i < j < |q| ==> Rank(q[i].priority) >= Rank(q[j].priority)
  }

  /** Number of queued entries whose priority is at least `p`. */
  function CountAtLeast(q: seq<Reservation>, p: Priority): (n: nat)
    ensures n <= |q|
  {
    if q == [] then 0
    else CountAtLeast(q[..|q| - 1], p) + (if Rank(q[|q| - 1].priority) >= Rank(p) then 1 else 0)
  }

  /**
   * The advisory wait: four minutes per entry of at least the same priority,
   * scaled down for the faster classes (x0.2, x0.5, x0.7, truncated).
   */
  function WaitEstimate(q: seq<Reservation>, p: Priority): (w: int)
    ensures 0 <= w <= CountAtLeast(q, p) * MinutesPerReservation
  {
    var base := CountAtLeast(q, p) * MinutesPerReservation;
    match p
    case Emergency => base / 5
    case Vip => base / 2
    case Premium => base * 7 / 10
    case Normal => base
  }

  /** Length of the leading run of entries whose priority is at least `p`. */
  function StableIndex(q: seq<Reservation>, p: Priority): (k: nat)
    ensures k <= |q|
    ensures forall i :: 0 <= i < k ==> Rank(q[i].priority) >= Rank(p)
    ensures k < |q| ==> Rank(q[k].priority) < Rank(p)
  {
    if q == [] || Rank(q[0].priority) < Rank(p) then 0 else 1 + StableIndex(q[1..], p)
  }

  /** Where a new reservation of priority `p` is spliced in. */
  function AdmitIndex(q: seq<Reservation>, p: Priority): nat {
    if p == Emergency then 0 else StableIndex(q, p)
  }

  /** Index of the first entry of the given type, or |q| when there is none. */
  function FirstOfKind(q: seq<Reservation>, t: ReservationType): (k: nat)
    ensures k <= |q|
    ensures forall i :: 0 <= i < k ==> q[i].kind != t
    ensures k < |q| ==> q[k].kind == t
  {
    if q == [] then 0 else if q[0].kind == t then 0 else 1 + FirstOfKind(q[1..], t)
  }

  /** The entry a counter with the given specialisation takes from a non-empty queue. */
  function PickIndex(q: seq<Reservation>, spec: Option<ReservationType>): nat {
    if spec.Some? && FirstOfKind(q, spec.value) < |q| then FirstOfKind(q, spec.value) else 0
  }

  /** Number of counters that hold a reservation. */
  function Busy(cs: seq<Counter>): (n: nat)
    ensures n <= |cs|
  {
    if cs == [] then 0
    else Busy(cs[..|cs| - 1]) + (if cs[|cs| - 1].current.Some? then 1 else 0)
  }

  // ---------------------------------------------------------------------
  // Lemmas about the specification

  /** Normal gets the unscaled base exactly, and no estimate exceeds four minutes per queued entry. */
  lemma WaitEstimateBounds(q: seq<Reservation>, p: Priority)
    ensures p == Normal ==> WaitEstimate(q, p) == CountAtLeast(q, p) * MinutesPerReservation
    ensures WaitEstimate(q, p) <= MinutesPerReservation * |q|
  {
  }

  lemma {:induction false} CountAtLeastAppend(a: seq<Reservation>, b: seq<Reservation>, p: Priority)
    ensures CountAtLeast(a + b, p) == CountAtLeast(a, p) + CountAtLeast(b, p)
    decreases |b|
  {
    if b == [] {
      assert a + b == a;
    } else {
      var b' := b[..|b| - 1];
      assert (a + b)[..|a + b| - 1] == a + b';
      CountAtLeastAppend(a, b', p);
    }
  }

  lemma {:induction false} CountAtLeastUniform(q: seq<Reservation>, p: Priority, all: bool)
    requires forall i :: 0 <= i < |q| ==> (Rank(q[i].priority) >= Rank(p)) == all
    ensures CountAtLeast(q, p) == if all then |q| else 0
    decreases |q|
  {
    if q != [] {
      CountAtLeastUniform(q[..|q| - 1], p, all);
    }
  }

  /**
   * In a priority-ordered queue the entries counted by the wait estimate are
   * exactly those ahead of the place where a non-Emergency reservation is put.
   */
  lemma {:induction false} WaitCountsEntriesAhead(q: seq<Reservation>, p: Priority)
    requires PriorityOrdered(q)
    requires p != Emergency
    ensures CountAtLeast(q, p) == AdmitIndex(q, p)
  {
    var k := StableIndex(q, p);
    assert q == q[..k] + q[k..];
    CountAtLeastAppend(q[..k], q[k..], p);
    RunCounted(q, p);
    RestNotCounted(q, p);
  }

  /** Every entry of the leading run counts towards the wait. */
  lemma RunCounted(q: seq<Reservation>, p: Priority)
    ensures CountAtLeast(q[..StableIndex(q, p)], p) == StableIndex(q, p)
  {
    var ahead := q[..StableIndex(q, p)];
    forall i | 0 <= i < |ahead|
      ensures Rank(ahead[i].priority) >= Rank(p)
    {
      assert ahead[i] == q[i];
    }
    CountAtLeastUniform(ahead, p, true);
  }

  /** In a priority-ordered queue no entry after the leading run counts towards the wait. */
  lemma RestNotCounted(q: seq<Reservation>, p: Priority)
    requires PriorityOrdered(q)
    ensures CountAtLeast(q[StableIndex(q, p)..], p) == 0
  {
    var k := StableIndex(q, p);
    var behind := q[k..];
    forall i | 0 <= i < |behind|
      ensures Rank(behind[i].priority) < Rank(p)
    {
      assert behind[i] == q[k + i];
      if i > 0 {
        assert Rank(q[k].priority) >= Rank(q[k + i].priority);
      }
    }
    CountAtLeastUniform(behind, p, false);
  }

  /** Splicing a reservation in at its admission index keeps the queue priority-ordered. */
  lemma AdmitKeepsOrder(q: seq<Reservation>, r: Reservation)
    requires PriorityOrdered(q)
    ensures PriorityOrdered(InsertAt(q, AdmitIndex(q, r.priority), r))
  {
    var k := AdmitIndex(q, r.priority);
    var q' := InsertAt(q, k, r);
    forall i, j | 0 <= i < j < |q'|
      ensures Rank(q'[i].priority) >= Rank(q'[j].priority)
    {
      if i < k && j == k {
      } else if i < k && j > k {
        assert q'[j] == q[j - 1];
      } else if i == k && j > k {
        assert q'[j] == q[j - 1];
      } else if i > k {
        assert q'[i] == q[i - 1] && q'[j] == q[j - 1];
      }
    }
  }

  /**
   * Stability: a non-Emergency reservation goes after every entry of at least
   * its priority (so after all earlier entries of equal priority) and before
   * every entry of lower priority; an Emergency goes to the very front.
   */
  lemma AdmitIsStable(q: seq<Reservation>, r: Reservation)
    requires PriorityOrdered(q)
    ensures r.priority == Emergency ==> InsertAt(q, AdmitIndex(q, r.priority), r)[0] == r
    ensures r.priority != Emergency ==>
      var k := AdmitIndex(q, r.priority);
      var q' := InsertAt(q, k, r);
      q'[k] == r
      && (forall i :: 0 <= i < k ==> Rank(q'[i].priority) >= Rank(r.priority))
      && (forall i :: k < i < |q'| ==> Rank(q'[i].priority) < Rank(r.priority))
  {
    if r.priority != Emergency {
      var k := AdmitIndex(q, r.priority);
      var q' := InsertAt(q, k, r);
      forall i | k < i < |q'|
        ensures Rank(q'[i].priority) < Rank(r.priority)
      {
        assert q'[i] == q[i - 1];
        assert Rank(q[k].priority) >= Rank(q[i - 1].priority);
      }
    }
  }

  /** Taking any entry out of a priority-ordered queue leaves it ordered, the rest in their old relative order. */
  lemma RemoveKeepsOrder(q: seq<Reservation>, k: nat)
    requires PriorityOrdered(q) && k < |q|
    ensures PriorityOrdered(RemoveAt(q, k))
  {
    var q' := RemoveAt(q, k);
    forall i, j | 0 <= i < j < |q'|
      ensures Rank(q'[i].priority) >= Rank(q'[j].priority)
    {
      var i0 := if i < k then i else i + 1;
      var j0 := if j < k then j else j + 1;
      assert q'[i] == q[i0] && q'[j] == q[j0];
    }
  }

  /** A specialised counter takes the first entry of its type when there is one, otherwise the front. */
  lemma PickIndexChoice(q: seq<Reservation>, spec: Option<ReservationType>)
    requires q != []
    ensures PickIndex(q, spec) < |q|
    ensures spec.Some? && (exists i :: 0 <= i < |q| && q[i].kind == spec.value) ==>
      q[PickIndex(q, spec)].kind == spec.value
      && forall i :: 0 <= i < PickIndex(q, spec) ==> q[i].kind != spec.value
    ensures (spec.None? || forall i :: 0 <= i < |q| ==> q[i].kind != spec.value) ==> PickIndex(q, spec) == 0
  {
  }

  lemma {:induction false} BusyUpdate(cs: seq<Counter>, k: nat, c: Counter)
    requires k < |cs|
    ensures Busy(cs[k := c]) + (if cs[k].current.Some? then 1 else 0)
         == Busy(cs) + (if c.current.Some? then 1 else 0)
    decreases |cs|
  {
    var n := |cs| - 1;
    if k < n {
      assert cs[k := c][..n] == cs[..n][k := c];
      BusyUpdate(cs[..n], k, c);
    } else {
      assert cs[k := c][..n] == cs[..n];
    }
  }

  lemma BusyAppend(cs: seq<Counter>, c: Counter)
    ensures Busy(cs + [c]) == Busy(cs) + (if c.current.Some? then 1 else 0)
  {
    assert (cs + [c])[..|cs|] == cs;
  }

  /** Scenario: three Normal reservations and then an Emergency one leave the Emergency in front. */
  lemma EmergencyOvertakesNormals(r1: Reservation, r2: Reservation, r3: Reservation, e: Reservation)
    requires r1.priority == Normal && r2.priority == Normal && r3.priority == Normal
    requires e.priority == Emergency
    ensures
      var q1 := InsertAt([], AdmitIndex([], Normal), r1);
      var q2 := InsertAt(q1, AdmitIndex(q1, Normal), r2);
      var q3 := InsertAt(q2, AdmitIndex(q2, Normal), r3);
      InsertAt(q3, AdmitIndex(q3, Emergency), e) == [e, r1, r2, r3]
  {
    var q1 := InsertAt([], AdmitIndex([], Normal), r1);
    assert q1 == [r1];
    var q2 := InsertAt(q1, AdmitIndex(q1, Normal), r2);
    assert AdmitIndex(q1, Normal) == 1;
    assert q2 == [r1, r2];
    var q3 := InsertAt(q2, AdmitIndex(q2, Normal), r3);
    assert StableIndex(q2[1..], Normal) == 1;
    assert AdmitIndex(q2, Normal) == 2;
    assert q3 == [r1, r2, r3];
  }

  /** Every queued reservation is pending and carries an id already issued. */
  ghost predicate QueuedPending(q: seq<Reservation>, nextId: int) {
    forall i :: 0 <= i < |q| ==> q[i].status == Pending && FirstReservationId <= q[i].id < nextId
  }

  /** Counter `i` has id `i + 1`, and a reservation it holds carries an id already issued. */
  ghost predicate CountersNumbered(cs: seq<Counter>, nextId: int) {
    forall i :: 0 <= i < |cs| ==>
      cs[i].id == i + 1
      && (cs[i].current.Some? ==> FirstReservationId <= cs[i].current.value.id < nextId)
  }

  lemma QueuedPendingInsert(q: seq<Reservation>, k: nat, r: Reservation, nextId: int)
    requires QueuedPending(q, nextId) && k <= |q|
    requires r.status == Pending && FirstReservationId <= r.id <= nextId
    ensures QueuedPending(InsertAt(q, k, r), nextId + 1)
  {
    var q' := InsertAt(q, k, r);
    forall i | 0 <= i < |q'|
      ensures q'[i].status == Pending && FirstReservationId <= q'[i].id < nextId + 1
    {
      if i > k {
        assert q'[i] == q[i - 1];
      }
    }
  }

  lemma QueuedPendingRemove(q: seq<Reservation>, k: nat, nextId: int)
    requires QueuedPending(q, nextId) && k < |q|
    ensures QueuedPending(RemoveAt(q, k), nextId)
  {
    var q' := RemoveAt(q, k);
    forall i | 0 <= i < |q'|
      ensures q'[i].status == Pending && FirstReservationId <= q'[i].id < nextId
    {
      if i >= k {
        assert q'[i] == q[i + 1];
      }
    }
  }

  lemma CountersNumberedGrow(cs: seq<Counter>, nextId: int)
    requires CountersNumbered(cs, nextId)
    ensures CountersNumbered(cs, nextId + 1)
  {
  }

  lemma CountersNumberedSet(cs: seq<Counter>, k: nat, c: Counter, nextId: int)
    requires CountersNumbered(cs, nextId) && k < |cs|
    requires c.id == k + 1 && (c.current.Some? ==> FirstReservationId <= c.current.value.id < nextId)
    ensures CountersNumbered(cs[k := c], nextId)
  {
  }

  /**
   * No double assignment: a reservation id sits in one place only, once in
   * the line or at exactly one counter.
   */
  ghost predicate IdsDistinct(q: seq<Reservation>, cs: seq<Counter>) {
    && (forall i, j :: 0 <= i < j < |q| ==> q[i].id != q[j].id)
    && (forall a, b :: 0 <= a < b < |cs| && cs[a].current.Some? && cs[b].current.Some? ==>
          cs[a].current.value.id != cs[b].current.value.id)
    && (forall i, c :: 0 <= i < |q| && 0 <= c < |cs| && cs[c].current.Some? ==>
          q[i].id != cs[c].current.value.id)
  }

  /** A freshly issued id, above every id in use, can be spliced in anywhere without a clash. */
  lemma IdsDistinctInsert(q: seq<Reservation>, cs: seq<Counter>, k: nat, r: Reservation, nextId: int)
    requires IdsDistinct(q, cs) && k <= |q|
    requires QueuedPending(q, nextId) && CountersNumbered(cs, nextId) && r.id == nextId
    ensures IdsDistinct(InsertAt(q, k, r), cs)
  {
    var q' := InsertAt(q, k, r);
    forall i, j | 0 <= i < j < |q'|
      ensures q'[i].id != q'[j].id
    {
      var i0 := if i < k then i else i - 1;
      var j0 := if j < k then j else j - 1;
      if i != k && j != k {
        assert q'[i] == q[i0] && q'[j] == q[j0];
      } else if i == k {
        assert q'[j] == q[j0];
      } else {
        assert q'[i] == q[i0];
      }
    }
    forall i, c | 0 <= i < |q'| && 0 <= c < |cs| && cs[c].current.Some?
      ensures q'[i].id != cs[c].current.value.id
    {
      if i < k {
        assert q'[i] == q[i];
      } else if i > k {
        assert q'[i] == q[i - 1];
      }
    }
  }

  /**
   * Handing the entry at `k` to the idle counter `c` keeps ids apart: the
   * handed-over id leaves the line and no other counter holds it.
   */
  lemma IdsDistinctHand(q: seq<Reservation>, cs: seq<Counter>, k: nat, c: nat)
    requires IdsDistinct(q, cs) && k < |q| && c < |cs| && cs[c].current.None?
    ensures IdsDistinct(RemoveAt(q, k), cs[c := cs[c].(current := Some(q[k]))])
  {
    var q' := RemoveAt(q, k);
    var cs' := cs[c := cs[c].(current := Some(q[k]))];
    forall i, j | 0 <= i < j < |q'|
      ensures q'[i].id != q'[j].id
    {
      var i0 := if i < k then i else i + 1;
      var j0 := if j < k then j else j + 1;
      assert q'[i] == q[i0] && q'[j] == q[j0];
    }
    forall a, b | 0 <= a < b < |cs'| && cs'[a].current.Some? && cs'[b].current.Some?
      ensures cs'[a].current.value.id != cs'[b].current.value.id
    {
      if a == c {
        assert q[k].id != cs[b].current.value.id;
      } else if b == c {
        assert q[k].id != cs[a].current.value.id;
      }
    }
    forall i, d | 0 <= i < |q'| && 0 <= d < |cs'| && cs'[d].current.Some?
      ensures q'[i].id != cs'[d].current.value.id
    {
      var i0 := if i < k then i else i + 1;
      assert q'[i] == q[i0];
      if d == c {
        assert i0 < k || k < i0;
      }
    }
  }

  /** Freeing a counter keeps ids apart. */
  lemma IdsDistinctFree(q: seq<Reservation>, cs: seq<Counter>, c: nat, freed: Counter)
    requires IdsDistinct(q, cs) && c < |cs| && freed.current.None?
    ensures IdsDistinct(q, cs[c := freed])
  {
  }

  /** Opening an idle counter keeps ids apart. */
  lemma IdsDistinctOpen(q: seq<Reservation>, cs: seq<Counter>, idle: Counter)
    requires IdsDistinct(q, cs) && idle.current.None?
    ensures IdsDistinct(q, cs + [idle])
  {
    var cs' := cs + [idle];
    assert forall a :: 0 <= a < |cs| ==> cs'[a] == cs[a];
  }

  /**
   * The invariant: the line is bounded and priority-ordered and holds only
   * pending reservations; ids issued so far are 1001 .. nextReservationId-1,
   * and no id is assigned twice across the line and the counters;
   * every reservation ever admitted is still queued, at a counter, confirmed
   * or cancelled.
   */
  ghost predicate Inv(st: Snapshot) {
    && |st.counters| <= MaxCounters
    && st.size == |st.queue| <= MaxQueueSize
    && PriorityOrdered(st.queue)
    && QueuedPending(st.queue, st.nextReservationId)
    && CountersNumbered(st.counters, st.nextReservationId)
    && IdsDistinct(st.queue, st.counters)
    && st.nextReservationId == FirstReservationId + st.totalReservations
    && 0 <= st.totalConfirmed && 0 <= st.totalCancelled
    && st.totalReservations == st.size + Busy(st.counters) + st.totalConfirmed + st.totalCancelled
  }

  /** The snapshot after reservation `r` is admitted at its admission index and the id and total advance. */
  function Admitted(st: Snapshot, r: Reservation): Snapshot {
    st.(queue := InsertAt(st.queue, AdmitIndex(st.queue, r.priority), r),
        size := st.size + 1,
        nextReservationId := st.nextReservationId + 1,
        totalReservations := st.totalReservations + 1)
  }

  /** The snapshot after the entry at index `k` leaves the line for counter `c`. */
  function Handed(st: Snapshot, k: nat, c: nat): Snapshot
    requires k < |st.queue| && c < |st.counters|
  {
    st.(queue := RemoveAt(st.queue, k), size := st.size - 1,
        counters := st.counters[c := st.counters[c].(current := Some(st.queue[k]))])
  }

  /**
   * The snapshot after counter `c` closes its reservation, confirmed or
   * cancelled: the counter is freed with one more processed, the matching
   * total grows by one and the revenue becomes `revenue`.
   */
  function ClosedAt(st: Snapshot, c: nat, confirmed: bool, revenue: int): Snapshot
    requires c < |st.counters|
  {
    var freed := st.counters[c].(current := None, totalProcessed := st.counters[c].totalProcessed + 1);
    st.(counters := st.counters[c := freed],
        totalConfirmed := st.totalConfirmed + (if confirmed then 1 else 0),
        totalCancelled := st.totalCancelled + (if confirmed then 0 else 1),
        totalRevenue := revenue)
  }

  /** Admitting a new reservation at its admission index keeps the invariant. */
  lemma AdmitKeepsInv(st: Snapshot, r: Reservation)
    requires Inv(st) && st.size < MaxQueueSize
    requires r.id == st.nextReservationId && r.status == Pending
    ensures Inv(Admitted(st, r))
  {
    IdsDistinctInsert(st.queue, st.counters, AdmitIndex(st.queue, r.priority), r, st.nextReservationId);
    AdmitKeepsOrder(st.queue, r);
    QueuedPendingInsert(st.queue, AdmitIndex(st.queue, r.priority), r, st.nextReservationId);
    CountersNumberedGrow(st.counters, st.nextReservationId);
  }

  /**
   * Moving the entry at index `k` to the idle counter `c` keeps the invariant;
   * afterwards that reservation's id is no longer in the line and no other
   * counter holds it.
   */
  lemma DispatchKeepsInv(st: Snapshot, k: nat, c: nat)
    requires Inv(st) && k < |st.queue| && c < |st.counters| && st.counters[c].current.None?
    ensures Inv(Handed(st, k, c))
    ensures forall i :: 0 <= i < |Handed(st, k, c).queue| ==> Handed(st, k, c).queue[i].id != st.queue[k].id
    ensures forall d :: 0 <= d < |st.counters| && d != c && st.counters[d].current.Some? ==>
              st.counters[d].current.value.id != st.queue[k].id
  {
    IdsDistinctHand(st.queue, st.counters, k, c);
    var q' := RemoveAt(st.queue, k);
    forall i | 0 <= i < |q'|
      ensures q'[i].id != st.queue[k].id
    {
      if i < k {
        assert q'[i] == st.queue[i];
      } else {
        assert q'[i] == st.queue[i + 1];
      }
    }
    RemoveKeepsOrder(st.queue, k);
    QueuedPendingRemove(st.queue, k, st.nextReservationId);
    CountersNumberedSet(st.counters, c, st.counters[c].(current := Some(st.queue[k])), st.nextReservationId);
    BusyUpdate(st.counters, c, st.counters[c].(current := Some(st.queue[k])));
  }

  /**
   * Closing the reservation held by counter `c` (confirmed or cancelled) keeps
   * the invariant, whatever the revenue does.
   */
  lemma CloseKeepsInv(st: Snapshot, c: nat, confirmed: bool, revenue: int)
    requires Inv(st) && c < |st.counters| && st.counters[c].current.Some?
    ensures Inv(ClosedAt(st, c, confirmed, revenue))
  {
    var freed := st.counters[c].(current := None, totalProcessed := st.counters[c].totalProcessed + 1);
    var st' := ClosedAt(st, c, confirmed, revenue);
    assert st'.queue == st.queue && st'.counters == st.counters[c := freed];
    IdsDistinctFree(st.queue, st.counters, c, freed);
    CountersNumberedSet(st.counters, c, freed, st.nextReservationId);
    BusyUpdate(st.counters, c, freed);
  }

  /** Opening one more counter keeps the invariant. */
  lemma OpenCounterKeepsInv(st: Snapshot, c: Counter)
    requires Inv(st) && |st.counters| < MaxCounters
    requires c.id == |st.counters| + 1 && c.current.None?
    ensures Inv(st.(counters := st.counters + [c]))
  {
    IdsDistinctOpen(st.queue, st.counters, c);
    BusyAppend(st.counters, c);
  }

  // ---------------------------------------------------------------------
  // The queue system

  class ReservationQueue {
    var queue: seq<Reservation>
    var size: int
    var nextReservationId: int
    const counters: array<Counter>
    var counterCount: int
    var totalReservations: int
    var totalConfirmed: int
    var totalCancelled: int
    var totalRevenue: int

    ghost function State(): Snapshot
      reads this, counters
      requires 0 <= counterCount <= counters.Length
    {
      Snapshot(queue, size, nextReservationId, counters[..counterCount],
               totalReservations, totalConfirmed, totalCancelled, totalRevenue)
    }

    /** The invariant, stated on what an observer sees (see `Inv`), plus the counter table's fixed size. */
    ghost predicate Valid()
      reads this, counters
    {
      && counters.Length == MaxCounters
      && 0 <= counterCount <= MaxCounters
      && Inv(State())
    }

    constructor ()
      ensures Valid() && fresh(counters)
      ensures queue == [] && counterCount == 0 && nextReservationId == FirstReservationId
      ensures totalReservations == 0 && totalConfirmed == 0 && totalCancelled == 0 && totalRevenue == 0
    {
      queue := [];
      size := 0;
      nextReservationId := FirstReservationId;
      counters := new Counter[MaxCounters](_ => Counter(0, None, None, false, 0));
      counterCount := 0;
      totalReservations := 0;
      totalConfirmed := 0;
      totalCancelled := 0;
      totalRevenue := 0;
    }

    /** Adds a counter with the next id, active, idle and with nothing processed; refuses beyond fifteen. */
    method AddCounter(specialization: Option<ReservationType>) returns (ok: bool)
      requires Valid()
      modifies this, counters
      ensures Valid()
      ensures ok <==> old(counterCount) < MaxCounters
      ensures !ok ==> State() == old(State())
      ensures ok ==> State() == old(State()).(counters := old(State()).counters
                                  + [Counter(old(counterCount) + 1, specialization, None, true, 0)])
    {
      if counterCount >= MaxCounters {
        return false;
      }
      ghost var st := State();
      var c := Counter(counterCount + 1, specialization, None, true, 0);
      OpenCounterKeepsInv(st, c);
      counters[counterCount] := c;
      counterCount := counterCount + 1;
      assert counters[..counterCount] == st.counters + [c];
      ok := true;
    }

    /** The scan of the line behind the wait estimate. */
    method CalculateWaitTime(priority: Priority) returns (minutes: int)
      requires Valid()
      ensures minutes == WaitEstimate(queue, priority)
    {
      var position := 0;
      var i := 0;
      while i < |queue|
        invariant 0 <= i <= |queue|
        invariant position == CountAtLeast(queue[..i], priority)
      {
        assert queue[..i + 1][..i] == queue[..i];
        if Rank(queue[i].priority) >= Rank(priority) {
          position := position + 1;
        }
        i := i + 1;
      }
      assert queue[..i] == queue;
      var baseTime := position * MinutesPerReservation;
      match priority
      case Emergency => minutes := baseTime / 5;
      case Vip => minutes := baseTime / 2;
      case Premium => minutes := baseTime * 7 / 10;
      case Normal => minutes := baseTime;
    }

    /**
     * Admits a reservation: refused when the line holds 200 entries; otherwise
     * it gets the next id, status Pending and the wait estimate, and is spliced
     * in at its admission index.
     */
    method AddReservation(kind: ReservationType, tickets: int, amountCents: int, priority: Priority)
      returns (r: Option<Reservation>)
      requires Valid()
      modifies this
      ensures Valid()
      ensures r.None? <==> old(size) >= MaxQueueSize
      ensures r.None? ==> State() == old(State())
      ensures r.Some? ==>
        && r.value == Reservation(old(nextReservationId), kind, tickets, amountCents, priority,
                                  Pending, WaitEstimate(old(queue), priority))
        && State() == Admitted(old(State()), r.value)
    {
      if size >= MaxQueueSize {
        return None;
      }
      var wait := CalculateWaitTime(priority);
      var k := FindAdmitIndex(priority);
      var res := Reservation(nextReservationId, kind, tickets, amountCents, priority, Pending, wait);
      ghost var before := State();
      ghost var after := Admitted(before, res);
      queue, size, nextReservationId, totalReservations :=
        InsertAt(queue, k, res), size + 1, nextReservationId + 1, totalReservations + 1;
      assert State() == after;
      AdmitKeepsInv(before, res);
      r := Some(res);
    }

    /**
     * Where a reservation of the given priority goes: an empty line, an
     * Emergency, or a VIP finding no VIP or Emergency at the front take the
     * front; otherwise after the leading run of entries of at least its priority.
     */
    method FindAdmitIndex(priority: Priority) returns (k: int)
      requires Valid()
      ensures k == AdmitIndex(queue, priority)
    {
      k := 0;
      if |queue| == 0 {
        return;
      }
      if priority == Emergency || (priority == Vip && Rank(queue[0].priority) < Rank(Vip)) {
        return;
      }
      while k < |queue| && Rank(queue[k].priority) >= Rank(priority)
        invariant 0 <= k <= |queue|
        invariant forall j :: 0 <= j < k ==> Rank(queue[j].priority) >= Rank(priority)
      {
        k := k + 1;
      }
      StableIsFirstLower(queue, priority, k);
    }

    /**
     * Hands the next suitable reservation to a counter. Refusals, in this
     * order: empty line, counter id outside 1..counterCount, inactive counter,
     * counter already holding a reservation.
     */
    method ProcessNextReservation(counterId: int) returns (out: DispatchOutcome)
      requires Valid()
      modifies this, counters
      ensures Valid()
      ensures old(queue) == [] ==> out == QueueEmpty
      ensures old(queue) != [] && !(1 <= counterId <= old(counterCount)) ==> out == InvalidCounter
      ensures (old(queue) != [] && 1 <= counterId <= old(counterCount)
               && !old(counters[counterId - 1].isActive)) ==> out == CounterInactive
      ensures (old(queue) != [] && 1 <= counterId <= old(counterCount) && old(counters[counterId - 1].isActive)
               && old(counters[counterId - 1].current.Some?)) ==> out == CounterBusy
      ensures !out.Dispatched? ==> State() == old(State())
      ensures out.Dispatched? ==>
        && old(queue) != [] && 1 <= counterId <= old(counterCount)
        && old(counters[counterId - 1].isActive) && old(counters[counterId - 1].current.None?)
        && var k := PickIndex(old(queue), old(counters[counterId - 1].specialization));
           k < |old(queue)|
           && out.reservation == old(queue)[k]
           && State() == Handed(old(State()), k, counterId - 1)
    {
      if |queue| == 0 {
        return QueueEmpty;
      }
      if counterId < 1 || counterId > counterCount {
        return InvalidCounter;
      }
      var counter := counters[counterId - 1];
      if !counter.isActive {
        return CounterInactive;
      }
      if counter.current.Some? {
        return CounterBusy;
      }
      var k := PickFor(counter.specialization);
      var res := queue[k];
      HandTo(k, counterId - 1);
      out := Dispatched(res);
    }

    /** Moves the entry at index k of the line to the idle counter c. */
    method HandTo(k: nat, c: nat)
      requires Valid() && k < |queue| && c < counterCount && counters[c].current.None?
      modifies this, counters
      ensures Valid()
      ensures State() == Handed(old(State()), k, c)
    {
      ghost var before := State();
      ghost var after := Handed(before, k, c);
      var res := queue[k];
      queue := RemoveAt(queue, k);
      size := size - 1;
      counters[c] := counters[c].(current := Some(res));
      assert counters[..counterCount] == before.counters[c := before.counters[c].(current := Some(res))];
      assert State() == after;
      DispatchKeepsInv(before, k, c);
    }

    /**
     * The entry a counter takes: a specialised counter scans for the first
     * entry of its type and falls back to the front when there is none.
     */
    method PickFor(specialization: Option<ReservationType>) returns (k: int)
      requires Valid() && queue != []
      ensures k == PickIndex(queue, specialization) && k < |queue|
    {
      PickIndexChoice(queue, specialization);
      k := 0;
      if specialization.None? {
        return;
      }
      var t := specialization.value;
      while k < |queue|
        invariant 0 <= k <= |queue|
        invariant forall j :: 0 <= j < k ==> queue[j].kind != t
      {
        if queue[k].kind == t {
          FirstOfKindUnique(queue, t, k);
          return;
        }
        k := k + 1;
      }
      k := 0;
    }

    /**
     * Confirms the reservation at a counter: one more confirmation, the amount
     * added to the revenue, one more processed at that counter, counter freed.
     */
    method ConfirmReservation(counterId: int) returns (out: ServiceOutcome)
      requires Valid()
      modifies this, counters
      ensures Valid()
      ensures !(1 <= counterId <= old(counterCount)) ==> out == UnknownCounter
      ensures (1 <= counterId <= old(counterCount) && old(counters[counterId - 1].current.None?))
                ==> out == NothingInProgress
      ensures !out.Served? ==> State() == old(State())
      ensures out.Served? ==>
        && 1 <= counterId <= old(counterCount)
        && old(counters[counterId - 1].current) == Some(out.reservation)
        && State() == ClosedAt(old(State()), counterId - 1, true, old(totalRevenue) + out.reservation.amountCents)
    {
      if counterId < 1 || counterId > counterCount {
        return UnknownCounter;
      }
      var counter := counters[counterId - 1];
      if counter.current.None? {
        return NothingInProgress;
      }
      var res := counter.current.value;
      ghost var before := State();
      ghost var after := ClosedAt(before, counterId - 1, true, totalRevenue + res.amountCents);
      totalConfirmed := totalConfirmed + 1;
      totalRevenue := totalRevenue + res.amountCents;
      var freed := counter.(current := None, totalProcessed := counter.totalProcessed + 1);
      counters[counterId - 1] := freed;
      assert counters[..counterCount] == before.counters[counterId - 1 := freed];
      assert State() == after;
      CloseKeepsInv(before, counterId - 1, true, totalRevenue + res.amountCents);
      out := Served(res);
    }

    /**
     * Cancels the reservation at a counter: one more cancellation, one more
     * processed at that counter, revenue untouched, counter freed.
     */
    method CancelReservation(counterId: int) returns (out: ServiceOutcome)
      requires Valid()
      modifies this, counters
      ensures Valid()
      ensures !(1 <= counterId <= old(counterCount)) ==> out == UnknownCounter
      ensures (1 <= counterId <= old(counterCount) && old(counters[counterId - 1].current.None?))
                ==> out == NothingInProgress
      ensures !out.Served? ==> State() == old(State())
      ensures out.Served? ==>
        && 1 <= counterId <= old(counterCount)
        && old(counters[counterId - 1].current) == Some(out.reservation)
        && State() == ClosedAt(old(State()), counterId - 1, false, old(totalRevenue))
    {
      if counterId < 1 || counterId > counterCount {
        return UnknownCounter;
      }
      var counter := counters[counterId - 1];
      if counter.current.None? {
        return NothingInProgress;
      }
      var res := counter.current.value;
      ghost var before := State();
      ghost var after := ClosedAt(before, counterId - 1, false, totalRevenue);
      totalCancelled := totalCancelled + 1;
      var freed := counter.(current := None, totalProcessed := counter.totalProcessed + 1);
      counters[counterId - 1] := freed;
      assert counters[..counterCount] == before.counters[counterId - 1 := freed];
      assert State() == after;
      CloseKeepsInv(before, counterId - 1, false, totalRevenue);
      out := Served(res);
    }

    /**
     * Looks a reservation up by id, first in the line from the front, then at
     * the counters in order; since ids are never assigned twice, the match it
     * reports is the only one.
     */
    method SearchReservation(id: int) returns (out: SearchOutcome)
      requires Valid()
      ensures out.InQueue? ==>
        && out.found.id == id
        && (exists k :: 0 <= k < |queue| && queue[k] == out.found && forall j :: 0 <= j < k ==> queue[j].id != id)
        && (forall c :: 0 <= c < counterCount ==> counters[c].current.None? || counters[c].current.value.id != id)
      ensures out.AtCounter? ==>
        && 1 <= out.counterId <= counterCount
        && counters[out.counterId - 1].current == Some(out.found) && out.found.id == id
        && (forall i :: 0 <= i < |queue| ==> queue[i].id != id)
        && (forall c :: 0 <= c < counterCount && c != out.counterId - 1 ==>
              counters[c].current.None? || counters[c].current.value.id != id)
      ensures out.NotFound? <==>
        && (forall i :: 0 <= i < |queue| ==> queue[i].id != id)
        && (forall c :: 0 <= c < counterCount ==>
              counters[c].current.None? || counters[c].current.value.id != id)
    {
      var i := 0;
      while i < |queue|
        invariant 0 <= i <= |queue|
        invariant forall j :: 0 <= j < i ==> queue[j].id != id
      {
        if queue[i].id == id {
          OnlyInQueue(i);
          return InQueue(queue[i]);
        }
        i := i + 1;
      }
      var c := 0;
      while c < counterCount
        invariant 0 <= c <= counterCount
        invariant forall j :: 0 <= j < c ==> counters[j].current.None? || counters[j].current.value.id != id
      {
        if counters[c].current.Some? && counters[c].current.value.id == id {
          OnlyAtCounter(c);
          return AtCounter(c + 1, counters[c].current.value);
        }
        c := c + 1;
      }
      out := NotFound;
    }

    /** A queued reservation's id is held by no counter. */
    lemma OnlyInQueue(i: nat)
      requires Valid() && i < |queue|
      ensures forall c :: 0 <= c < counterCount ==> counters[c].current.None? || counters[c].current.value.id != queue[i].id
    {
      var cs := State().counters;
      forall c | 0 <= c < counterCount
        ensures counters[c].current.None? || counters[c].current.value.id != queue[i].id
      {
        assert cs[c] == counters[c];
      }
    }

    /** A reservation held at counter `c` is held by no other counter. */
    lemma OnlyAtCounter(c: nat)
      requires Valid() && c < counterCount && counters[c].current.Some?
      ensures forall d :: 0 <= d < counterCount && d != c ==>
                counters[d].current.None? || counters[d].current.value.id != counters[c].current.value.id
    {
      var cs := State().counters;
      forall d | 0 <= d < counterCount && d != c
        ensures counters[d].current.None? || counters[d].current.value.id != counters[c].current.value.id
      {
        assert cs[c] == counters[c] && cs[d] == counters[d];
      }
    }
  }

  lemma StableIsFirstLower(q: seq<Reservation>, p: Priority, i: nat)
    requires i <= |q|
    requires forall j :: 0 <= j < i ==> Rank(q[j].priority) >= Rank(p)
    requires i < |q| ==> Rank(q[i].priority) < Rank(p)
    ensures i == StableIndex(q, p)
  {
  }

  lemma FirstOfKindUnique(q: seq<Reservation>, t: ReservationType, i: nat)
    requires i < |q| && q[i].kind == t
    requires forall j :: 0 <= j < i ==> q[j].kind != t
    ensures i == FirstOfKind(q, t)
  {
  }
}
