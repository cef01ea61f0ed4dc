/**
 * The token announcement system of a bank or hospital: tokens are issued in
 * number order into one waiting line (Emergency tokens jump to the front),
 * up to ten service counters call the token at the front, start and complete
 * its service, and can be switched on and off.
 */
module TokenSystem {
  import opened Common

  const MaxQueueSize: int := 100
  const MaxCounters: int := 10
  const FirstTokenNumber: int := 1
  const MinutesPerCustomer: int := 5

  datatype TokenType = General | Premium | Senior | Emergency
  datatype ServiceStatus = Waiting | Called | Serving | Completed

  datatype Token = Token(
    number: int,
    customer: string,
    kind: TokenType,
    service: string,
    status: ServiceStatus,
    estimatedWait: int)

  datatype Counter = Counter(
    id: int,
    name: string,
    current: Option<Token>,
    isActive: bool,
    totalServed: int)

  /**
   * Everything an observer sees; `skipped` counts the tokens a counter called
   * but replaced by calling again before their service started.
   */
  datatype Snapshot = Snapshot(
    queue: seq<Token>,
    size: int,
    nextTokenNumber: int,
    counters: seq<Counter>,
    totalIssued: int,
    totalServed: int,
    skipped: int)

  datatype CallOutcome =
    | Announced(token: Token)
    | QueueEmpty
    | InvalidCounter
    | CounterInactive
    | CounterServing

  datatype StepOutcome = Done(token: Token) | UnknownCounter | NoToken | NotCalled

  datatype ToggleOutcome = Toggled(nowActive: bool) | NoSuchCounter | CounterOccupied

  // ---------------------------------------------------------------------
  // Specification

  /** The advisory wait: five minutes per person ahead, halved for seniors and premium, none for emergencies. */
  function WaitFor(kind: TokenType, size: int): (w: int)
    ensures kind == Emergency ==> w == 0
    ensures 0 <= size ==> 0 <= w <= MinutesPerCustomer * size
  {
    var position :=
      if kind == Emergency then 0
      else if kind == Senior || kind == Premium then size / 2
      else size;
    position * MinutesPerCustomer
  }

  /** Where a new token goes: an Emergency to the front of a non-empty line, every other token to the rear. */
  function Enqueue(q: seq<Token>, t: Token): (r: seq<Token>)
    ensures multiset(r) == multiset(q) + multiset{t}
    ensures t.kind != Emergency ==> r == q + [t]
  {
    if q != [] && t.kind == Emergency then [t] + q else q + [t]
  }

  /**
   * The order of service the line keeps: Emergency tokens form a prefix and are
   * served latest first; every other token is served in the order it was issued.
   */
  ghost predicate ServiceOrder(q: seq<Token>) {
    forall i, j :: 0 <= i < j < |q| ==>
      && (q[j].kind == Emergency ==> q[i].kind == Emergency && q[i].number > q[j].number)
      && (q[i].kind != Emergency ==> q[i].number < q[j].number)
  }

  /** Every waiting token is in the Waiting state and carries a number already issued. */
  ghost predicate WaitingIssued(q: seq<Token>, nextNumber: int) {
    forall i :: 0 <= i < |q| ==> q[i].status == Waiting && FirstTokenNumber <= q[i].number < nextNumber
  }

  /**
   * Counter `i` has id `i + 1`; a token it holds has been called or is being
   * served; an inactive counter holds no token.
   */
  ghost predicate CountersWellFormed(cs: seq<Counter>, nextNumber: int) {
    forall i :: 0 <= i < |cs| ==>
      && cs[i].id == i + 1
      && (cs[i].current.Some? ==>
            (cs[i].current.value.status == Called || cs[i].current.value.status == Serving)
            && FirstTokenNumber <= cs[i].current.value.number < nextNumber)
      && (!cs[i].isActive ==> cs[i].current.None?)
      && cs[i].totalServed >= 0
  }

  /** Number of counters that hold a token. */
  function Held(cs: seq<Counter>): (n: nat)
    ensures n <= |cs|
  {
    if cs == [] then 0 else Held(cs[..|cs| - 1]) + (if cs[|cs| - 1].current.Some? then 1 else 0)
  }

  /** The counters' own served totals added up. */
  function ServedSum(cs: seq<Counter>): int {
    if cs == [] then 0 else ServedSum(cs[..|cs| - 1]) + cs[|cs| - 1].totalServed
  }

  /**
   * The invariant: a bounded line in service order holding waiting tokens;
   * well-formed counters; token numbers issued consecutively from 1; every
   * issued token is waiting, at a counter, served or skipped; and the
   * counters' served totals add up to the global one.
   */
  ghost predicate Inv(st: Snapshot) {
    && |st.counters| <= MaxCounters
    && st.size == |st.queue| <= MaxQueueSize
    && ServiceOrder(st.queue)
    && WaitingIssued(st.queue, st.nextTokenNumber)
    && CountersWellFormed(st.counters, st.nextTokenNumber)
    && st.nextTokenNumber == FirstTokenNumber + st.totalIssued
    && st.totalServed >= 0 && st.skipped >= 0
    && st.totalIssued == st.size + Held(st.counters) + st.totalServed + st.skipped
    && ServedSum(st.counters) == st.totalServed
  }

  /** The effect of switching a counter, or None when it is active and holds a token. */
  function Toggle(c: Counter): Option<Counter> {
    if c.isActive && c.current.Some? then None else Some(c.(isActive := !c.isActive))
  }

  /** The snapshot after token `t` is issued: it joins the line and the number and issue counts advance. */
  function Issued(st: Snapshot, t: Token): Snapshot {
    st.(queue := Enqueue(st.queue, t), size := st.size + 1,
        nextTokenNumber := st.nextTokenNumber + 1, totalIssued := st.totalIssued + 1)
  }

  /**
   * The snapshot after counter `c` calls the front token: it leaves the line
   * and the counter holds it as called; a token the counter held is skipped.
   */
  function CalledNext(st: Snapshot, c: nat): Snapshot
    requires st.queue != [] && c < |st.counters|
  {
    var held := st.counters[c].(current := Some(st.queue[0].(status := Called)));
    st.(queue := st.queue[1..], size := st.size - 1, counters := st.counters[c := held],
        skipped := st.skipped + (if st.counters[c].current.Some? then 1 else 0))
  }

  /** The snapshot after counter `c` starts serving the token it holds. */
  function Started(st: Snapshot, c: nat): Snapshot
    requires c < |st.counters| && st.counters[c].current.Some?
  {
    var cur := st.counters[c].current.value;
    st.(counters := st.counters[c := st.counters[c].(current := Some(cur.(status := Serving)))])
  }

  /** The snapshot after counter `c` completes its service: it is free and one more is served there and overall. */
  function Finished(st: Snapshot, c: nat): Snapshot
    requires c < |st.counters|
  {
    var freed := st.counters[c].(current := None, totalServed := st.counters[c].totalServed + 1);
    st.(counters := st.counters[c := freed], totalServed := st.totalServed + 1)
  }

  // ---------------------------------------------------------------------
  // Lemmas

  /** Switching a counter twice gives the counter back, for any counter the invariant allows. */
  lemma ToggleTwiceRestores(c: Counter)
    requires !c.isActive ==> c.current.None?
    ensures Toggle(c).Some? ==> Toggle(Toggle(c).value) == Some(c)
    ensures Toggle(c).None? <==> (c.isActive && c.current.Some?)
  {
  }

  /** A general token waits five minutes per waiting token; no other kind waits longer. */
  lemma WaitForBounds(kind: TokenType, size: nat)
    ensures kind == General ==> WaitFor(kind, size) == MinutesPerCustomer * size
    ensures kind != General ==> WaitFor(kind, size) <= MinutesPerCustomer * size
  {
  }

  lemma EnqueueKeepsOrder(q: seq<Token>, t: Token, nextNumber: int)
    requires ServiceOrder(q) && WaitingIssued(q, nextNumber) && t.number == nextNumber
    ensures ServiceOrder(Enqueue(q, t))
  {
    var q' := Enqueue(q, t);
    if q != [] && t.kind == Emergency {
      forall i, j | 0 <= i < j < |q'|
        ensures q'[j].kind == Emergency ==> q'[i].kind == Emergency && q'[i].number > q'[j].number
        ensures q'[i].kind != Emergency ==> q'[i].number < q'[j].number
      {
        assert q'[j] == q[j - 1];
        if i > 0 {
          assert q'[i] == q[i - 1];
        }
      }
    } else {
      forall i, j | 0 <= i < j < |q'|
        ensures q'[j].kind == Emergency ==> q'[i].kind == Emergency && q'[i].number > q'[j].number
        ensures q'[i].kind != Emergency ==> q'[i].number < q'[j].number
      {
        assert q'[i] == q[i];
        if j < |q| {
          assert q'[j] == q[j];
        }
      }
    }
  }

  lemma {:induction false} HeldUpdate(cs: seq<Counter>, k: nat, c: Counter)
    requires k < |cs|
    ensures Held(cs[k := c]) + (if cs[k].current.Some? then 1 else 0)
         == Held(cs) + (if c.current.Some? then 1 else 0)
    ensures ServedSum(cs[k := c]) + cs[k].totalServed == ServedSum(cs) + c.totalServed
    decreases |cs|
  {
    var n := |cs| - 1;
    if k < n {
      assert cs[k := c][..n] == cs[..n][k := c];
      HeldUpdate(cs[..n], k, c);
    } else {
      assert cs[k := c][..n] == cs[..n];
    }
  }

  lemma HeldAppend(cs: seq<Counter>, c: Counter)
    ensures Held(cs + [c]) == Held(cs) + (if c.current.Some? then 1 else 0)
    ensures ServedSum(cs + [c]) == ServedSum(cs) + c.totalServed
  {
    assert (cs + [c])[..|cs|] == cs;
  }

  /** Issuing a token keeps the invariant. */
  lemma IssueKeepsInv(st: Snapshot, t: Token)
    requires Inv(st) && st.size < MaxQueueSize
    requires t.number == st.nextTokenNumber && t.status == Waiting
    ensures Inv(Issued(st, t))
  {
    EnqueueKeepsOrder(st.queue, t, st.nextTokenNumber);
    var q' := Enqueue(st.queue, t);
    forall i | 0 <= i < |q'|
      ensures q'[i].status == Waiting && FirstTokenNumber <= q'[i].number < st.nextTokenNumber + 1
    {
      if q'[i] != t {
        assert q'[i] in st.queue;
      }
    }
  }

  /**
   * Calling the front token to counter `c` keeps the invariant; a called token
   * the counter still held is counted as skipped.
   */
  lemma CallKeepsInv(st: Snapshot, c: nat)
    requires Inv(st) && st.queue != [] && c < |st.counters| && st.counters[c].isActive
    requires st.counters[c].current.None? || st.counters[c].current.value.status != Serving
    ensures Inv(CalledNext(st, c))
  {
    var held := st.counters[c].(current := Some(st.queue[0].(status := Called)));
    HeldUpdate(st.counters, c, held);
    assert forall i :: 0 <= i < |st.queue[1..]| ==> st.queue[1..][i] == st.queue[i + 1];
  }

  /** Starting the service of the token counter `c` called keeps the invariant. */
  lemma StartKeepsInv(st: Snapshot, c: nat)
    requires Inv(st) && c < |st.counters| && st.counters[c].current.Some?
    ensures Inv(Started(st, c))
  {
    var cur := st.counters[c].current.value;
    HeldUpdate(st.counters, c, st.counters[c].(current := Some(cur.(status := Serving))));
  }

  /** Completing the service at counter `c` keeps the invariant. */
  lemma CompleteKeepsInv(st: Snapshot, c: nat)
    requires Inv(st) && c < |st.counters| && st.counters[c].current.Some?
    ensures Inv(Finished(st, c))
  {
    var freed := st.counters[c].(current := None, totalServed := st.counters[c].totalServed + 1);
    HeldUpdate(st.counters, c, freed);
  }

  /** Switching a counter that may be switched keeps the invariant. */
  lemma ToggleKeepsInv(st: Snapshot, c: nat)
    requires Inv(st) && c < |st.counters| && Toggle(st.counters[c]).Some?
    ensures Inv(st.(counters := st.counters[c := Toggle(st.counters[c]).value]))
  {
    HeldUpdate(st.counters, c, Toggle(st.counters[c]).value);
  }

  /** Opening one more counter keeps the invariant. */
  lemma OpenCounterKeepsInv(st: Snapshot, c: Counter)
    requires Inv(st) && |st.counters| < MaxCounters
    requires c.id == |st.counters| + 1 && c.current.None? && c.isActive && c.totalServed == 0
    ensures Inv(st.(counters := st.counters + [c]))
  {
    HeldAppend(st.counters, c);
  }

  // ---------------------------------------------------------------------
  // The token queue

  class TokenQueue {
    var queue: seq<Token>
    var size: int
    var nextTokenNumber: int
    const counters: array<Counter>
    var counterCount: int
    var totalIssued: int
    var totalServed: int
    ghost var skipped: int

    ghost function State(): Snapshot
      reads this, counters
      requires 0 <= counterCount <= counters.Length
    {
      Snapshot(queue, size, nextTokenNumber, counters[..counterCount], totalIssued, totalServed, skipped)
    }

    ghost predicate Valid()
      reads this, counters
    {
      && counters.Length == MaxCounters
      && 0 <= counterCount <= MaxCounters
      && Inv(State())
    }

    constructor ()
      ensures Valid() && fresh(counters)
      ensures queue == [] && counterCount == 0 && nextTokenNumber == FirstTokenNumber
      ensures totalIssued == 0 && totalServed == 0
    {
      queue := [];
      size := 0;
      nextTokenNumber := FirstTokenNumber;
      counters := new Counter[MaxCounters](_ => Counter(0, "", None, false, 0));
      counterCount := 0;
      totalIssued := 0;
      totalServed := 0;
      skipped := 0;
    }

    /** Adds an active, idle counter with the next id; refuses beyond ten. */
    method AddServiceCounter(name: string) returns (ok: bool)
      requires Valid()
      modifies this, counters
      ensures Valid()
      ensures ok <==> old(counterCount) < MaxCounters
      ensures !ok ==> State() == old(State())
      ensures ok ==> State() == old(State()).(counters := old(State()).counters
                                  + [Counter(old(counterCount) + 1, name, None, true, 0)])
    {
      if counterCount >= MaxCounters {
        return false;
      }
      ghost var st := State();
      var c := Counter(counterCount + 1, name, None, true, 0);
      OpenCounterKeepsInv(st, c);
      counters[counterCount] := c;
      counterCount := counterCount + 1;
      assert counters[..counterCount] == st.counters + [c];
      ok := true;
    }

    /**
     * Issues the next token number: refused when 100 tokens wait; otherwise a
     * Waiting token with its wait estimate joins the line (see `Enqueue`).
     */
    method IssueToken(customer: string, kind: TokenType, service: string) returns (t: Option<Token>)
      requires Valid()
      modifies this
      ensures Valid()
      ensures t.None? <==> old(size) >= MaxQueueSize
      ensures t.None? ==> State() == old(State())
      ensures t.Some? ==>
        && t.value == Token(old(nextTokenNumber), customer, kind, service, Waiting, WaitFor(kind, old(size)))
        && State() == Issued(old(State()), t.value)
    {
      if size >= MaxQueueSize {
        return None;
      }
      var position := size;
      if kind == Emergency {
        position := 0;
      } else if kind == Senior || kind == Premium {
        position := position / 2;
      }
      var token := Token(nextTokenNumber, customer, kind, service, Waiting, position * MinutesPerCustomer);
      assert token.estimatedWait == WaitFor(kind, size);
      ghost var before := State();
      ghost var after := Issued(before, token);
      var line := if |queue| == 0 || kind != Emergency then queue + [token] else [token] + queue;
      queue, nextTokenNumber, size, totalIssued := line, nextTokenNumber + 1, size + 1, totalIssued + 1;
      assert State() == after;
      IssueKeepsInv(before, token);
      t := Some(token);
    }

    /**
     * Calls the front token to a counter. Refusals, in this order: empty line,
     * counter id outside 1..counterCount, inactive counter, counter serving a
     * token. A token the counter called earlier but has not started is dropped.
     */
    method CallNextToken(counterId: int) returns (out: CallOutcome)
      requires Valid()
      modifies this, counters
      ensures Valid()
      ensures old(queue) == [] ==> out == QueueEmpty
      ensures old(queue) != [] && !(1 <= counterId <= old(counterCount)) ==> out == InvalidCounter
      ensures (old(queue) != [] && 1 <= counterId <= old(counterCount)
               && !old(counters[counterId - 1].isActive)) ==> out == CounterInactive
      ensures (old(queue) != [] && 1 <= counterId <= old(counterCount) && old(counters[counterId - 1].isActive)
               && old(counters[counterId - 1].current.Some?)
               && old(counters[counterId - 1].current.value.status) == Serving) ==> out == CounterServing
      ensures !out.Announced? ==> State() == old(State())
      ensures out.Announced? ==>
        && old(queue) != [] && 1 <= counterId <= old(counterCount)
        && out.token == old(queue[0]).(status := Called)
        && State() == CalledNext(old(State()), counterId - 1)
    {
      if |queue| == 0 {
        return QueueEmpty;
      }
      if counterId < 1 || counterId > counterCount {
        return InvalidCounter;
      }
      var counter := counters[counterId - 1];
      if !counter.isActive {
        return CounterInactive;
      }
      if counter.current.Some? && counter.current.value.status == Serving {
        return CounterServing;
      }
      ghost var before := State();
      ghost var after := CalledNext(before, counterId - 1);
      var token := queue[0].(status := Called);
      queue := queue[1..];
      size := size - 1;
      if counter.current.Some? {
        skipped := skipped + 1;
      }
      counters[counterId - 1] := counter.(current := Some(token));
      assert counters[..counterCount] == before.counters[counterId - 1 := counter.(current := Some(token))];
      assert State() == after;
      CallKeepsInv(before, counterId - 1);
      out := Announced(token);
    }

    /** Starts serving the token a counter called; a counter holding no token, or one not in Called state, is left alone. */
    method StartService(counterId: int) returns (out: StepOutcome)
      requires Valid()
      modifies counters
      ensures Valid()
      ensures !(1 <= counterId <= counterCount) ==> out == UnknownCounter
      ensures (1 <= counterId <= counterCount && old(counters[counterId - 1].current.None?)) ==> out == NoToken
      ensures (1 <= counterId <= counterCount && old(counters[counterId - 1].current.Some?)
               && old(counters[counterId - 1].current.value.status) != Called) ==> out == NotCalled
      ensures !out.Done? ==> State() == old(State())
      ensures out.Done? ==>
        && 1 <= counterId <= counterCount
        && old(counters[counterId - 1].current) == Some(out.token.(status := Called))
        && out.token.status == Serving
        && State() == Started(old(State()), counterId - 1)
    {
      if counterId < 1 || counterId > counterCount {
        return UnknownCounter;
      }
      var counter := counters[counterId - 1];
      if counter.current.None? {
        return NoToken;
      }
      if counter.current.value.status != Called {
        return NotCalled;
      }
      ghost var before := State();
      ghost var after := Started(before, counterId - 1);
      var token := counter.current.value.(status := Serving);
      counters[counterId - 1] := counter.(current := Some(token));
      assert counters[..counterCount] == before.counters[counterId - 1 := counter.(current := Some(token))];
      assert State() == after;
      StartKeepsInv(before, counterId - 1);
      out := Done(token);
    }

    /** Completes the service at a counter: one more served there and overall; the counter becomes free. */
    method CompleteService(counterId: int) returns (out: StepOutcome)
      requires Valid()
      modifies this, counters
      ensures Valid()
      ensures !(1 <= counterId <= old(counterCount)) ==> out == UnknownCounter
      ensures (1 <= counterId <= old(counterCount) && old(counters[counterId - 1].current.None?)) ==> out == NoToken
      ensures !out.Done? ==> State() == old(State())
      ensures out.Done? ==>
        && 1 <= counterId <= old(counterCount)
        && old(counters[counterId - 1].current) == Some(out.token)
        && State() == Finished(old(State()), counterId - 1)
    {
      if counterId < 1 || counterId > counterCount {
        return UnknownCounter;
      }
      var counter := counters[counterId - 1];
      if counter.current.None? {
        return NoToken;
      }
      ghost var before := State();
      ghost var after := Finished(before, counterId - 1);
      var freed := counter.(current := None, totalServed := counter.totalServed + 1);
      counters[counterId - 1] := freed;
      totalServed := totalServed + 1;
      assert counters[..counterCount] == before.counters[counterId - 1 := freed];
      assert State() == after;
      CompleteKeepsInv(before, counterId - 1);
      out := Done(counter.current.value);
    }

    /** Switches a counter on or off; an active counter holding a token is not switched off. */
    method ToggleCounter(counterId: int) returns (out: ToggleOutcome)
      requires Valid()
      modifies counters
      ensures Valid()
      ensures !(1 <= counterId <= counterCount) ==> out == NoSuchCounter
      ensures 1 <= counterId <= counterCount ==>
        (out == CounterOccupied <==> Toggle(old(counters[counterId - 1])).None?)
      ensures !out.Toggled? ==> State() == old(State())
      ensures out.Toggled? ==>
        && 1 <= counterId <= counterCount
        && Toggle(old(counters[counterId - 1])) == Some(counters[counterId - 1])
        && out.nowActive == counters[counterId - 1].isActive
        && State() == old(State()).(counters := old(State()).counters[counterId - 1 :=
                                      counters[counterId - 1]])
    {
      if counterId < 1 || counterId > counterCount {
        return NoSuchCounter;
      }
      var counter := counters[counterId - 1];
      if counter.isActive && counter.current.Some? {
        return CounterOccupied;
      }
      ghost var st := State();
      ToggleKeepsInv(st, counterId - 1);
      var switched := counter.(isActive := !counter.isActive);
      counters[counterId - 1] := switched;
      assert counters[..counterCount] == st.counters[counterId - 1 := switched];
      out := Toggled(switched.isActive);
    }
  }
}
