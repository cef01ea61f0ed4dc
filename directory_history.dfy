/**
 * A most-recently-used directory history: a doubly linked list from the
 * oldest entry (head) to the newest (tail) with a current position for
 * back/forward navigation. Revisiting a path moves it to the tail; a new path
 * evicts the oldest entry when the history is full.
 */
module DirectoryHistory {
  import opened Common

  /** The history size the program is run with. */
  const DefaultMaxHistorySize: int := 20

  datatype Entry = Entry(path: string, dirName: string, visitCount: int)

  /** The history as an observer sees it; index 0 is the head (oldest). */
  datatype History = History(entries: seq<Entry>, current: Option<nat>, total: int, maxSize: int)

  /** Index of the entry with the path, or |es| when there is none. */
  function IndexOfPath(es: seq<Entry>, path: string): (k: nat)
    ensures k <= |es|
    ensures forall i :: 0 <= i < k ==> es[i].path != path
    ensures k < |es| ==> es[k].path == path
  {
    if es == [] then 0 else if es[0].path == path then 0 else 1 + IndexOfPath(es[1..], path)
  }

  ghost predicate UniquePaths(es: seq<Entry>) {
    forall i, j :: 0 <= i < j < |es| ==> es[i].path != es[j].path
  }

  /**
   * The history invariant: the count is the list length, within the maximum;
   * there is a current entry exactly when the list is non-empty; paths are
   * unique and every entry has been visited at least once.
   */
  ghost predicate Inv(st: History) {
    && st.total == |st.entries|
    && 1 <= st.maxSize
    && st.total <= st.maxSize
    && (st.current.None? <==> st.entries == [])
    && (st.current.Some? ==> st.current.value < |st.entries|)
    && UniquePaths(st.entries)
    && AllVisited(st.entries)
  }

  // ---------------------------------------------------------------------
  // The operations on values

  /** The entry at k unlinked and relinked at the tail. */
  function MovedToTail(es: seq<Entry>, k: nat): seq<Entry>
    requires k < |es|
  {
    RemoveAt(es, k) + [es[k]]
  }

  /**
   * Drops the head. A lone entry leaves the history empty; otherwise the
   * current position follows its entry, or moves to the new head if the head
   * was current.
   */
  function RemovedOldest(st: History): History {
    if st.entries == [] then st
    else if |st.entries| == 1 then st.(entries := [], current := None, total := st.total - 1)
    else
      st.(entries := st.entries[1..],
          current := match st.current
                     case None => None
                     case Some(c) => Some(if c == 0 then 0 else c - 1),
          total := st.total - 1)
  }

  /**
   * A known path gets one more visit and moves to the tail; a new path
   * evicts the head if the history is full and is appended. Either way it
   * becomes current.
   */
  function Visited(st: History, path: string, dirName: string): History {
    var k := IndexOfPath(st.entries, path);
    if k < |st.entries| then
      var e := st.entries[k].(visitCount := st.entries[k].visitCount + 1);
      st.(entries := MovedToTail(st.entries[k := e], k), current := Some(|st.entries| - 1))
    else
      var base := if st.total >= st.maxSize then RemovedOldest(st) else st;
      base.(entries := base.entries + [Entry(path, dirName, 1)],
            current := Some(|base.entries|),
            total := base.total + 1)
  }

  function WentBack(st: History): History {
    match st.current
    case None => st
    case Some(c) => if c == 0 then st else st.(current := Some(c - 1))
  }

  function WentForward(st: History): History {
    match st.current
    case None => st
    case Some(c) => if c + 1 >= |st.entries| then st else st.(current := Some(c + 1))
  }

  /** Makes the index-th entry from the head (1-based) current; a bad index changes nothing. */
  function Jumped(st: History, index: int): History {
    if index < 1 || index > st.total then st else st.(current := Some(index - 1))
  }

  function Cleared(st: History): History {
    History([], None, 0, st.maxSize)
  }

  // ---------------------------------------------------------------------
  // Properties

  /** Every entry has been visited at least once. */
  ghost predicate AllVisited(es: seq<Entry>) {
    forall i :: 0 <= i < |es| ==> es[i].visitCount >= 1
  }

  lemma MoveToTailKeepsPaths(es: seq<Entry>, k: nat)
    requires k < |es| && UniquePaths(es) && AllVisited(es)
    ensures |MovedToTail(es, k)| == |es|
    ensures UniquePaths(MovedToTail(es, k)) && AllVisited(MovedToTail(es, k))
    ensures multiset(MovedToTail(es, k)) == multiset(es)
  {
    var r := MovedToTail(es, k);
    RemoveAtMultiset(es, k);
    forall i | 0 <= i < |r|
      ensures r[i] == es[if i == |r| - 1 then k else if i < k then i else i + 1]
    {
    }
  }

  /** One more visit to the entry at k keeps the paths and the visit counts valid. */
  lemma BumpKeepsPaths(es: seq<Entry>, k: nat)
    requires k < |es| && UniquePaths(es) && AllVisited(es)
    ensures var es' := es[k := es[k].(visitCount := es[k].visitCount + 1)];
      UniquePaths(es') && AllVisited(es') && RemoveAt(es', k) == RemoveAt(es, k)
  {
    var es' := es[k := es[k].(visitCount := es[k].visitCount + 1)];
    assert forall i :: 0 <= i < |es| ==> es'[i].path == es[i].path;
  }

  /**
   * Removing the oldest entry keeps the invariant; the current entry stays
   * current unless it was the one removed, in which case the new head is.
   */
  lemma RemoveOldestKeepsInv(st: History)
    requires Inv(st)
    ensures Inv(RemovedOldest(st))
    ensures |st.entries| > 1 ==>
      && RemovedOldest(st).entries == st.entries[1..]
      && (st.current.value > 0 ==>
            RemovedOldest(st).entries[RemovedOldest(st).current.value] == st.entries[st.current.value])
      && (st.current.value == 0 ==> RemovedOldest(st).current == Some(0))
  {
    if |st.entries| > 1 {
      var es := st.entries[1..];
      assert forall i :: 0 <= i < |es| ==> es[i] == st.entries[i + 1];
    }
  }

  /**
   * Revisiting a known path adds one visit, moves it to the tail with the
   * others in their order, makes it current and keeps the count.
   */
  lemma RevisitMovesToTail(st: History, path: string, dirName: string)
    requires Inv(st)
    requires IndexOfPath(st.entries, path) < |st.entries|
    ensures var k := IndexOfPath(st.entries, path);
      var st' := Visited(st, path, dirName);
      && st'.entries == RemoveAt(st.entries, k) + [st.entries[k].(visitCount := st.entries[k].visitCount + 1)]
      && st'.total == st.total
      && st'.current == Some(|st.entries| - 1)
      && Inv(st')
  {
    var k := IndexOfPath(st.entries, path);
    BumpKeepsPaths(st.entries, k);
    MoveToTailKeepsPaths(st.entries[k := st.entries[k].(visitCount := st.entries[k].visitCount + 1)], k);
  }

  /**
   * A new path is appended as current with one visit, after evicting the
   * oldest entry if the history was full; the count never exceeds the
   * maximum.
   */
  lemma NewVisitAppends(st: History, path: string, dirName: string)
    requires Inv(st)
    requires IndexOfPath(st.entries, path) == |st.entries|
    ensures var st' := Visited(st, path, dirName);
      && st'.entries == (if st.total >= st.maxSize then st.entries[1..] else st.entries) + [Entry(path, dirName, 1)]
      && st'.current == Some(|st'.entries| - 1)
      && st'.total == (if st.total >= st.maxSize then st.total else st.total + 1)
      && Inv(st')
  {
    var base := if st.total >= st.maxSize then RemovedOldest(st) else st;
    if st.total >= st.maxSize {
      RemoveOldestKeepsInv(st);
      if |st.entries| == 1 {
        assert st.entries[1..] == [];
      }
      assert base.entries == st.entries[1..];
      assert forall i :: 0 <= i < |base.entries| ==> base.entries[i] == st.entries[i + 1];
    }
    AppendedKeepsInv(base, path, dirName);
  }

  /** Appending a path that is not in a history with room for it keeps the invariant. */
  lemma AppendedKeepsInv(b: History, path: string, dirName: string)
    requires Inv(b) && b.total < b.maxSize
    requires forall i :: 0 <= i < |b.entries| ==> b.entries[i].path != path
    ensures Inv(b.(entries := b.entries + [Entry(path, dirName, 1)], current := Some(|b.entries|), total := b.total + 1))
  {
  }

  /** After a visit the path is found at the tail, and it is current. */
  lemma VisitThenFind(st: History, path: string, dirName: string)
    requires Inv(st)
    ensures var st' := Visited(st, path, dirName);
      && IndexOfPath(st'.entries, path) == |st'.entries| - 1
      && st'.current == Some(|st'.entries| - 1)
  {
    var st' := Visited(st, path, dirName);
    if IndexOfPath(st.entries, path) < |st.entries| {
      RevisitMovesToTail(st, path, dirName);
    } else {
      NewVisitAppends(st, path, dirName);
    }
    var n := |st'.entries|;
    assert st'.entries[n - 1].path == path;
    assert forall i :: 0 <= i < n - 1 ==> st'.entries[i].path != path;
  }

  /** Back and forward move one step; a successful back followed by forward returns to the same entry. */
  lemma BackThenForward(st: History)
    requires Inv(st)
    ensures Inv(WentBack(st)) && Inv(WentForward(st))
    ensures WentBack(st) != st ==> WentForward(WentBack(st)) == st
    ensures WentForward(st) != st ==> WentBack(WentForward(st)) == st
    ensures WentBack(st) != st ==> WentBack(st).current.value == st.current.value - 1
    ensures WentForward(st) != st ==> WentForward(st).current.value == st.current.value + 1
  {
  }

  lemma JumpAndClear(st: History, index: int)
    requires Inv(st)
    ensures Inv(Jumped(st, index)) && Inv(Cleared(st))
    ensures 1 <= index <= st.total ==> Jumped(st, index).current == Some(index - 1)
    ensures !(1 <= index <= st.total) ==> Jumped(st, index) == st
  {
  }

  // ---------------------------------------------------------------------
  // Ranking by visits

  ghost predicate ByVisitsDescending(s: seq<Entry>) {
    forall i, j :: 0 <= i < j < |s| ==> s[i].visitCount >= s[j].visitCount
  }

  /** Every entry before the boundary has at least as many visits as every entry from it on. */
  ghost predicate Partitioned(a: array<Entry>, b: int)
    reads a
  {
    forall x, y :: 0 <= x < b <= y < a.Length ==> a[x].visitCount >= a[y].visitCount
  }

  /** The entries from the boundary on are in final order. */
  ghost predicate SortedFrom(a: array<Entry>, b: int)
    reads a
  {
    forall x, y :: 0 <= x < y < a.Length && b <= x ==> a[x].visitCount >= a[y].visitCount
  }

  /** The bubble step: swaps a[j] and a[j + 1] when a[j] has fewer visits. */
  method OrderPair(a: array<Entry>, j: int)
    requires 0 <= j && j + 1 < a.Length
    modifies a
    ensures a[j].visitCount >= a[j + 1].visitCount
    ensures (a[j] == old(a[j]) && a[j + 1] == old(a[j + 1])) || (a[j] == old(a[j + 1]) && a[j + 1] == old(a[j]))
    ensures forall x :: 0 <= x < a.Length && x != j && x != j + 1 ==> a[x] == old(a[x])
    ensures multiset(a[..]) == multiset(old(a[..]))
  {
    if a[j].visitCount < a[j + 1].visitCount {
      a[j], a[j + 1] := a[j + 1], a[j];
    }
  }

  /** One bubble pass over a[..b]: the least visited of them sinks to a[b - 1]. */
  method BubblePass(a: array<Entry>, b: int)
    requires 1 <= b <= a.Length
    requires Partitioned(a, b) && SortedFrom(a, b)
    modifies a
    ensures Partitioned(a, b - 1) && SortedFrom(a, b - 1)
    ensures multiset(a[..]) == multiset(old(a[..]))
  {
    var j := 0;
    while j < b - 1
      invariant 0 <= j <= b - 1
      invariant multiset(a[..]) == multiset(old(a[..]))
      invariant forall x :: 0 <= x <= j ==> a[x].visitCount >= a[j].visitCount
      invariant Partitioned(a, b) && SortedFrom(a, b)
    {
      OrderPair(a, j);
      j := j + 1;
    }
  }

  /** The bubble sort by visit count, most visited first. */
  method SortByVisits(a: array<Entry>)
    modifies a
    ensures ByVisitsDescending(a[..])
    ensures multiset(a[..]) == multiset(old(a[..]))
  {
    var n := a.Length;
    var i := 0;
    while i < n - 1
      invariant 0 <= i <= if n == 0 then 0 else n - 1
      invariant multiset(a[..]) == multiset(old(a[..]))
      invariant Partitioned(a, n - i) && SortedFrom(a, n - i)
    {
      BubblePass(a, n - i);
      i := i + 1;
    }
    if n > 0 {
      assert SortedFrom(a, 0) by {
        assert Partitioned(a, 1) && SortedFrom(a, 1);
      }
    }
  }

  // ---------------------------------------------------------------------
  // The history, updated in place

  /** The search loop: the entry with the path, or None. */
  method FindDirectory(es: seq<Entry>, path: string) returns (k: Option<nat>)
    ensures k.None? <==> forall i :: 0 <= i < |es| ==> es[i].path != path
    ensures k.Some? ==> k.value == IndexOfPath(es, path) < |es|
  {
    var i := 0;
    while i < |es|
      invariant 0 <= i <= |es|
      invariant forall j :: 0 <= j < i ==> es[j].path != path
    {
      if es[i].path == path {
        return Some(i);
      }
      i := i + 1;
    }
    return None;
  }

  class DirectoryHistory {
    var entries: seq<Entry>
    var current: Option<nat>
    var totalEntries: int
    var maxHistorySize: int

    ghost function State(): History
      reads this
    {
      History(entries, current, totalEntries, maxHistorySize)
    }

    ghost predicate Valid()
      reads this
    {
      Inv(State())
    }

    constructor (maxSize: int)
      requires maxSize >= 1
      ensures Valid() && State() == History([], None, 0, maxSize)
    {
      entries := [];
      current := None;
      totalEntries := 0;
      maxHistorySize := maxSize;
    }

    method RemoveOldestEntry()
      requires Valid()
      modifies this
      ensures Valid()
      ensures State() == RemovedOldest(old(State()))
    {
      RemoveOldestKeepsInv(State());
      if entries == [] {
        return;
      }
      if |entries| == 1 {
        entries, current := [], None;
      } else {
        entries := entries[1..];
        if current.Some? && current.value > 0 {
          current := Some(current.value - 1);
        }
      }
      totalEntries := totalEntries - 1;
    }

    /** Unlinks the entry at k and relinks it at the tail; the current position is not touched. */
    method MoveToTail(k: nat)
      requires k < |entries|
      modifies this
      ensures entries == MovedToTail(old(entries), k)
      ensures current == old(current) && totalEntries == old(totalEntries) && maxHistorySize == old(maxHistorySize)
    {
      if k == |entries| - 1 {
        assert MovedToTail(entries, k) == entries;
        return;
      }
      var e := entries[k];
      entries := RemoveAt(entries, k) + [e];
    }

    method VisitDirectory(path: string, dirName: string)
      requires Valid()
      modifies this
      ensures Valid()
      ensures State() == Visited(old(State()), path, dirName)
    {
      var found := FindDirectory(entries, path);
      if found.Some? {
        Revisit(path, dirName, found.value);
      } else {
        VisitNew(path, dirName);
      }
    }

    /** A known path, found at k: one more visit, moved to the tail and made current. */
    method Revisit(path: string, dirName: string, k: nat)
      requires Valid() && k == IndexOfPath(entries, path) < |entries|
      modifies this
      ensures Valid()
      ensures State() == Visited(old(State()), path, dirName)
    {
      RevisitMovesToTail(State(), path, dirName);
      entries := entries[k := entries[k].(visitCount := entries[k].visitCount + 1)];
      MoveToTail(k);
      current := Some(|entries| - 1);
    }

    /** A new path: the oldest entry is evicted when the history is full, then the path is appended as current. */
    method VisitNew(path: string, dirName: string)
      requires Valid() && IndexOfPath(entries, path) == |entries|
      modifies this
      ensures Valid()
      ensures State() == Visited(old(State()), path, dirName)
    {
      NewVisitAppends(State(), path, dirName);
      if totalEntries >= maxHistorySize {
        RemoveOldestEntry();
      }
      entries := entries + [Entry(path, dirName, 1)];
      current := Some(|entries| - 1);
      totalEntries := totalEntries + 1;
    }

    method GoBack()
      requires Valid()
      modifies this
      ensures Valid()
      ensures State() == WentBack(old(State()))
    {
      BackThenForward(State());
      if current.None? || current.value == 0 {
        return;
      }
      current := Some(current.value - 1);
    }

    method GoForward()
      requires Valid()
      modifies this
      ensures Valid()
      ensures State() == WentForward(old(State()))
    {
      BackThenForward(State());
      if current.None? || current.value + 1 >= |entries| {
        return;
      }
      current := Some(current.value + 1);
    }

    method JumpToDirectory(index: int)
      requires Valid()
      modifies this
      ensures Valid()
      ensures State() == Jumped(old(State()), index)
    {
      JumpAndClear(State(), index);
      if index < 1 || index > totalEntries {
        return;
      }
      var p := 0;
      var i := 1;
      while i < index
        invariant 1 <= i <= index && p == i - 1
      {
        p := p + 1;
        i := i + 1;
      }
      current := Some(p);
    }

    method ClearHistory()
      requires Valid()
      modifies this
      ensures Valid()
      ensures State() == Cleared(old(State()))
    {
      JumpAndClear(State(), 0);
      entries, current, totalEntries := [], None, 0;
    }

    /**
     * The ranking behind the most-visited listing: every entry, most visited
     * first, and how many of them are listed.
     */
    method MostVisited(count: int) returns (ranked: seq<Entry>, limit: nat)
      requires Valid()
      ensures multiset(ranked) == multiset(entries)
      ensures ByVisitsDescending(ranked)
      ensures limit == if count <= 0 then 0 else if count < |entries| then count else |entries|
    {
      if entries == [] {
        return [], 0;
      }
      var a := new Entry[|entries|](i requires 0 <= i < |entries| reads this => entries[i]);
      assert a[..] == entries;
      SortByVisits(a);
      ranked := a[..];
      limit := if count < totalEntries then (if count <= 0 then 0 else count) else totalEntries;
    }
  }
}
