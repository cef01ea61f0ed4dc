/**
 * A congo line: a singly linked list from the leader (head) to the last
 * dancer (tail). People join at the tail, leave from anywhere, move to the
 * front, swap with an adjacent dancer, and are found by their 1-based place.
 * The list is a sequence whose index 0 is the leader; the tail link is
 * kept as its own field, holding the last person.
 */
module CongoLine {
  import opened Common

  datatype Person = Person(name: string, id: int)

  /** The line as an observer sees it: the people from leader to last, and the head count. */
  datatype Line = Line(people: seq<Person>, totalPeople: int)

  /** The head count is the length of the line. */
  ghost predicate Inv(l: Line) {
    l.totalPeople == |l.people|
  }

  /** What the tail link should hold: the last person, or nothing for an empty line. */
  function LastOf(ps: seq<Person>): (t: Option<Person>)
    ensures t.None? <==> ps == []
    ensures t.Some? ==> t.value in ps
  {
    if ps == [] then None else Some(ps[|ps| - 1])
  }

  // ---------------------------------------------------------------------
  // Searching

  /** Index of the first person with the id, or |ps| when there is none. */
  function IndexOfId(ps: seq<Person>, id: int): (k: nat)
    ensures k <= |ps|
    ensures forall i :: 0 <= i < k ==> ps[i].id != id
    ensures k < |ps| ==> ps[k].id == id
  {
    if ps == [] then 0 else if ps[0].id == id then 0 else 1 + IndexOfId(ps[1..], id)
  }

  /** The 1-based place of the first person with the id, or -1. */
  function Position(ps: seq<Person>, id: int): int {
    var k := IndexOfId(ps, id);
    if k < |ps| then k + 1 else -1
  }

  /** People i and i + 1 are id1 and id2, in either order. */
  predicate Adjacent(ps: seq<Person>, i: nat, id1: int, id2: int) {
    && i + 1 < |ps|
    && ((ps[i].id == id1 && ps[i + 1].id == id2) || (ps[i].id == id2 && ps[i + 1].id == id1))
  }

  /** The first index from i on where the pair stands adjacent, or |ps| when there is none. */
  function PairFrom(ps: seq<Person>, i: nat, id1: int, id2: int): (k: nat)
    requires i <= |ps|
    ensures i <= k <= |ps|
    ensures forall j :: i <= j < k ==> !Adjacent(ps, j, id1, id2)
    ensures k < |ps| ==> Adjacent(ps, k, id1, id2)
    decreases |ps| - i
  {
    if i + 1 >= |ps| then |ps|
    else if Adjacent(ps, i, id1, id2) then i
    else PairFrom(ps, i + 1, id1, id2)
  }

  /** The people at k and k + 1 exchanged. */
  function SwapAt(ps: seq<Person>, k: nat): (r: seq<Person>)
    requires k + 1 < |ps|
    ensures |r| == |ps| && r[k] == ps[k + 1] && r[k + 1] == ps[k]
    ensures forall i :: 0 <= i < |ps| && i != k && i != k + 1 ==> r[i] == ps[i]
  {
    ps[k := ps[k + 1]][k + 1 := ps[k]]
  }

  // ---------------------------------------------------------------------
  // The operations on values

  /** The person joins at the tail. */
  function Joined(l: Line, p: Person): Line {
    Line(l.people + [p], l.totalPeople + 1)
  }

  /** The first person with the id leaves; an unknown id or an empty line changes nothing. */
  function Left(l: Line, id: int): Line {
    if l.people == [] then l
    else
      var k := IndexOfId(l.people, id);
      if k == |l.people| then l else Line(RemoveAt(l.people, k), l.totalPeople - 1)
  }

  /**
   * The first person with the id becomes the leader, the others keeping their
   * order; nothing changes if that person already leads or is not in the line.
   */
  function MovedToFront(l: Line, id: int): Line {
    if l.people == [] || l.people[0].id == id then l
    else
      var k := IndexOfId(l.people, id);
      if k == |l.people| then l else Line([l.people[k]] + RemoveAt(l.people, k), l.totalPeople)
  }

  /** The first adjacent pair with the two ids is exchanged; otherwise nothing changes. */
  function Swapped(l: Line, id1: int, id2: int): Line {
    if |l.people| < 2 then l
    else
      var k := PairFrom(l.people, 0, id1, id2);
      if k == |l.people| then l else Line(SwapAt(l.people, k), l.totalPeople)
  }

  // ---------------------------------------------------------------------
  // Properties

  /** Appending someone does not move the first match of an id, and a new id is found at the end. */
  lemma {:induction false} IndexOfIdAppend(ps: seq<Person>, p: Person, id: int)
    ensures IndexOfId(ps + [p], id) == if IndexOfId(ps, id) < |ps| || p.id == id then IndexOfId(ps, id) else |ps| + 1
  {
    if ps != [] {
      assert (ps + [p])[1..] == ps[1..] + [p];
      IndexOfIdAppend(ps[1..], p, id);
    }
  }

  /** Joining keeps the head count right and places the newcomer last, unless the id was already in line. */
  lemma JoinedPosition(l: Line, p: Person)
    requires Inv(l)
    ensures Inv(Joined(l, p))
    ensures LastOf(Joined(l, p).people) == Some(p)
    ensures Position(Joined(l, p).people, p.id) ==
      if Position(l.people, p.id) == -1 then |l.people| + 1 else Position(l.people, p.id)
  {
    IndexOfIdAppend(l.people, p, p.id);
  }

  /** Someone whose id is new to the line who joins and then leaves leaves the line as it was. */
  lemma JoinThenLeave(l: Line, p: Person)
    requires Position(l.people, p.id) == -1
    ensures Left(Joined(l, p), p.id) == l
  {
    IndexOfIdAppend(l.people, p, p.id);
    assert RemoveAt(l.people + [p], |l.people|) == l.people;
  }

  /** Leaving removes exactly the first match and keeps the head count right. */
  lemma LeftRemovesOne(l: Line, id: int)
    requires Inv(l)
    ensures Inv(Left(l, id))
    ensures Position(l.people, id) == -1 ==> Left(l, id) == l
    ensures Position(l.people, id) != -1 ==>
      multiset(Left(l, id).people) + multiset{l.people[Position(l.people, id) - 1]} == multiset(l.people)
  {
    if Position(l.people, id) != -1 {
      RemoveAtMultiset(l.people, IndexOfId(l.people, id));
    }
  }

  /** After moving to the front the person leads, holds place 1, and nobody was added or lost. */
  lemma MovedToFrontLeads(l: Line, id: int)
    requires Inv(l) && Position(l.people, id) != -1
    ensures Inv(MovedToFront(l, id))
    ensures MovedToFront(l, id).people[0].id == id
    ensures Position(MovedToFront(l, id).people, id) == 1
    ensures multiset(MovedToFront(l, id).people) == multiset(l.people)
  {
    var k := IndexOfId(l.people, id);
    if l.people[0].id != id {
      RemoveAtMultiset(l.people, k);
    }
  }

  /** Leaving after moving to the front leaves the same line as leaving straight away. */
  lemma MoveThenLeave(l: Line, id: int)
    ensures Left(MovedToFront(l, id), id) == Left(l, id)
  {
    if l.people != [] && l.people[0].id != id {
      var k := IndexOfId(l.people, id);
      if k < |l.people| {
        var m := [l.people[k]] + RemoveAt(l.people, k);
        assert IndexOfId(m, id) == 0;
        assert RemoveAt(m, 0) == RemoveAt(l.people, k);
      }
    }
  }

  /** A swap permutes the line: nobody is added or lost, the head count stays. */
  lemma SwappedPermutes(l: Line, id1: int, id2: int)
    requires Inv(l)
    ensures Inv(Swapped(l, id1, id2))
    ensures multiset(Swapped(l, id1, id2).people) == multiset(l.people)
    ensures Swapped(l, id1, id2) != l ==> PairFrom(l.people, 0, id1, id2) < |l.people|
  {
    if |l.people| >= 2 {
      var k := PairFrom(l.people, 0, id1, id2);
      if k < |l.people| {
        SwapAtMultiset(l.people, k);
      }
    }
  }

  lemma SwapAtMultiset(ps: seq<Person>, k: nat)
    requires k + 1 < |ps|
    ensures multiset(SwapAt(ps, k)) == multiset(ps)
  {
    assert ps == ps[..k] + [ps[k], ps[k + 1]] + ps[k + 2..];
    assert SwapAt(ps, k) == ps[..k] + [ps[k + 1], ps[k]] + ps[k + 2..];
  }

  /**
   * Swapping the same two ids again undoes a swap, unless the first swap made
   * the person before the pair adjacent to the other id.
   */
  lemma SwapUndone(l: Line, id1: int, id2: int)
    requires 2 <= |l.people|
    requires var k := PairFrom(l.people, 0, id1, id2);
      k < |l.people| && (k == 0 || !Adjacent(SwapAt(l.people, k), k - 1, id1, id2))
    ensures Swapped(Swapped(l, id1, id2), id1, id2) == l
  {
    var ps := l.people;
    var k := PairFrom(ps, 0, id1, id2);
    var r := SwapAt(ps, k);
    forall j | 0 <= j < k
      ensures !Adjacent(r, j, id1, id2)
    {
      if j + 1 < k {
        assert !Adjacent(ps, j, id1, id2);
      }
    }
    PairFromSkips(r, id1, id2, k);
    assert SwapAt(r, k) == ps;
  }

  /** A search that passes no adjacent pair before k stops at k when k is adjacent. */
  lemma {:induction false} PairFromSkips(ps: seq<Person>, id1: int, id2: int, k: nat)
    requires Adjacent(ps, k, id1, id2)
    requires forall j :: 0 <= j < k ==> !Adjacent(ps, j, id1, id2)
    ensures PairFrom(ps, 0, id1, id2) == k
  {
    PairFromAt(ps, id1, id2, k, 0);
  }

  lemma {:induction false} PairFromAt(ps: seq<Person>, id1: int, id2: int, k: nat, i: nat)
    requires i <= k && Adjacent(ps, k, id1, id2)
    requires forall j :: i <= j < k ==> !Adjacent(ps, j, id1, id2)
    ensures PairFrom(ps, i, id1, id2) == k
    decreases k - i
  {
    if i < k {
      PairFromAt(ps, id1, id2, k, i + 1);
    }
  }

  // ---------------------------------------------------------------------
  // The search loops

  /** Walks the line from the leader to the first person with the id. */
  method FindId(ps: seq<Person>, id: int) returns (k: nat)
    ensures k == IndexOfId(ps, id)
  {
    k := 0;
    while k < |ps| && ps[k].id != id
      invariant k <= |ps|
      invariant forall i :: 0 <= i < k ==> ps[i].id != id
    {
      k := k + 1;
    }
    IndexOfIdIs(ps, id, k);
  }

  /** IndexOfId is the first index with the id, characterised by the search that stopped there. */
  lemma {:induction false} IndexOfIdIs(ps: seq<Person>, id: int, k: nat)
    requires k <= |ps|
    requires forall i :: 0 <= i < k ==> ps[i].id != id
    requires k < |ps| ==> ps[k].id == id
    ensures IndexOfId(ps, id) == k
  {
  }

  /** Walks the line comparing each person with the next, up to the first adjacent pair. */
  method FindPair(ps: seq<Person>, id1: int, id2: int) returns (k: nat)
    ensures k == PairFrom(ps, 0, id1, id2)
  {
    k := 0;
    while k + 1 < |ps| && !Adjacent(ps, k, id1, id2)
      invariant k <= |ps|
      invariant forall j :: 0 <= j < k ==> !Adjacent(ps, j, id1, id2)
    {
      k := k + 1;
    }
    if k + 1 < |ps| {
      PairFromSkips(ps, id1, id2, k);
    } else {
      NoPair(ps, id1, id2, k);
      k := |ps|;
    }
  }

  /** With no adjacent pair before the last person, there is none at all. */
  lemma NoPair(ps: seq<Person>, id1: int, id2: int, k: nat)
    requires k <= |ps| && k + 1 >= |ps|
    requires forall j :: 0 <= j < k ==> !Adjacent(ps, j, id1, id2)
    ensures PairFrom(ps, 0, id1, id2) == |ps|
  {
  }

  /** The position search: counts places from 1 and answers -1 when the id is missing. */
  method FindPosition(ps: seq<Person>, id: int) returns (position: int)
    ensures position == Position(ps, id)
    ensures position == -1 <==> forall i :: 0 <= i < |ps| ==> ps[i].id != id
    ensures position != -1 ==> 1 <= position <= |ps| && ps[position - 1].id == id
    ensures position != -1 ==> forall i :: 0 <= i < position - 1 ==> ps[i].id != id
  {
    var i := 0;
    position := 1;
    while i < |ps|
      invariant 0 <= i <= |ps| && position == i + 1
      invariant forall j :: 0 <= j < i ==> ps[j].id != id
    {
      if ps[i].id == id {
        IndexOfIdIs(ps, id, i);
        return;
      }
      i := i + 1;
      position := position + 1;
    }
    IndexOfIdIs(ps, id, |ps|);
    position := -1;
  }

  // ---------------------------------------------------------------------
  // The line, updated in place

  class CongoLine {
    var people: seq<Person>
    var tail: Option<Person>
    var totalPeople: int

    ghost function State(): Line
      reads this
    {
      Line(people, totalPeople)
    }

    /** The head count is right and the tail link holds the last person. */
    ghost predicate Valid()
      reads this
    {
      Inv(State()) && tail == LastOf(people)
    }

    constructor ()
      ensures Valid() && State() == Line([], 0) && tail.None?
    {
      people := [];
      tail := None;
      totalPeople := 0;
    }

    method JoinLine(name: string, id: int)
      requires Valid()
      modifies this
      ensures Valid()
      ensures State() == Joined(old(State()), Person(name, id))
      ensures tail == Some(Person(name, id))
    {
      var p := Person(name, id);
      if people == [] {
        people := [p];
      } else {
        people := people + [p];
      }
      tail := Some(p);
      totalPeople := totalPeople + 1;
    }

    method LeaveLine(id: int)
      requires Valid()
      modifies this
      ensures Valid()
      ensures State() == Left(old(State()), id)
    {
      if people == [] {
        return;
      }
      var k := FindId(people, id);
      if k == |people| {
        return;
      }
      if k == 0 {
        people := people[1..];
        if people == [] {
          tail := None;
        }
      } else {
        var previous := people[k - 1];
        if k == |people| - 1 {
          tail := Some(previous);
        }
        people := RemoveAt(people, k);
      }
      totalPeople := totalPeople - 1;
    }

    method MoveToFront(id: int)
      requires Valid()
      modifies this
      ensures Valid()
      ensures State() == MovedToFront(old(State()), id)
    {
      if people == [] || people[0].id == id {
        return;
      }
      var k := FindId(people, id);
      if k == |people| {
        return;
      }
      var current := people[k];
      if k == |people| - 1 {
        tail := Some(people[k - 1]);
      }
      people := [current] + RemoveAt(people, k);
    }

    method SwapAdjacent(id1: int, id2: int)
      requires Valid()
      modifies this
      ensures Valid()
      ensures State() == Swapped(old(State()), id1, id2)
    {
      if |people| < 2 {
        return;
      }
      var k := FindPair(people, id1, id2);
      if k == |people| {
        return;
      }
      var first := people[k];
      people := SwapAt(people, k);
      if k + 2 == |people| {
        tail := Some(first);
      }
    }

    method PositionOf(id: int) returns (position: int)
      requires Valid()
      ensures position == Position(people, id)
    {
      position := FindPosition(people, id);
    }
  }
}
