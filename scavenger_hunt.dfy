/**
 * A treasure hunt: players follow a fixed route of locations, each of which
 * may demand an item already collected. Exploring a location for the first
 * time (by any player) hands out its treasure and points; exploring the
 * final location ends that player's hunt.
 */
module ScavengerHunt {
  import opened Common

  const InventoryCapacity: int := 10
  const ItemPoints: int := 10
  const ExplorePoints: int := 25
  const FinalPoints: int := 100
  const NoItem: string := "none"

  /** A stop on the route; the next stop is the one after it in the route. */
  datatype Location = Location(id: int, name: string, clue: string, requiredItem: string,
                               treasure: string, visited: bool, isFinal: bool)

  /** A player; `current` indexes the route, and None means the hunt is over for them. */
  datatype Player = Player(name: string, id: int, current: Option<nat>, inventory: seq<string>, score: int)

  datatype Hunt = Hunt(locations: seq<Location>, players: seq<Player>, totalLocations: int, totalPlayers: int)

  /** The player may pass a gate that asks for `item`: nothing is asked, or they carry it. */
  predicate Holds(p: Player, item: string) {
    item == NoItem || item in p.inventory
  }

  /**
   * The hunt invariant: the totals agree with the lists, players stand on
   * the route, inventories stay within capacity, every carried item has
   * been paid 10 points, and finishing a non-empty route earned at least
   * the final location's 125 points.
   */
  ghost predicate Inv(h: Hunt) {
    && h.totalLocations == |h.locations|
    && h.totalPlayers == |h.players|
    && (forall k :: 0 <= k < |h.players| ==> PlayerInv(h.players[k], |h.locations|))
  }

  ghost predicate PlayerInv(p: Player, routeLength: nat) {
    && (p.current.Some? ==> p.current.value < routeLength)
    && |p.inventory| <= InventoryCapacity
    && p.score >= ItemPoints * |p.inventory|
    && (p.current.None? && routeLength > 0 ==> p.score >= ExplorePoints + FinalPoints)
  }

  // ---------------------------------------------------------------------
  // The operations on values

  /** An item is carried away while there is room, for 10 points. */
  function AddedToInventory(p: Player, item: string): Player {
    if |p.inventory| < InventoryCapacity then p.(inventory := p.inventory + [item], score := p.score + ItemPoints)
    else p
  }

  function PlayerAdded(h: Hunt, name: string, id: int): Hunt {
    var p := Player(name, id, if h.locations == [] then None else Some(0), [], 0);
    h.(players := h.players + [p], totalPlayers := h.totalPlayers + 1)
  }

  /**
   * Exploring: a finished player, a missing item or an already explored
   * location changes nothing. Otherwise the location is marked explored,
   * its treasure is picked up, 25 points are added, and at the final
   * location 100 more and the hunt ends.
   */
  function Explored(h: Hunt, k: nat): Hunt
    requires k < |h.players| && Inv(h)
  {
    var p := h.players[k];
    if p.current.None? then h
    else
      var i := p.current.value;
      var loc := h.locations[i];
      if !Holds(p, loc.requiredItem) || loc.visited then h
      else
        var p1 := AddedToInventory(p, loc.treasure);
        var p2 := p1.(score := p1.score + ExplorePoints);
        var p3 := if loc.isFinal then p2.(score := p2.score + FinalPoints, current := None) else p2;
        h.(locations := h.locations[i := loc.(visited := true)], players := h.players[k := p3])
  }

  /** Moving on needs the current location's item and a next location. */
  function MovedOn(h: Hunt, k: nat): Hunt
    requires k < |h.players| && Inv(h)
  {
    var p := h.players[k];
    if p.current.None? then h
    else
      var i := p.current.value;
      if !Holds(p, h.locations[i].requiredItem) || i + 1 >= |h.locations| then h
      else h.(players := h.players[k := p.(current := Some(i + 1))])
  }

  // ---------------------------------------------------------------------
  // Properties

  /**
   * Picking up an item never loses one already carried, never lowers the
   * score, keeps the player's invariant, and while there is room the item
   * is carried afterwards.
   */
  lemma AddToInventoryKeeps(p: Player, item: string, routeLength: nat)
    requires PlayerInv(p, routeLength)
    ensures var q := AddedToInventory(p, item);
      && PlayerInv(q, routeLength)
      && q.score >= p.score
      && (forall x :: Holds(p, x) ==> Holds(q, x))
      && (|p.inventory| < InventoryCapacity <==> Holds(q, item) && |q.inventory| == |p.inventory| + 1)
      && q.current == p.current
  {
    var q := AddedToInventory(p, item);
    if |p.inventory| < InventoryCapacity {
      assert q.inventory[|p.inventory|] == item;
    }
  }

  /** A new player joins at the end, at the start of the route, with nothing. */
  lemma AddPlayerKeepsInv(h: Hunt, name: string, id: int)
    requires Inv(h)
    ensures var h' := PlayerAdded(h, name, id);
      && Inv(h')
      && h'.players[..|h.players|] == h.players
      && h'.players[|h.players|].id == id
      && h'.players[|h.players|].score == 0
      && (h.locations != [] ==> h'.players[|h.players|].current == Some(0))
  {
    var h' := PlayerAdded(h, name, id);
    assert forall k :: 0 <= k < |h.players| ==> h'.players[k] == h.players[k];
  }

  /**
   * Exploring changes nothing for a finished player or one without the
   * location's item. It keeps the invariant, never lowers a score, never
   * unmarks an explored location, and touches no other player.
   */
  lemma ExploreKeepsInv(h: Hunt, k: nat)
    requires k < |h.players| && Inv(h)
    ensures var h' := Explored(h, k);
      && Inv(h')
      && |h'.players| == |h.players| && |h'.locations| == |h.locations|
      && (h.players[k].current.None? ==> h' == h)
      && (h.players[k].current.Some? && !Holds(h.players[k], h.locations[h.players[k].current.value].requiredItem) ==> h' == h)
      && h'.players[k].score >= h.players[k].score
      && (forall j :: 0 <= j < |h.players| && j != k ==> h'.players[j] == h.players[j])
      && (forall i :: 0 <= i < |h.locations| && h.locations[i].visited ==> h'.locations[i].visited)
  {
    var p := h.players[k];
    if p.current.Some? {
      var i := p.current.value;
      var loc := h.locations[i];
      if Holds(p, loc.requiredItem) && !loc.visited {
        AddToInventoryKeeps(p, loc.treasure, |h.locations|);
      }
    }
  }

  /**
   * The first exploration of a location the player may enter marks it
   * explored and pays at least 25 points (35 with room for the treasure);
   * at the final location it pays 100 more and ends the player's hunt.
   */
  lemma ExploreRewards(h: Hunt, k: nat)
    requires k < |h.players| && Inv(h)
    requires h.players[k].current.Some?
    ensures var p, i := h.players[k], h.players[k].current.value;
      var h' := Explored(h, k);
      && (h.locations[i].visited || !Holds(p, h.locations[i].requiredItem) <==> h' == h)
      && (h' != h ==>
          && h'.locations[i].visited
          && h'.players[k].score == p.score + ExplorePoints
               + (if |p.inventory| < InventoryCapacity then ItemPoints else 0)
               + (if h.locations[i].isFinal then FinalPoints else 0)
          && (h.locations[i].isFinal <==> h'.players[k].current.None?))
  {
    var p, i := h.players[k], h.players[k].current.value;
    if !h.locations[i].visited && Holds(p, h.locations[i].requiredItem) {
      var h' := Explored(h, k);
      assert h'.locations[i].visited != h.locations[i].visited;
    }
  }

  /**
   * Moving on advances exactly one location when the player carries the
   * required item and the route goes on; otherwise nothing changes. It keeps
   * the invariant and changes no score.
   */
  lemma MoveKeepsInv(h: Hunt, k: nat)
    requires k < |h.players| && Inv(h)
    ensures var p, h' := h.players[k], MovedOn(h, k);
      && Inv(h')
      && h'.locations == h.locations
      && (h' != h <==> p.current.Some? && Holds(p, h.locations[p.current.value].requiredItem)
                       && p.current.value + 1 < |h.locations|)
      && (h' != h ==> h'.players == h.players[k := p.(current := Some(p.current.value + 1))])
      && h'.players[k].score == p.score
  {
    var p := h.players[k];
    if p.current.Some? && Holds(p, h.locations[p.current.value].requiredItem) && p.current.value + 1 < |h.locations| {
      assert MovedOn(h, k).players[k].current != p.current;
    }
  }

  // ---------------------------------------------------------------------
  // Searches

  /** Whether the player may pass the gate, checking the inventory in order. */
  method HasRequiredItem(p: Player, item: string) returns (r: bool)
    ensures r == Holds(p, item)
  {
    if item == NoItem {
      return true;
    }
    var i := 0;
    while i < |p.inventory|
      invariant 0 <= i <= |p.inventory|
      invariant forall j :: 0 <= j < i ==> p.inventory[j] != item
    {
      if p.inventory[i] == item {
        return true;
      }
      i := i + 1;
    }
    r := false;
  }

  function IndexOfPlayer(ps: seq<Player>, id: int): (k: nat)
    ensures k <= |ps|
    ensures forall j :: 0 <= j < k ==> ps[j].id != id
    ensures k < |ps| ==> ps[k].id == id
  {
    if ps == [] then 0
    else if ps[0].id == id then 0
    else 1 + IndexOfPlayer(ps[1..], id)
  }

  /** The first player with the id, or None. */
  method FindPlayer(ps: seq<Player>, id: int) returns (k: Option<nat>)
    ensures k.None? <==> forall j :: 0 <= j < |ps| ==> ps[j].id != id
    ensures k.Some? ==> k.value == IndexOfPlayer(ps, id) < |ps|
  {
    var i := 0;
    while i < |ps|
      invariant 0 <= i <= |ps|
      invariant forall j :: 0 <= j < i ==> ps[j].id != id
    {
      if ps[i].id == id {
        return Some(i);
      }
      i := i + 1;
    }
    return None;
  }

  // ---------------------------------------------------------------------
  // The game, updated in place

  class TreasureHunt {
    var locations: seq<Location>
    var players: seq<Player>
    var totalLocations: int
    var totalPlayers: int

    ghost function State(): Hunt
      reads this
    {
      Hunt(locations, players, totalLocations, totalPlayers)
    }

    ghost predicate Valid()
      reads this
    {
      Inv(State())
    }

    /** A hunt over the given route, with every location unexplored and no players. */
    constructor (route: seq<Location>)
      ensures Valid() && players == []
      ensures |locations| == |route|
      ensures forall i :: 0 <= i < |route| ==> locations[i] == route[i].(visited := false)
    {
      locations := seq(|route|, i requires 0 <= i < |route| => route[i].(visited := false));
      players := [];
      totalLocations := |route|;
      totalPlayers := 0;
    }

    method AddPlayer(name: string, id: int)
      requires Valid()
      modifies this
      ensures Valid()
      ensures State() == PlayerAdded(old(State()), name, id)
    {
      AddPlayerKeepsInv(State(), name, id);
      var p := Player(name, id, if locations == [] then None else Some(0), [], 0);
      players := players + [p];
      totalPlayers := totalPlayers + 1;
    }

    method ExploreLocation(k: nat)
      requires Valid() && k < |players|
      modifies this
      ensures Valid()
      ensures State() == Explored(old(State()), k)
    {
      ExploreKeepsInv(State(), k);
      var p := players[k];
      if p.current.None? {
        return;
      }
      var i := p.current.value;
      var loc := locations[i];
      var ok := HasRequiredItem(p, loc.requiredItem);
      if !ok || loc.visited {
        return;
      }
      locations := locations[i := loc.(visited := true)];
      if |p.inventory| < InventoryCapacity {
        p := p.(inventory := p.inventory + [loc.treasure], score := p.score + ItemPoints);
      }
      p := p.(score := p.score + ExplorePoints);
      if loc.isFinal {
        p := p.(score := p.score + FinalPoints, current := None);
      }
      players := players[k := p];
    }

    method MoveToNextLocation(k: nat)
      requires Valid() && k < |players|
      modifies this
      ensures Valid()
      ensures State() == MovedOn(old(State()), k)
    {
      MoveKeepsInv(State(), k);
      var p := players[k];
      if p.current.None? {
        return;
      }
      var i := p.current.value;
      var ok := HasRequiredItem(p, locations[i].requiredItem);
      if !ok || i + 1 >= |locations| {
        return;
      }
      players := players[k := p.(current := Some(i + 1))];
    }
  }
}
