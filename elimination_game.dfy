/**
 * The Josephus elimination game: players stand in a circle, and each round
 * counts k active players starting from the current one, eliminates the
 * last one counted and hands the turn to the next active player. The
 * circle is kept as a sequence in circle order from the head; an
 * eliminated player stays in the circle with its active flag cleared.
 */
module EliminationGame {
  import opened Common

  datatype Player = Player(number: int, name: string, active: bool)

  // ---------------------------------------------------------------------
  // Active flags, their count, and the positions of the active players

  function Flags(ps: seq<Player>): (a: seq<bool>)
    ensures |a| == |ps|
  {
    seq(|ps|, i requires 0 <= i < |ps| => ps[i].active)
  }

  /** The number of active players before position j. */
  function Rank(a: seq<bool>, j: nat): nat
    requires j <= |a|
  {
    if j == 0 then 0 else Rank(a, j - 1) + (if a[j - 1] then 1 else 0)
  }

  /** The number of active players. */
  function Count(a: seq<bool>): nat {
    Rank(a, |a|)
  }

  /** The positions of the active players before position t, in circle order. */
  function ActBefore(a: seq<bool>, t: nat): (r: seq<nat>)
    requires t <= |a|
    ensures |r| == Rank(a, t)
  {
    if t == 0 then [] else ActBefore(a, t - 1) + (if a[t - 1] then [t - 1] else [])
  }

  /** The positions of the active players, in circle order. */
  function Act(a: seq<bool>): (r: seq<nat>)
    ensures |r| == Count(a)
  {
    ActBefore(a, |a|)
  }

  /** Two circles that agree before position t have the same rank there. */
  lemma {:induction false} RankPrefix(a: seq<bool>, b: seq<bool>, t: nat)
    requires t <= |a| && t <= |b| && forall i :: 0 <= i < t ==> a[i] == b[i]
    ensures Rank(a, t) == Rank(b, t)
    decreases t
  {
    if t > 0 {
      RankPrefix(a, b, t - 1);
    }
  }

  /** Across a stretch of inactive players the rank does not change. */
  lemma {:induction false} RankFlat(a: seq<bool>, j: nat, t: nat)
    requires j <= t <= |a|
    requires forall i :: j <= i < t ==> !a[i]
    ensures Rank(a, t) == Rank(a, j)
    decreases t - j
  {
    if j < t {
      RankFlat(a, j, t - 1);
    }
  }

  lemma {:induction false} RankMono(a: seq<bool>, j: nat, t: nat)
    requires j <= t <= |a|
    ensures Rank(a, j) <= Rank(a, t)
    decreases t - j
  {
    if j < t {
      RankMono(a, j, t - 1);
    }
  }

  lemma {:induction false} ActBeforeAt(a: seq<bool>, t: nat, j: nat)
    requires t <= |a| && j < Rank(a, t)
    ensures ActBefore(a, t)[j] < t && a[ActBefore(a, t)[j]] && Rank(a, ActBefore(a, t)[j]) == j
    decreases t
  {
    if j < Rank(a, t - 1) {
      ActBeforeAt(a, t - 1, j);
    }
  }

  /** The j-th active position is an active player with exactly j active players before it. */
  lemma ActAt(a: seq<bool>, j: nat)
    requires j < Count(a)
    ensures Act(a)[j] < |a| && a[Act(a)[j]] && Rank(a, Act(a)[j]) == j
  {
    ActBeforeAt(a, |a|, j);
  }

  lemma {:induction false} RankActBefore(a: seq<bool>, t: nat, j: nat)
    requires j < t <= |a| && a[j]
    ensures Rank(a, j) < Rank(a, t) && ActBefore(a, t)[Rank(a, j)] == j
    decreases t
  {
    if j < t - 1 {
      RankActBefore(a, t - 1, j);
    }
  }

  /** An active player appears in the active positions at its rank. */
  lemma RankAct(a: seq<bool>, j: nat)
    requires j < |a| && a[j]
    ensures Rank(a, j) < Count(a) && Act(a)[Rank(a, j)] == j
  {
    RankActBefore(a, |a|, j);
  }

  /** Clearing a flag changes nothing before it. */
  lemma {:induction false} ClearedBefore(a: seq<bool>, x: nat, t: nat)
    requires t <= x < |a|
    ensures Rank(a[x := false], t) == Rank(a, t) && ActBefore(a[x := false], t) == ActBefore(a, t)
    decreases t
  {
    if t > 0 {
      ClearedBefore(a, x, t - 1);
    }
  }

  lemma RemoveAtAppend(s: seq<nat>, tail: seq<nat>, i: nat)
    requires i < |s|
    ensures RemoveAt(s + tail, i) == RemoveAt(s, i) + tail
  {
  }

  lemma {:induction false} ClearedAfter(a: seq<bool>, x: nat, t: nat)
    requires x < t <= |a| && a[x]
    ensures Rank(a, x) < Rank(a, t)
    ensures Rank(a[x := false], t) + 1 == Rank(a, t)
    ensures ActBefore(a[x := false], t) == RemoveAt(ActBefore(a, t), Rank(a, x))
    decreases t
  {
    ClearedBefore(a, x, x);
    if t == x + 1 {
      assert ActBefore(a, t) == ActBefore(a, x) + [x];
    } else {
      ClearedAfter(a, x, t - 1);
      var tail := if a[t - 1] then [t - 1] else [];
      RemoveAtAppend(ActBefore(a, t - 1), tail, Rank(a, x));
    }
  }

  /** Clearing one active flag removes that player from the active positions. */
  lemma ActClear(a: seq<bool>, x: nat)
    requires x < |a| && a[x]
    ensures Rank(a, x) < Count(a)
    ensures Act(a[x := false]) == RemoveAt(Act(a), Rank(a, x))
    ensures Count(a[x := false]) + 1 == Count(a)
  {
    ClearedAfter(a, x, |a|);
  }

  /** Every flag set: the rank of j is j. */
  lemma {:induction false} AllActive(a: seq<bool>, j: nat)
    requires forall i :: 0 <= i < |a| ==> a[i]
    requires j <= |a|
    ensures Rank(a, j) == j
    decreases j
  {
    if 0 < j {
      AllActive(a, j - 1);
    }
  }

  /** Every flag set: everyone is active, and the j-th active position is j. */
  lemma AllActiveAt(a: seq<bool>, j: nat)
    requires forall i :: 0 <= i < |a| ==> a[i]
    requires j < |a|
    ensures Count(a) == |a| && Act(a)[j] == j
  {
    AllActive(a, |a|);
    AllActive(a, j);
    RankAct(a, j);
  }

  // ---------------------------------------------------------------------
  // Remainders, used to follow positions among the active players

  /** The remainder of x divided by m. */
  function Mod(x: nat, m: nat): (r: nat)
    requires m > 0
    ensures r < m
    decreases x
  {
    if x < m then x else Mod(x - m, m)
  }

  /** Adding after taking the remainder gives the same remainder. */
  lemma {:induction false} ModShift(x: nat, y: nat, m: nat)
    requires m > 0
    ensures Mod(Mod(x, m) + y, m) == Mod(x + y, m)
    decreases x
  {
    if x >= m {
      ModShift(x - m, y, m);
    }
  }

  // ---------------------------------------------------------------------
  // Moving around the circle

  /**
   * The first active player strictly after position c going round the
   * circle (c itself when it is the only active one).
   */
  function Next(a: seq<bool>, c: nat): (t: nat)
    requires c < |a| && Count(a) > 0
    ensures t < |a| && a[t]
  {
    ActAt(a, Mod(Rank(a, c + 1), Count(a)));
    Act(a)[Mod(Rank(a, c + 1), Count(a))]
  }

  /** The position e steps round a circle of n from position c, for e at most n. */
  function Ahead(c: nat, e: nat, n: nat): nat
    requires c < n && e <= n
  {
    if c + e < n then c + e else c + e - n
  }

  /** The next active player found before the end of the circle. */
  lemma NextIsAhead(a: seq<bool>, c: nat, t: nat)
    requires c < t < |a| && a[t] && Count(a) > 0
    requires forall i :: c < i < t ==> !a[i]
    ensures Next(a, c) == t
  {
    RankAct(a, t);
    RankFlat(a, c + 1, t);
  }

  /** No active player after c: the next one is the first active player from the head. */
  lemma NextIsWrapped(a: seq<bool>, c: nat, t: nat)
    requires t <= c < |a| && a[t] && Count(a) > 0
    requires forall i :: c < i < |a| ==> !a[i]
    requires forall i :: 0 <= i < t ==> !a[i]
    ensures Next(a, c) == t
  {
    RankAct(a, t);
    RankFlat(a, c + 1, |a|);
    assert Mod(Count(a), Count(a)) == 0;
    RankFlat(a, 0, t);
  }

  /**
   * Position t, d steps round the circle from c, is active and every
   * position passed on the way is not: then t is the next active player.
   */
  lemma NextIs(a: seq<bool>, c: nat, d: nat)
    requires c < |a| && 1 <= d <= |a| && Count(a) > 0
    requires a[Ahead(c, d, |a|)]
    requires forall e :: 1 <= e < d ==> !a[Ahead(c, e, |a|)]
    ensures Next(a, c) == Ahead(c, d, |a|)
  {
    var n, t := |a|, Ahead(c, d, |a|);
    if c + d < n {
      forall i | c < i < t
        ensures !a[i]
      {
        assert Ahead(c, i - c, n) == i;
      }
      NextIsAhead(a, c, t);
    } else {
      forall i | c < i < n
        ensures !a[i]
      {
        assert Ahead(c, i - c, n) == i;
      }
      forall i | 0 <= i < t
        ensures !a[i]
      {
        assert Ahead(c, i + n - c, n) == i;
      }
      NextIsWrapped(a, c, t);
    }
  }

  /** With no active player anywhere round the circle, nobody is active. */
  lemma NoneActive(a: seq<bool>, c: nat)
    requires c < |a|
    requires forall e :: 1 <= e <= |a| ==> !a[Ahead(c, e, |a|)]
    ensures Count(a) == 0
  {
    var n := |a|;
    forall i | 0 <= i < n
      ensures !a[i]
    {
      if c < i {
        assert Ahead(c, i - c, n) == i;
      } else {
        assert Ahead(c, i + n - c, n) == i;
      }
    }
    RankFlat(a, 0, n);
  }

  /**
   * Walks forward from the player after c until it meets an active one;
   * some player must be active.
   */
  method NextActive(ps: seq<Player>, c: nat) returns (t: nat)
    requires c < |ps| && Count(Flags(ps)) > 0
    ensures t == Next(Flags(ps), c)
  {
    var n := |ps|;
    ghost var a := Flags(ps);
    t := if c + 1 == n then 0 else c + 1;
    ghost var d := 1;
    while !ps[t].active
      invariant 1 <= d <= n && t == Ahead(c, d, n)
      invariant forall e :: 1 <= e < d ==> !a[Ahead(c, e, n)]
      decreases n - d
    {
      if d == n {
        NoneActive(a, c);
        assert false;
      }
      t := if t + 1 == n then 0 else t + 1;
      d := d + 1;
    }
    NextIs(a, c, d);
  }

  /**
   * Counts k active players starting with the one at c (counted as the
   * first) and returns the last one counted.
   */
  method CountOff(ps: seq<Player>, c: nat, k: int) returns (node: nat)
    requires c < |ps| && Count(Flags(ps)) > 0
    ensures node == Advance(Flags(ps), c, Steps(k))
  {
    ghost var a := Flags(ps);
    node := c;
    var count := 1;
    while count < k
      invariant 1 <= count && (count <= k || count == 1)
      invariant node == Advance(a, c, count - 1)
    {
      node := NextActive(ps, node);
      assert node == Advance(a, c, count);
      count := count + 1;
    }
  }

  /** s steps of Next from c. */
  function Advance(a: seq<bool>, c: nat, s: nat): (t: nat)
    requires c < |a| && Count(a) > 0
    ensures t < |a|
  {
    if s == 0 then c else Next(a, Advance(a, c, s - 1))
  }

  /** The number of steps a count of k takes: counting starts at the current player as 1. */
  function Steps(k: int): nat {
    if k > 1 then k - 1 else 0
  }

  /** Next, seen on the active positions: the active player after the j-th is the (j+1)-th, cyclically. */
  lemma NextOnActive(a: seq<bool>, j: nat)
    requires j < Count(a)
    ensures Act(a)[j] < |a|
    ensures Next(a, Act(a)[j]) == Act(a)[Mod(j + 1, Count(a))]
  {
    ActAt(a, j);
  }

  /** s steps from the q-th active player lead to the (q+s)-th, cyclically. */
  lemma {:induction false} AdvanceOnActive(a: seq<bool>, q: nat, s: nat)
    requires q < Count(a)
    ensures Act(a)[q] < |a|
    ensures Advance(a, Act(a)[q], s) == Act(a)[Mod(q + s, Count(a))]
    decreases s
  {
    ActAt(a, q);
    var m := Count(a);
    if s > 0 {
      var p := Mod(q + s - 1, m);
      assert Advance(a, Act(a)[q], s - 1) == Act(a)[p] by {
        AdvanceOnActive(a, q, s - 1);
      }
      assert Next(a, Act(a)[p]) == Act(a)[Mod(p + 1, m)] by {
        NextOnActive(a, p);
      }
      assert Mod(p + 1, m) == Mod(q + s, m) by {
        ModShift(q + s - 1, 1, m);
      }
    }
  }

  // ---------------------------------------------------------------------
  // The game

  datatype Game = Game(
    players: seq<Player>,
    current: nat,
    totalPlayers: int,
    activePlayers: int,
    eliminationCount: int,
    round: int)

  /**
   * The counters agree with the circle, and the current player is an
   * active member of a non-empty circle (position 0 stands for no player).
   */
  ghost predicate Inv(g: Game) {
    && g.totalPlayers == |g.players|
    && g.activePlayers == Count(Flags(g.players))
    && g.round >= 1
    && (g.players == [] ==> g.current == 0)
    && (g.players != [] ==> g.current < |g.players| && g.players[g.current].active && g.activePlayers >= 1)
  }

  /** The new player joins, active, just before the head; the first one becomes current. */
  function Added(g: Game, number: int, name: string): Game {
    g.(players := g.players + [Player(number, name, true)],
       totalPlayers := g.totalPlayers + 1,
       activePlayers := g.activePlayers + 1)
  }

  lemma AddKeepsInv(g: Game, number: int, name: string)
    requires Inv(g)
    ensures Inv(Added(g, number, name))
  {
    var ps := g.players + [Player(number, name, true)];
    RankPrefix(Flags(ps), Flags(g.players), |g.players|);
  }

  /** The player counted and removed this round, when at least two are active. */
  function Victim(g: Game): (x: nat)
    requires Inv(g) && g.activePlayers >= 2
    ensures x < |g.players| && g.players[x].active
  {
    Advance(Flags(g.players), g.current, Steps(g.eliminationCount))
  }

  function Cleared(ps: seq<Player>, x: nat): seq<Player>
    requires x < |ps|
  {
    ps[x := ps[x].(active := false)]
  }

  lemma ClearedFlags(ps: seq<Player>, x: nat)
    requires x < |ps|
    ensures Flags(Cleared(ps, x)) == Flags(ps)[x := false]
  {
  }

  /**
   * One round: a no-op with at most one active player; otherwise the victim
   * is eliminated, the turn passes to the next active player after it and
   * the round number grows.
   */
  function Eliminated(g: Game): Game
    requires Inv(g)
  {
    if g.activePlayers <= 1 then g
    else
      var x := Victim(g);
      var ps := Cleared(g.players, x);
      ClearedFlags(g.players, x);
      ActClear(Flags(g.players), x);
      g.(players := ps, activePlayers := g.activePlayers - 1, current := Next(Flags(ps), x), round := g.round + 1)
  }

  lemma EliminateKeepsInv(g: Game)
    requires Inv(g)
    ensures Inv(Eliminated(g))
    ensures Eliminated(g).eliminationCount == g.eliminationCount
    ensures |Eliminated(g).players| == |g.players|
    ensures g.activePlayers >= 2 ==> Eliminated(g).activePlayers == g.activePlayers - 1
    ensures g.activePlayers >= 2 ==> Eliminated(g).round == g.round + 1
  {
    if g.activePlayers >= 2 {
      var x := Victim(g);
      ClearedFlags(g.players, x);
      ActClear(Flags(g.players), x);
    }
  }

  /** Every player active again, the head current, round one. */
  function Restarted(g: Game): Game {
    g.(players := seq(|g.players|, i requires 0 <= i < |g.players| => g.players[i].(active := true)),
       activePlayers := g.totalPlayers,
       current := 0,
       round := 1)
  }

  lemma RestartKeepsInv(g: Game)
    requires Inv(g)
    ensures Inv(Restarted(g))
  {
    var a := Flags(Restarted(g).players);
    AllActive(a, |a|);
  }

  // ---------------------------------------------------------------------
  // The game seen on the active players only, and the Josephus survivor

  /**
   * The game played on m players in a row, from the q-th: each round
   * removes the player s places on, cyclically, and continues from the one
   * after it. The result is the index, in the original row, of the last
   * one left.
   */
  function SurvivorAt(m: nat, q: nat, s: nat): (i: nat)
    requires q < m
    ensures i < m
    decreases m
  {
    if m == 1 then 0
    else
      var v := Mod(q + s, m);
      var i := SurvivorAt(m - 1, Following(v, m), s);
      if i < v then i else i + 1
  }

  /** Where play resumes in a row of m after the player at v leaves it. */
  function Following(v: nat, m: nat): nat
  {
    if v + 1 < m then v else 0
  }

  /** The 0-based Josephus position for n players eliminating every k-th. */
  function Josephus(n: nat, k: nat): (j: nat)
    requires n >= 1
    ensures j < n
  {
    if n == 1 then 0 else Mod(Josephus(n - 1, k) + k, n)
  }

  /**
   * Counting j places on from the removed index in the shortened row lands
   * on the player j + 1 places on from it in the original row.
   */
  lemma CyclicAfterRemoval(m: nat, v: nat, j: nat)
    requires 2 <= m && v < m && j < m - 1
    ensures var i := Mod(Following(v, m) + j, m - 1);
      (if i < v then i else i + 1) == Mod(v + 1 + j, m)
  {
    ModShift(v, j, m - 1);
    if v + j >= m - 1 {
      assert Mod(v + j - (m - 1), m - 1) == v + j - (m - 1);
      assert Mod(v + 1 + j - m, m) == v + 1 + j - m;
    }
  }

  /** The position arithmetic of one Josephus round. */
  lemma JosephusShift(q: nat, s: nat, j: nat, m: nat)
    requires m > 0
    ensures Mod(Mod(q + s, m) + 1 + j, m) == Mod(q + Mod(j + (s + 1), m), m)
  {
    ModShift(q + s, 1 + j, m);
    ModShift(j + (s + 1), q, m);
    assert q + s + (1 + j) == j + (s + 1) + q;
  }

  /** The position arithmetic of one round: removal at v, then j more places. */
  lemma RoundArithmetic(m: nat, q: nat, s: nat, j: nat, i: nat)
    requires 2 <= m && q < m && j < m - 1
    requires i == Mod(Following(Mod(q + s, m), m) + j, m - 1)
    ensures (if i < Mod(q + s, m) then i else i + 1) == Mod(q + Mod(j + (s + 1), m), m)
  {
    CyclicAfterRemoval(m, Mod(q + s, m), j);
    JosephusShift(q, s, j, m);
  }

  /** The survivor sits Josephus(m, s+1) places after the starting player. */
  lemma {:induction false} SurvivorIsJosephus(m: nat, q: nat, s: nat)
    requires q < m
    ensures SurvivorAt(m, q, s) == Mod(q + Josephus(m, s + 1), m)
    decreases m
  {
    if m > 1 {
      var w := Following(Mod(q + s, m), m);
      SurvivorIsJosephus(m - 1, w, s);
      RoundArithmetic(m, q, s, Josephus(m - 1, s + 1), SurvivorAt(m - 1, w, s));
    }
  }

  /** The current player's place among the active players. */
  function Place(g: Game): (q: nat)
    requires Inv(g) && g.players != []
    ensures q < Count(Flags(g.players))
  {
    RankAct(Flags(g.players), g.current);
    Rank(Flags(g.players), g.current)
  }

  /** The survivor of the abstract game played from the state of the circle. */
  function Standing(g: Game): nat
    requires Inv(g) && g.players != []
  {
    Act(Flags(g.players))[SurvivorAt(g.activePlayers, Place(g), Steps(g.eliminationCount))]
  }

  /** The victim is the active player Steps(k) places after the current one, cyclically. */
  lemma VictimAt(g: Game)
    requires Inv(g) && g.activePlayers >= 2
    ensures Victim(g) == Act(Flags(g.players))[Mod(Place(g) + Steps(g.eliminationCount), g.activePlayers)]
  {
    var a := Flags(g.players);
    RankAct(a, g.current);
    AdvanceOnActive(a, Place(g), Steps(g.eliminationCount));
  }

  /** After clearing x, the next active player is the one that followed x among the active positions. */
  lemma NextAfterCleared(a: seq<bool>, x: nat)
    requires x < |a| && a[x] && Count(a) >= 2
    ensures Count(a[x := false]) + 1 == Count(a)
    ensures var a' := a[x := false];
      var v := Mod(Rank(a, x), Count(a) - 1);
      && Next(a', x) == Act(a')[v]
      && Rank(a', Next(a', x)) == v
  {
    ActClear(a, x);
    ClearedBefore(a, x, x);
    ActAt(a[x := false], Mod(Rank(a, x), Count(a) - 1));
  }

  /** One elimination, seen on the active players, is one step of the abstract game. */
  lemma EliminatedView(g: Game)
    requires Inv(g) && g.activePlayers >= 2
    ensures var a, a' := Flags(g.players), Flags(Eliminated(g).players);
      var m, q := Count(a), Place(g);
      var v := Mod(q + Steps(g.eliminationCount), m);
      && Act(a') == RemoveAt(Act(a), v)
      && Rank(a', Eliminated(g).current) == Following(v, m)
  {
    var a := Flags(g.players);
    var m := Count(a);
    var v := Mod(Place(g) + Steps(g.eliminationCount), m);
    var x := Victim(g);
    assert x == Act(a)[v] by {
      VictimAt(g);
    }
    assert Rank(a, x) == v by {
      ActAt(a, v);
    }
    ClearedFlags(g.players, x);
    assert Act(a[x := false]) == RemoveAt(Act(a), v) by {
      ActClear(a, x);
    }
    NextAfterCleared(a, x);
    assert Mod(v, m - 1) == Following(v, m);
  }

  /** One round keeps the abstract survivor and removes one active player. */
  lemma EliminatedStanding(g: Game)
    requires Inv(g) && g.players != [] && g.activePlayers >= 2
    ensures Inv(Eliminated(g)) && Eliminated(g).players != []
    ensures Eliminated(g).activePlayers + 1 == g.activePlayers
    ensures Standing(Eliminated(g)) == Standing(g)
  {
    EliminateKeepsInv(g);
    EliminatedView(g);
  }

  /** With one active player left, the abstract survivor is that player, and it holds the turn. */
  lemma LastOneStanding(g: Game)
    requires Inv(g) && g.players != [] && g.activePlayers == 1
    ensures Act(Flags(g.players)) == [Standing(g)] && g.current == Standing(g)
  {
    var a := Flags(g.players);
    var A := Act(a);
    assert A == [A[0]];
    RankAct(a, g.current);
  }

  /** In a fresh circle the abstract survivor is the Josephus position. */
  lemma FreshStanding(g: Game)
    requires Inv(g) && g.players != [] && g.current == 0 && g.eliminationCount >= 1
    requires forall i :: 0 <= i < |g.players| ==> g.players[i].active
    ensures Standing(g) == Josephus(|g.players|, g.eliminationCount)
  {
    var n, k := |g.players|, g.eliminationCount;
    var a := Flags(g.players);
    AllActive(a, 0);
    SurvivorIsJosephus(n, 0, Steps(k));
    var j := Josephus(n, k);
    assert Mod(0 + j, n) == j;
    AllActiveAt(a, j);
  }

  /** A circle whose only active position is w. */
  lemma OnlyActive(ps: seq<Player>, w: nat)
    requires Act(Flags(ps)) == [w]
    ensures forall i :: 0 <= i < |ps| ==> (ps[i].active <==> i == w)
  {
    var a := Flags(ps);
    ActAt(a, 0);
    forall i | 0 <= i < |ps| && ps[i].active
      ensures i == w
    {
      RankAct(a, i);
    }
  }

  /** Walks from the head to the first active player. */
  method FirstActive(ps: seq<Player>) returns (i: nat)
    requires Count(Flags(ps)) > 0
    ensures Act(Flags(ps)) != [] && i == Act(Flags(ps))[0]
  {
    ghost var a := Flags(ps);
    i := 0;
    while !ps[i].active
      invariant i < |ps| && forall j :: 0 <= j < i ==> !a[j]
      decreases |ps| - i
    {
      if i + 1 == |ps| {
        RankFlat(a, 0, |ps|);
        assert false;
      }
      i := i + 1;
    }
    RankFlat(a, 0, i);
    RankAct(a, i);
  }

  // ---------------------------------------------------------------------
  // The imperative game

  class EliminationGame {
    var players: seq<Player>
    var current: nat
    var totalPlayers: int
    var activePlayers: int
    var eliminationCount: int
    var round: int

    ghost function State(): Game
      reads this
    {
      Game(players, current, totalPlayers, activePlayers, eliminationCount, round)
    }

    ghost predicate Valid()
      reads this
    {
      Inv(State())
    }

    /** An empty circle with elimination count k, at round one. */
    constructor (k: int)
      ensures Valid() && players == [] && eliminationCount == k && round == 1
      ensures totalPlayers == 0 && activePlayers == 0
    {
      players := [];
      current := 0;
      totalPlayers := 0;
      activePlayers := 0;
      eliminationCount := k;
      round := 1;
    }

    method AddPlayer(number: int, name: string)
      requires Valid()
      modifies this
      ensures Valid()
      ensures State() == Added(old(State()), number, name)
    {
      AddKeepsInv(State(), number, name);
      players := players + [Player(number, name, true)];
      totalPlayers := totalPlayers + 1;
      activePlayers := activePlayers + 1;
    }

    /** Clears the victim's flag and, while anyone is active, passes the turn on from it. */
    method EliminatePlayer(x: nat)
      requires Valid() && x < |players| && players[x].active && activePlayers >= 2
      modifies this
      ensures players == Cleared(old(players), x) && activePlayers == old(activePlayers) - 1
      ensures activePlayers == Count(Flags(players))
      ensures current == Next(Flags(players), x)
      ensures totalPlayers == old(totalPlayers) && eliminationCount == old(eliminationCount) && round == old(round)
    {
      ClearedFlags(players, x);
      ActClear(Flags(players), x);
      players := Cleared(players, x);
      activePlayers := activePlayers - 1;
      if activePlayers > 0 {
        current := NextActive(players, x);
      }
    }

    /**
     * Counts eliminationCount active players from the current one (which
     * counts as the first) and eliminates the last one counted.
     */
    method PerformElimination()
      requires Valid()
      modifies this
      ensures Valid()
      ensures State() == Eliminated(old(State()))
      ensures old(activePlayers) <= 1 ==> State() == old(State())
    {
      EliminateKeepsInv(State());
      if activePlayers <= 1 {
        return;
      }
      var node := CountOff(players, current, eliminationCount);
      EliminatePlayer(node);
      round := round + 1;
    }

    /**
     * Plays rounds until one player is left and returns that player's
     * position, found by walking from the head: the survivor of the
     * abstract game, and in a fresh circle the Josephus position.
     */
    method PlayEntireGame() returns (winner: nat)
      requires Valid() && players != []
      modifies this
      ensures Valid() && |players| == |old(players)| && eliminationCount == old(eliminationCount)
      ensures winner == Standing(old(State()))
      ensures activePlayers == 1 && current == winner
      ensures forall i :: 0 <= i < |players| ==> (players[i].active <==> i == winner)
      ensures round == old(round) + old(activePlayers) - 1
      ensures old(current) == 0 && old(eliminationCount) >= 1 && (forall i :: 0 <= i < |old(players)| ==> old(players)[i].active) ==>
        winner == Josephus(|players|, eliminationCount)
    {
      if current == 0 && eliminationCount >= 1 && forall i :: 0 <= i < |players| ==> players[i].active {
        FreshStanding(State());
      }
      while activePlayers > 1
        invariant Valid() && players != [] && |players| == |old(players)| && eliminationCount == old(eliminationCount)
        invariant Standing(State()) == Standing(old(State()))
        invariant round + activePlayers == old(round) + old(activePlayers)
        decreases activePlayers
      {
        EliminatedStanding(State());
        EliminateKeepsInv(State());
        PerformElimination();
      }
      LastOneStanding(State());
      OnlyActive(players, Standing(State()));
      winner := FirstActive(players);
    }

    /** Reactivates every player and starts over from the head at round one. */
    method ResetGame()
      requires Valid()
      modifies this
      ensures Valid()
      ensures State() == Restarted(old(State()))
    {
      RestartKeepsInv(State());
      var i := 0;
      while i < |players|
        invariant 0 <= i <= |players| && |players| == |old(players)|
        invariant forall j :: 0 <= j < |players| ==>
          players[j] == if j < i then old(players[j]).(active := true) else old(players[j])
        invariant totalPlayers == old(totalPlayers) && eliminationCount == old(eliminationCount)
      {
        players := players[i := players[i].(active := true)];
        i := i + 1;
      }
      assert players == Restarted(old(State())).players;
      activePlayers := totalPlayers;
      current := 0;
      round := 1;
    }

    method ChangeEliminationCount(k: int)
      requires Valid()
      modifies this
      ensures Valid()
      ensures State() == old(State()).(eliminationCount := k)
    {
      eliminationCount := k;
    }
  }
}
