/**
 * A car database kept as a binary search tree ordered by car name (byte-wise
 * lexicographic, as strcmp compares). Inserting an existing name overwrites
 * its details; deletion of a node with two children copies in its in-order
 * successor. The tree object counts the cars it holds.
 */
module CarTree {
  import opened Common

  datatype Car = Car(name: string, manufacturer: string, carType: string, year: int, engineType: string)

  datatype Tree = Leaf | Node(car: Car, left: Tree, right: Tree)

  // ---------------------------------------------------------------------
  // The name order

  /** Lexicographic order on character codes; a proper prefix comes first. */
  predicate Less(a: string, b: string) {
    if a == [] then b != []
    else if b == [] then false
    else if a[0] != b[0] then a[0] < b[0]
    else Less(a[1..], b[1..])
  }

  lemma {:induction false} LessIrreflexive(a: string)
    ensures !Less(a, a)
    decreases |a|
  {
    if a != [] {
      LessIrreflexive(a[1..]);
    }
  }

  lemma {:induction false} LessTransitive(a: string, b: string, c: string)
    requires Less(a, b) && Less(b, c)
    ensures Less(a, c)
    decreases |a|
  {
    if a != [] && b != [] && c != [] && a[0] == b[0] == c[0] {
      LessTransitive(a[1..], b[1..], c[1..]);
    }
  }

  lemma {:induction false} LessTotal(a: string, b: string)
    ensures a == b || Less(a, b) || Less(b, a)
    ensures !(Less(a, b) && Less(b, a))
    decreases |a|
  {
    if a != [] && b != [] && a[0] == b[0] {
      LessTotal(a[1..], b[1..]);
      if a[1..] == b[1..] {
        assert a == [a[0]] + a[1..] && b == [b[0]] + b[1..];
      }
    }
  }

  // ---------------------------------------------------------------------
  // What a tree holds

  /** The names in a tree. */
  function Keys(t: Tree): set<string> {
    match t
    case Leaf => {}
    case Node(c, l, r) => Keys(l) + Keys(r) + {c.name}
  }

  /** Every name in the left subtree is smaller, every name in the right one larger. */
  ghost predicate BST(t: Tree) {
    match t
    case Leaf => true
    case Node(c, l, r) =>
      && BST(l) && BST(r)
      && (forall k :: k in Keys(l) ==> Less(k, c.name))
      && (forall k :: k in Keys(r) ==> Less(c.name, k))
  }

  // ---------------------------------------------------------------------
  // The tree operations

  /** A new name becomes a leaf; an existing one has its details overwritten. */
  function Insert(t: Tree, c: Car): (r: Tree)
    ensures Keys(r) == Keys(t) + {c.name}
  {
    match t
    case Leaf => Node(c, Leaf, Leaf)
    case Node(d, l, r) =>
      if c.name == d.name then
        Node(d.(manufacturer := c.manufacturer, carType := c.carType, year := c.year, engineType := c.engineType), l, r)
      else if Less(c.name, d.name) then Node(d, Insert(l, c), r)
      else Node(d, l, Insert(r, c))
  }

  /** The car of that name, if the search path reaches it. */
  function Search(t: Tree, name: string): (r: Option<Car>)
    ensures r.Some? ==> r.value.name == name
  {
    match t
    case Leaf => None
    case Node(d, l, r) =>
      if name == d.name then Some(d)
      else if Less(name, d.name) then Search(l, name)
      else Search(r, name)
  }

  /** The leftmost car. */
  function MinCar(t: Tree): (m: Car)
    requires t.Node?
    ensures m.name in Keys(t)
    ensures InOrder(t)[0] == m
  {
    if t.left.Leaf? then t.car else MinCar(t.left)
  }

  /** Removes the name; a node with two children takes its in-order successor's details. */
  function Delete(t: Tree, name: string): (r: Tree)
    ensures Keys(r) <= Keys(t)
    ensures name !in Keys(t) ==> r == t
  {
    match t
    case Leaf => Leaf
    case Node(d, l, r) =>
      if name == d.name then
        if l.Leaf? then r
        else if r.Leaf? then l
        else
          var m := MinCar(r);
          Node(m, l, Delete(r, m.name))
      else if Less(name, d.name) then Node(d, Delete(l, name), r)
      else Node(d, l, Delete(r, name))
  }

  function Height(t: Tree): (h: nat)
    ensures h == 0 <==> t.Leaf?
    ensures h <= NodeCount(t)
  {
    match t
    case Leaf => 0
    case Node(_, l, r) => 1 + (if Height(l) > Height(r) then Height(l) else Height(r))
  }

  function NodeCount(t: Tree): nat {
    match t
    case Leaf => 0
    case Node(_, l, r) => NodeCount(l) + NodeCount(r) + 1
  }

  function CountByManufacturer(t: Tree, m: string): (n: nat)
    ensures n <= NodeCount(t)
  {
    match t
    case Leaf => 0
    case Node(c, l, r) => (if c.manufacturer == m then 1 else 0) + CountByManufacturer(l, m) + CountByManufacturer(r, m)
  }

  function InOrder(t: Tree): (s: seq<Car>)
    ensures |s| == NodeCount(t)
  {
    match t
    case Leaf => []
    case Node(c, l, r) => InOrder(l) + [c] + InOrder(r)
  }

  // ---------------------------------------------------------------------
  // Properties

  /** A name ordered before the root is neither the root's nor in the right subtree. */
  lemma BelowRoot(t: Tree, name: string)
    requires BST(t) && t.Node? && Less(name, t.car.name)
    ensures name != t.car.name && name !in Keys(t.right)
  {
    LessIrreflexive(name);
    if name in Keys(t.right) {
      LessTransitive(name, t.car.name, name);
    }
  }

  /** A name ordered after the root is neither the root's nor in the left subtree. */
  lemma AboveRoot(t: Tree, name: string)
    requires BST(t) && t.Node? && Less(t.car.name, name)
    ensures name != t.car.name && name !in Keys(t.left)
  {
    LessIrreflexive(name);
    if name in Keys(t.left) {
      LessTransitive(name, t.car.name, name);
    }
  }

  /** In a search tree, the search finds a name exactly when the tree holds it. */
  lemma {:induction false} SearchFindsKeys(t: Tree, name: string)
    requires BST(t)
    ensures Search(t, name).Some? <==> name in Keys(t)
  {
    match t
    case Leaf =>
    case Node(d, l, r) =>
      if name == d.name {
      } else if Less(name, d.name) {
        SearchFindsKeys(l, name);
        BelowRoot(t, name);
      } else {
        LessTotal(name, d.name);
        SearchFindsKeys(r, name);
        AboveRoot(t, name);
      }
  }

  /** Insertion keeps the search-tree order. */
  lemma {:induction false} InsertKeepsOrder(t: Tree, c: Car)
    requires BST(t)
    ensures BST(Insert(t, c))
  {
    match t
    case Leaf =>
    case Node(d, l, r) =>
      if c.name == d.name {
      } else if Less(c.name, d.name) {
        InsertKeepsOrder(l, c);
      } else {
        LessTotal(c.name, d.name);
        InsertKeepsOrder(r, c);
      }
  }

  /** After an insertion the name finds the new car, and every other name finds what it found before. */
  lemma {:induction false} InsertThenSearch(t: Tree, c: Car, name: string)
    ensures Search(Insert(t, c), name) == if name == c.name then Some(c) else Search(t, name)
  {
    match t
    case Leaf =>
    case Node(d, l, r) =>
      if c.name == d.name {
      } else if Less(c.name, d.name) {
        InsertThenSearch(l, c, name);
      } else {
        InsertThenSearch(r, c, name);
      }
  }

  /** The leftmost car is in the tree, is found by its name, and has the smallest name. */
  lemma {:induction false} MinCarIsSmallest(t: Tree)
    requires t.Node? && BST(t)
    ensures MinCar(t).name in Keys(t) && Search(t, MinCar(t).name) == Some(MinCar(t))
    ensures forall k :: k in Keys(t) ==> k == MinCar(t).name || Less(MinCar(t).name, k)
  {
    var d, l, r := t.car, t.left, t.right;
    if l.Leaf? {
    } else {
      MinCarIsSmallest(l);
      var m := MinCar(l);
      assert Less(m.name, d.name);
      forall k | k in Keys(r)
        ensures Less(m.name, k)
      {
        LessTransitive(m.name, d.name, k);
      }
      BelowRoot(t, m.name);
    }
  }

  /** Deletion keeps the search-tree order and removes exactly the name. */
  lemma {:induction false} DeleteKeepsOrder(t: Tree, name: string)
    requires BST(t)
    ensures BST(Delete(t, name))
    ensures Keys(Delete(t, name)) == Keys(t) - {name}
  {
    match t
    case Leaf =>
    case Node(d, l, r) =>
      if name == d.name {
        assert name !in Keys(l) && name !in Keys(r) by {
          LessIrreflexive(name);
        }
        if l.Leaf? {
        } else if r.Leaf? {
        } else {
          var m := MinCar(r);
          MinCarIsSmallest(r);
          DeleteKeepsOrder(r, m.name);
          forall k | k in Keys(l)
            ensures Less(k, m.name)
          {
            LessTransitive(k, d.name, m.name);
          }
        }
      } else if Less(name, d.name) {
        DeleteKeepsOrder(l, name);
        BelowRoot(t, name);
      } else {
        LessTotal(name, d.name);
        DeleteKeepsOrder(r, name);
        AboveRoot(t, name);
      }
  }

  /** After a deletion the name is not found, and every other name finds what it found before. */
  lemma {:induction false} DeleteThenSearch(t: Tree, name: string, other: string)
    requires BST(t)
    ensures Search(Delete(t, name), other) == if other == name then None else Search(t, other)
  {
    DeleteKeepsOrder(t, name);
    SearchFindsKeys(Delete(t, name), name);
    if other != name {
      DeleteFindsOthers(t, name, other);
    }
  }

  lemma {:induction false} DeleteFindsOthers(t: Tree, name: string, other: string)
    requires BST(t) && other != name
    ensures Search(Delete(t, name), other) == Search(t, other)
  {
    match t
    case Leaf =>
    case Node(d, l, r) =>
      if name == d.name {
        if l.Node? && r.Node? {
          var m := MinCar(r);
          MinCarIsSmallest(r);
          DeleteKeepsOrder(r, m.name);
          assert Less(d.name, m.name);
          LessTotal(m.name, d.name);
          if other != m.name {
            DeleteFindsOthers(r, m.name, other);
            if Less(other, d.name) {
              LessTransitive(other, d.name, m.name);
            } else {
              LessTotal(other, d.name);
              LessTotal(other, m.name);
              if Less(other, m.name) {
                // Between the deleted root and the successor: in neither subtree.
                AboveRoot(t, other);
                SearchFindsKeys(l, other);
                SearchFindsKeys(r, other);
              }
            }
          }
        } else if l.Node? {
          LessTotal(other, d.name);
          if !Less(other, d.name) {
            AboveRoot(t, other);
            SearchFindsKeys(l, other);
          }
        } else if r.Node? {
          LessTotal(other, d.name);
          if Less(other, d.name) {
            BelowRoot(t, other);
            SearchFindsKeys(r, other);
          }
        }
      } else if Less(name, d.name) {
        DeleteFindsOthers(l, name, other);
      } else {
        DeleteFindsOthers(r, name, other);
      }
  }

  /** The in-order walk lists names of the tree, each once. */
  lemma InOrderListsKeys(t: Tree)
    requires BST(t)
    ensures forall i :: 0 <= i < |InOrder(t)| ==> InOrder(t)[i].name in Keys(t)
    ensures |InOrder(t)| == |Keys(t)|
  {
    InOrderNamesIn(t);
    InOrderCount(t);
  }

  /** Every name the in-order walk lists is in the tree. */
  lemma {:induction false} InOrderNamesIn(t: Tree)
    ensures forall i :: 0 <= i < |InOrder(t)| ==> InOrder(t)[i].name in Keys(t)
  {
    match t
    case Leaf =>
    case Node(d, l, r) =>
      InOrderNamesIn(l);
      InOrderNamesIn(r);
      var s, sl, sr := InOrder(t), InOrder(l), InOrder(r);
      forall i | 0 <= i < |s|
        ensures s[i].name in Keys(t)
      {
        if i < |sl| {
          assert s[i] == sl[i];
        } else if i > |sl| {
          assert s[i] == sr[i - |sl| - 1];
        }
      }
  }

  /** In a search tree the root and the two subtrees hold different names. */
  lemma KeysApart(t: Tree)
    requires BST(t) && t.Node?
    ensures t.car.name !in Keys(t.left) && t.car.name !in Keys(t.right)
    ensures Keys(t.left) * Keys(t.right) == {}
  {
    LessIrreflexive(t.car.name);
    forall k | k in Keys(t.left)
      ensures k !in Keys(t.right)
    {
      BelowRoot(t, k);
    }
  }

  /** The in-order walk of a search tree is as long as the tree has names. */
  lemma {:induction false} InOrderCount(t: Tree)
    requires BST(t)
    ensures |InOrder(t)| == |Keys(t)|
  {
    match t
    case Leaf =>
    case Node(d, l, r) =>
      InOrderCount(l);
      InOrderCount(r);
      KeysApart(t);
      assert |Keys(l) + Keys(r)| == |Keys(l)| + |Keys(r)|;
  }

  /** Names strictly increasing along the sequence. */
  ghost predicate SortedByName(s: seq<Car>) {
    forall i, j :: 0 <= i < j < |s| ==> Less(s[i].name, s[j].name)
  }

  /** Two sorted runs on either side of a name between them make one sorted run. */
  lemma SortedJoin(sl: seq<Car>, d: Car, sr: seq<Car>)
    requires SortedByName(sl) && SortedByName(sr)
    requires forall i :: 0 <= i < |sl| ==> Less(sl[i].name, d.name)
    requires forall i :: 0 <= i < |sr| ==> Less(d.name, sr[i].name)
    ensures SortedByName(sl + [d] + sr)
  {
    var s := sl + [d] + sr;
    forall i, j | 0 <= i < j < |s|
      ensures Less(s[i].name, s[j].name)
    {
      if j < |sl| {
        assert s[i] == sl[i] && s[j] == sl[j];
      } else if i < |sl| {
        assert s[i] == sl[i];
        if j > |sl| {
          assert s[j] == sr[j - |sl| - 1];
          LessTransitive(s[i].name, d.name, s[j].name);
        }
      } else if i == |sl| {
        assert s[j] == sr[j - |sl| - 1];
      } else {
        assert s[i] == sr[i - |sl| - 1] && s[j] == sr[j - |sl| - 1];
      }
    }
  }

  /** The in-order walk lists the names in increasing order. */
  lemma {:induction false} InOrderSorted(t: Tree)
    requires BST(t)
    ensures SortedByName(InOrder(t))
  {
    match t
    case Leaf =>
    case Node(d, l, r) =>
      InOrderListsKeys(l);
      InOrderListsKeys(r);
      InOrderSorted(l);
      InOrderSorted(r);
      SortedJoin(InOrder(l), d, InOrder(r));
  }

  /** The height is at most the number of nodes, and the nodes fewer than 2^height. */
  lemma {:induction false} HeightBounds(t: Tree)
    ensures Height(t) <= NodeCount(t) < Pow2(Height(t))
  {
    match t
    case Leaf =>
    case Node(_, l, r) =>
      HeightBounds(l);
      HeightBounds(r);
      var h := Height(t) - 1;
      Pow2Monotone(Height(l), h);
      Pow2Monotone(Height(r), h);
  }

  function Pow2(n: nat): nat {
    if n == 0 then 1 else 2 * Pow2(n - 1)
  }

  lemma {:induction false} Pow2Monotone(a: nat, b: nat)
    requires a <= b
    ensures Pow2(a) <= Pow2(b)
    decreases b
  {
    if a < b {
      Pow2Monotone(a, b - 1);
    }
  }

  function CountIn(s: seq<Car>, m: string): nat {
    if s == [] then 0 else (if s[0].manufacturer == m then 1 else 0) + CountIn(s[1..], m)
  }

  lemma {:induction false} CountInConcat(a: seq<Car>, b: seq<Car>, m: string)
    ensures CountIn(a + b, m) == CountIn(a, m) + CountIn(b, m)
    decreases |a|
  {
    if a != [] {
      CountInConcat(a[1..], b, m);
      assert (a + b)[1..] == a[1..] + b;
    } else {
      assert a + b == b;
    }
  }

  /** The manufacturer count is the number of listed cars from that manufacturer. */
  lemma {:induction false} CountMatchesListing(t: Tree, m: string)
    ensures CountByManufacturer(t, m) == CountIn(InOrder(t), m)
  {
    match t
    case Leaf =>
    case Node(c, l, r) =>
      CountMatchesListing(l, m);
      CountMatchesListing(r, m);
      CountInConcat(InOrder(l) + [c], InOrder(r), m);
      CountInConcat(InOrder(l), [c], m);
  }

  // ---------------------------------------------------------------------
  // The tree object

  /** The leftmost-descent loop: the car with the smallest name, or None for an empty tree. */
  method FindMin(t: Tree) returns (m: Option<Car>)
    ensures t.Leaf? ==> m.None?
    ensures t.Node? ==> m == Some(MinCar(t))
  {
    if t.Leaf? {
      return None;
    }
    var node := t;
    while node.left.Node?
      invariant node.Node? && MinCar(node) == MinCar(t)
      decreases node
    {
      node := node.left;
    }
    m := Some(node.car);
  }

  class CarDatabase {
    var root: Tree
    var totalCars: int

    ghost predicate Valid()
      reads this
    {
      BST(root) && totalCars == |Keys(root)|
    }

    constructor ()
      ensures Valid() && root == Leaf && totalCars == 0
    {
      root := Leaf;
      totalCars := 0;
    }

    /** Counts the car only when its name is new, then inserts it. */
    method AddCar(c: Car)
      requires Valid()
      modifies this
      ensures Valid()
      ensures root == Insert(old(root), c)
      ensures Keys(root) == old(Keys(root)) + {c.name}
      ensures totalCars == old(totalCars) + (if c.name in old(Keys(root)) then 0 else 1)
    {
      SearchFindsKeys(root, c.name);
      InsertKeepsOrder(root, c);
      var existing := Search(root, c.name);
      if existing.None? {
        totalCars := totalCars + 1;
      }
      root := Insert(root, c);
    }

    /** Deletes a car that is present and uncounts it; an absent name changes nothing. */
    method RemoveCar(name: string) returns (removed: bool)
      requires Valid()
      modifies this
      ensures Valid()
      ensures removed <==> name in old(Keys(root))
      ensures removed ==> root == Delete(old(root), name)
      ensures !removed ==> root == old(root)
      ensures totalCars == old(totalCars) - (if removed then 1 else 0)
    {
      SearchFindsKeys(root, name);
      var found := Search(root, name);
      if found.None? {
        return false;
      }
      DeleteKeepsOrder(root, name);
      root := Delete(root, name);
      totalCars := totalCars - 1;
      removed := true;
    }
  }
}
