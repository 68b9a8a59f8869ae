/** Binary heap order on the ranks of the nodes.  Position 0 is not in use; the parent of i is i / 2.  While a
    node is being sifted its place is a hole: the entry there is stale, and the node's rank k is kept apart. */
module HeapOrder {

  predicate AboveParent(r: seq<int>, i: int)
    requires 2 <= i < |r|
  {
    r[i] >= r[i/2]
  }

  /** No entry is below its parent, leaving out the pairs that involve the hole. */
  ghost predicate OrderedBut(r: seq<int>, hole: int) {
    forall i {:trigger AboveParent(r, i)} :: 2 <= i < |r| && i != hole && i / 2 != hole ==> AboveParent(r, i)
  }

  /** The children of the hole are not below k. */
  predicate ChildrenAbove(r: seq<int>, hole: nat, k: int) {
    (2 * hole < |r| ==> r[2 * hole] >= k) && (2 * hole + 1 < |r| ==> r[2 * hole + 1] >= k)
  }

  ghost predicate Ordered(r: seq<int>) {
    forall i {:trigger AboveParent(r, i)} :: 2 <= i < |r| ==> AboveParent(r, i)
  }

  /** Ordered, except that the entry at the hole may be anything. */
  ghost predicate AlmostOrdered(r: seq<int>, hole: nat) {
    OrderedBut(r, hole) && (1 < hole < |r| ==> ChildrenAbove(r, hole, r[hole/2]))
  }

  /** Any one entry of a heap may be changed. */
  lemma ChangeOne(r: seq<int>, hole: nat, k: int)
    requires Ordered(r) && 1 <= hole < |r|
    ensures AlmostOrdered(r[hole := k], hole)
  {
    var t := r[hole := k];
    forall i | 2 <= i < |t| && i != hole && i / 2 != hole ensures AboveParent(t, i) {
      assert AboveParent(r, i);
    }
    if hole > 1 {
      assert AboveParent(r, hole);
      if 2 * hole < |r| { assert AboveParent(r, 2 * hole); }
      if 2 * hole + 1 < |r| { assert AboveParent(r, 2 * hole + 1); }
    }
  }

  /** The hole can be filled with k if k fits between the parent and the children. */
  lemma Fill(r: seq<int>, hole: nat, k: int)
    requires 1 <= hole < |r| && OrderedBut(r, hole) && ChildrenAbove(r, hole, k) && (hole > 1 ==> r[hole/2] <= k)
    ensures Ordered(r[hole := k])
  {
    var t := r[hole := k];
    forall i | 2 <= i < |t| ensures AboveParent(t, i) {
      if i != hole && i / 2 != hole { assert AboveParent(r, i); }
    }
  }

  /** Upstairs: the parent, which is above k, comes down into the hole. */
  lemma UpStep(r: seq<int>, hole: nat, k: int)
    requires 1 < hole < |r| && AlmostOrdered(r, hole) && ChildrenAbove(r, hole, k) && k < r[hole/2]
    ensures var t := r[hole := r[hole/2]];
            AlmostOrdered(t, hole / 2) && ChildrenAbove(t, hole / 2, k)
  {
    var t := r[hole := r[hole/2]];
    var up := hole / 2;
    forall i | 2 <= i < |t| && i != up && i / 2 != up ensures AboveParent(t, i) {
      if i / 2 != hole { assert AboveParent(r, i); }
    }
    if up > 1 { assert AboveParent(r, up); }
    if 2 * up != hole { assert AboveParent(r, 2 * up); }
    if 2 * up + 1 != hole && 2 * up + 1 < |r| { assert AboveParent(r, 2 * up + 1); }
  }

  /** Downstairs: the smaller child, which is not above k, comes up into the hole. */
  lemma DownStep(r: seq<int>, hole: nat, k: int, min: nat)
    requires 1 <= hole < min < |r| && min / 2 == hole && AlmostOrdered(r, hole) && r[min] <= k
    requires ChildrenAbove(r, hole, r[min]) && (hole > 1 ==> r[hole/2] <= k)
    ensures var t := r[hole := r[min]];
            AlmostOrdered(t, min) && t[min/2] <= k
  {
    var t := r[hole := r[min]];
    forall i | 2 <= i < |t| && i != min && i / 2 != min ensures AboveParent(t, i) {
      if i != hole && i / 2 != hole { assert AboveParent(r, i); }
    }
    if 2 * min < |r| { assert AboveParent(r, 2 * min); }
    if 2 * min + 1 < |r| { assert AboveParent(r, 2 * min + 1); }
  }

  lemma OrderedPrefix(r: seq<int>, n: nat)
    requires Ordered(r) && n <= |r|
    ensures Ordered(r[..n])
  {
    var t := r[..n];
    forall i | 2 <= i < n ensures AboveParent(t, i) { assert AboveParent(r, i); }
  }

  /** Taking the last entry to any position. */
  lemma TakeLast(r: seq<int>, n: nat, at: nat)
    requires Ordered(r) && |r| == n + 1
    ensures n > 0 ==> Ordered(r[..n]) && (1 <= at < n ==> AlmostOrdered(r[..n][at := r[n]], at))
  {
    if n > 0 {
      OrderedPrefix(r, n);
      if 1 <= at < n { ChangeOne(r[..n], at, r[n]); }
    }
  }

  /** The root of a heap is least. */
  lemma {:induction false} RootIsLeast(r: seq<int>, i: nat)
    requires Ordered(r) && 1 <= i < |r|
    ensures r[1] <= r[i]
    decreases i
  {
    if i > 1 {
      assert AboveParent(r, i);
      RootIsLeast(r, i / 2);
    }
  }

  // ----- Any total order is that of an integer feature -----

  /** A strict order in which values that are not less than each other are equivalent, as sorting demands. */
  ghost predicate StrictWeakOrder<V(!new)>(less: (V, V) -> bool) {
    && (forall a :: !less(a, a))
    && (forall a, b, c :: less(a, b) && less(b, c) ==> less(a, c))
    && (forall a, b, c :: !less(a, b) && !less(b, c) ==> !less(a, c))
  }

  /** How many of the values are less than v. */
  function CountLess<V>(values: set<V>, less: (V, V) -> bool, v: V): nat { |set w | w in values && less(w, v)| }

  lemma CountGrows<V(!new)>(values: set<V>, less: (V, V) -> bool, a: V, b: V)
    requires StrictWeakOrder(less) && a in values
    ensures less(a, b) ==> CountLess(values, less, a) < CountLess(values, less, b)
    ensures !less(a, b) ==> CountLess(values, less, b) <= CountLess(values, less, a)
  {
    var belowA, belowB := set w | w in values && less(w, a), set w | w in values && less(w, b);
    if less(a, b) {
      assert belowA + {a} <= belowB && a !in belowA;
      Fewer(belowA + {a}, belowB);
    } else {
      assert belowB <= belowA;
      Fewer(belowB, belowA);
    }
  }

  lemma {:induction false} Fewer<V>(s: set<V>, t: set<V>)
    requires s <= t
    ensures |s| <= |t|
  {
    if s != {} {
      var x :| x in s;
      Fewer(s - {x}, t - {x});
    }
  }

  /** For the finitely many values that meet in a heap, comparing by any such order is comparing an integer feature. */
  lemma IntegerFeature<V(!new)>(values: set<V>, less: (V, V) -> bool)
    requires StrictWeakOrder(less)
    ensures forall a, b :: a in values && b in values ==>
              (less(a, b) <==> CountLess(values, less, a) < CountLess(values, less, b))
  {
    forall a, b | a in values && b in values
      ensures less(a, b) <==> CountLess(values, less, a) < CountLess(values, less, b)
    {
      CountGrows(values, less, a, b);
    }
  }
}
