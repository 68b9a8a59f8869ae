/** The addressable binary heap of src/heap.hpp.  The array holds node references; a node knows its place, and
    its reference is the handle given to clients.  Nodes behind the last live one are spare and are reused. */
module Heaps {
  import opened Options
  import opened HeapOrder

  class Node<V(0)> {
    var index: nat
    var val: V
  }

  class Heap<V(0)> {
    const feature: V -> int
    const isMaxHeap: bool
    var numItems: nat
    var heapItems: array<Node<V>>
    ghost var live: set<Node<V>>

    // ----- Order -----

    /** Values compare by their feature, downwards in a max heap. */
    function Rank(val: V): int { if isMaxHeap then -feature(val) else feature(val) }

    /** Compare_ */
    predicate Less(a: Node<V>, b: Node<V>): (less: bool)
      reads a`val, b`val
      ensures less <==> Rank(a.val) < Rank(b.val)
    {
      if isMaxHeap then feature(a.val) > feature(b.val) else feature(a.val) < feature(b.val)
    }

    // ----- Invariant -----

    /** Positions 1..numItems hold the live nodes, each at its index; all other nodes are spare and distinct. */
    ghost predicate Shape()
      reads this, heapItems, live
    {
      && 2 <= heapItems.Length && numItems < heapItems.Length
      && (forall i {:trigger Sits(i)} :: 1 <= i <= numItems ==> Sits(i))
      && (forall x {:trigger Knows(x)} :: x in live ==> Knows(x))
      && SparesApart(heapItems[..], numItems, live)
    }

    /** The node at position i is live and knows its index. */
    ghost predicate Sits(i: nat)
      reads this, heapItems, live
    {
      i < heapItems.Length && heapItems[i] in live && heapItems[i].index == i
    }

    /** The node is at the position it knows as its index. */
    ghost predicate Knows(x: Node<V>)
      reads this, heapItems, x
    {
      1 <= x.index <= numItems < heapItems.Length && heapItems[x.index] == x
    }

    static ghost predicate Spare(i: int, n: int) { i == 0 || n < i }

    static ghost predicate SparesApart(items: seq<Node<V>>, n: int, live: set<Node<V>>) {
      && (forall i {:trigger items[i]} :: 0 <= i < |items| && Spare(i, n) ==> items[i] !in live)
      && (forall i, j {:trigger items[i], items[j]} :: 0 <= i < j < |items| && Spare(i, n) && Spare(j, n) ==>
            items[i] != items[j])
    }

    /** The ranks of the values at positions 0..numItems. */
    ghost function Ranks(): (r: seq<int>)
      requires numItems < heapItems.Length
      reads this, heapItems, heapItems[..]
      ensures |r| == numItems + 1
      ensures forall i {:trigger r[i]} :: 0 <= i <= numItems ==> r[i] == Rank(heapItems[i].val)
    {
      seq(numItems + 1, i requires 0 <= i <= numItems < heapItems.Length reads this, heapItems, heapItems[..] =>
        Rank(heapItems[i].val))
    }

    ghost predicate Valid()
      reads this, heapItems, heapItems[..], live
    {
      Shape() && Ordered(Ranks())
    }

    /** The map from live handles to values. */
    ghost function Contents(): map<Node<V>, V>
      reads this, live
    {
      map x | x in live :: x.val
    }

    // ----- Sifting -----

    /** All positions but `hole` hold live nodes other than `node`, each at its index. */
    ghost predicate ShapeBut(hole: int, node: Node<V>)
      reads this, heapItems, live
    {
      && 1 <= hole <= numItems < heapItems.Length && node in live
      && (forall i {:trigger Sits(i)} :: 1 <= i <= numItems && i != hole ==> Sits(i) && heapItems[i] != node)
      && (forall x {:trigger Knows(x)} :: x in live && x != node ==> Knows(x) && x.index != hole)
      && SparesApart(heapItems[..], numItems, live)
    }

    /** All nodes of the array, live and spare. */
    ghost function Nodes(): set<Node<V>>
      reads this, heapItems
    {
      set i | 0 <= i < heapItems.Length :: heapItems[i]
    }

    twostate predicate SparesKept()
      reads this, heapItems
    {
      heapItems == old(heapItems) && numItems == old(numItems) &&
      forall i {:trigger heapItems[i]} :: 0 <= i < heapItems.Length && Spare(i, numItems) ==>
            heapItems[i] == old(heapItems[i])
    }

    /** Puts the node into the hole; r are the ranks around it. */
    method Place(hole: nat, node: Node<V>, ghost r: seq<int>)
      requires ShapeBut(hole, node) && r == Ranks()
      requires OrderedBut(r, hole) && ChildrenAbove(r, hole, Rank(node.val)) && (hole > 1 ==>
                r[hole/2] <= Rank(node.val))
      modifies heapItems, live`index
      ensures Valid() && SparesKept()
    {
      hide OrderedBut, ChildrenAbove, Ordered;
      Fill(r, hole, Rank(node.val));
      heapItems[hole] := node;
      node.index := hole;
      forall i: nat | 1 <= i <= numItems ensures Sits(i) {
        assert i != hole ==> old(Sits(i));
      }
      forall x | x in live ensures Knows(x) {
        assert x != node ==> old(Knows(x));
      }
      assert Ranks() == r[hole := Rank(node.val)];
    }

    /** Moves the node at `from` into the hole; `from` becomes the hole. */
    method Shift(hole: nat, from: nat, node: Node<V>)
      requires ShapeBut(hole, node) && 1 <= from <= numItems && from != hole
      modifies heapItems, live`index
      ensures ShapeBut(from, node) && SparesKept()
      ensures Ranks() == old(Ranks())[hole := old(Ranks())[from]]
    {
      assert Sits(from);
      heapItems[hole] := heapItems[from];
      heapItems[hole].index := hole;
      forall i: nat | 1 <= i <= numItems && i != from ensures Sits(i) && heapItems[i] != node {
        assert i != hole ==> old(Sits(i));
      }
      forall x | x in live && x != node ensures Knows(x) && x.index != from {
        assert old(Knows(x));
      }
    }

    /** The loop of Insert, and the upstairs part of AdjustNode_. */
    method SiftUp(start: nat, node: Node<V>)
      requires ShapeBut(start, node) && AlmostOrdered(Ranks(), start) && ChildrenAbove(Ranks(), start, Rank(node.val))
      modifies heapItems, live`index
      ensures Valid() && SparesKept()
    {
      var index := start;
      ghost var r := Ranks();
      while index > 1 && Less(node, heapItems[index/2])
        invariant ShapeBut(index, node) && SparesKept() && r == Ranks()
        invariant AlmostOrdered(r, index) && ChildrenAbove(r, index, Rank(node.val))
      {
        UpStep(r, index, Rank(node.val));
        r := r[index := r[index/2]];
        Shift(index, index / 2, node);
        index := index / 2;
      }
      Place(index, node, r);
    }

    /** The smaller child of the hole: the left one if it is the last node or less than the right one. */
    method SmallerChild(pos: nat, ghost r: seq<int>) returns (min: nat)
      requires 1 <= pos && 2 * pos <= numItems < heapItems.Length && r == Ranks()
      ensures min / 2 == pos < min <= numItems && ChildrenAbove(r, pos, r[min])
      ensures r[min] == Rank(heapItems[min].val)
    {
      var iter := 2 * pos;
      if iter == numItems || Less(heapItems[iter], heapItems[iter+1]) {
        min := iter;
      } else {
        min := iter + 1;
      }
    }

    /** One round of the downstairs loop: the smaller child moves up into the hole, unless the node is less. */
    method StepDown(pos: nat, node: Node<V>, ghost r: seq<int>) returns (next: nat, ghost t: seq<int>)
      requires ShapeBut(pos, node) && r == Ranks() && AlmostOrdered(r, pos) && (pos > 1 ==> r[pos/2] <= Rank(node.val))
      requires 2 * pos <= numItems
      modifies heapItems, live`index
      ensures ShapeBut(next, node) && SparesKept() && t == Ranks() && pos <= next
      ensures AlmostOrdered(t, next) && (next > 1 ==> t[next/2] <= Rank(node.val))
      ensures next == pos ==> ChildrenAbove(t, next, Rank(node.val))
    {
      hide AlmostOrdered;
      var min := SmallerChild(pos, r);
      if Less(node, heapItems[min]) {
        return pos, r;
      }
      DownStep(r, pos, Rank(node.val), min);
      Shift(pos, min, node);
      return min, r[pos := r[min]];
    }

    /** The downstairs part of AdjustNode_. */
    method SiftDown(start: nat, node: Node<V>)
      requires ShapeBut(start, node) && AlmostOrdered(Ranks(), start)
      requires start > 1 ==> Ranks()[start/2] <= Rank(node.val)
      modifies heapItems, live`index
      ensures Valid() && SparesKept()
    {
      var pos := start;
      ghost var r := Ranks();
      while 2 * pos <= numItems
        invariant ShapeBut(pos, node) && SparesKept() && r == Ranks()
        invariant AlmostOrdered(r, pos) && (pos > 1 ==> r[pos/2] <= Rank(node.val))
        decreases numItems - pos
      {
        var next, t := StepDown(pos, node, r);
        r := t;
        if next == pos {
          Place(pos, node, r);
          return;
        }
        pos := next;
      }
      Place(pos, node, r);
    }

    /** Taking the node out of its position leaves a hole there. */
    lemma OpenHole(index: nat)
      requires Shape() && 1 <= index <= numItems
      ensures ShapeBut(index, heapItems[index])
    {
      assert Sits(index);
      forall i: nat | 1 <= i <= numItems && i != index ensures Sits(i) && heapItems[i] != heapItems[index] {
        assert Sits(i);
      }
      forall x | x in live && x != heapItems[index] ensures Knows(x) && x.index != index {
        assert Knows(x);
      }
    }

    /** Restores a heap in which the value at one position may be anything, by sifting it up or down. */
    method AdjustNode(index: nat)
      requires Shape() && 1 <= index
      requires if index <= numItems then AlmostOrdered(Ranks(), index) else Ordered(Ranks())
      modifies heapItems, live`index
      ensures Valid() && SparesKept() && Nodes() <= old(Nodes())
    {
      if index > numItems {
        return;
      }
      LiveInNodes();
      var node := heapItems[index];
      OpenHole(index);
      if index > 1 && Less(node, heapItems[index/2]) {
        SiftUp(index, node);
      } else {
        SiftDown(index, node);
      }
      NodesKept();
    }

    // ----- Operations -----

    /** An empty heap over `size` spare nodes (Init_). */
    constructor (feature: V -> int, isMaxHeap: bool, size: nat)
      requires size >= 2
      ensures Valid() && Contents() == map[] && fresh(heapItems) && fresh(Nodes())
      ensures this.feature == feature && this.isMaxHeap == isMaxHeap && heapItems.Length == size
    {
      this.feature, this.isMaxHeap := feature, isMaxHeap;
      numItems, live := 0, {};
      var first := new Node<V>;
      heapItems := new Node<V>[size](_ => first);
      new;
      var i := 1;
      while i < size
        invariant 1 <= i <= size && heapItems.Length == size && fresh(heapItems) && numItems == 0 && live == {}
        invariant forall j {:trigger heapItems[j]} :: 0 <= j < size ==> fresh(heapItems[j])
        invariant forall j, k {:trigger heapItems[j], heapItems[k]} :: 0 <= j < k < i ==> heapItems[j] != heapItems[k]
      {
        var node := new Node<V>;
        heapItems[i] := node;
        i := i + 1;
      }
    }

    method Size() returns (n: nat)
      requires Valid()
      ensures n == |Contents()|
    {
      LiveCount();
      return numItems;
    }

    /** As many live handles as items. */
    lemma LiveCount()
      requires Shape()
      ensures |live| == numItems == |Contents()|
    {
      LivePrefix(numItems);
      assert live == (set x | x in live && x.index <= numItems) by {
        forall x | x in live ensures x.index <= numItems { assert Knows(x); }
      }
      assert Contents().Keys == live;
    }

    lemma {:induction false} LivePrefix(k: nat)
      requires Shape() && k <= numItems
      ensures |set x | x in live && x.index <= k| == k
    {
      var s := set x | x in live && x.index <= k;
      if k == 0 {
        forall x | x in live ensures x.index > 0 { assert Knows(x); }
        assert s == {};
      } else {
        LivePrefix(k - 1);
        assert Sits(k);
        assert s == (set x | x in live && x.index <= k - 1) + {heapItems[k]} by {
          forall x | x in s ensures x == heapItems[k] || x.index <= k - 1 { assert Knows(x); }
        }
      }
    }

    /** The value of a live node that no live node is less than. */
    method Top() returns (r: Option<V>)
      requires Valid()
      ensures Valid() && Contents() == old(Contents())
      ensures r == None <==> Contents() == map[]
      ensures r.Some? ==>
                && numItems > 0 && heapItems[1] in live && r == Some(heapItems[1].val)
                && (forall x :: x in live ==> !Less(x, heapItems[1]))
                && forall x :: x in live ==>
                     if isMaxHeap then feature(x.val) <= feature(r.value) else feature(r.value) <= feature(x.val)
    {
      LiveCount();
      if numItems == 0 {
        assert Contents() == map[];
        return None;
      }
      assert Sits(1);
      assert heapItems[1] in Contents();
      TopIsLeast();
      return Some(heapItems[1].val);
    }

    lemma TopIsLeast()
      requires Valid() && numItems > 0
      ensures forall x :: x in live ==> !Less(x, heapItems[1])
    {
      forall x | x in live ensures !Less(x, heapItems[1]) {
        assert Knows(x);
        RootIsLeast(Ranks(), x.index);
      }
    }

    /** Doubles the array; every handle and value stays. */
    method Resize()
      requires Valid()
      modifies this`heapItems
      ensures Valid() && live == old(live) && numItems == old(numItems)
      ensures heapItems.Length == 2 * old(heapItems.Length) && fresh(heapItems)
      ensures forall i {:trigger heapItems[i]} :: 0 <= i < heapItems.Length ==>
                if i < old(heapItems.Length) then heapItems[i] == old(heapItems[i]) else fresh(heapItems[i])
    {
      heapItems := LargerArray();
      forall i: nat | 1 <= i <= numItems ensures Sits(i) { assert old(Sits(i)); }
      forall x | x in live ensures Knows(x) { assert old(Knows(x)); }
      assert Ranks() == old(Ranks());
    }

    /** The nodes of the array, and as many new ones behind. */
    method LargerArray() returns (items: array<Node<V>>)
      requires heapItems.Length > 0
      ensures fresh(items) && items.Length == 2 * heapItems.Length
      ensures forall i {:trigger items[i]} :: 0 <= i < items.Length ==>
                if i < heapItems.Length then items[i] == heapItems[i] else fresh(items[i])
      ensures forall j, k {:trigger items[j], items[k]} :: heapItems.Length <= j < k < items.Length ==>
                items[j] != items[k]
    {
      var n := heapItems.Length;
      var was := heapItems;
      items := new Node<V>[2 * n](i requires 0 <= i reads was => if i < was.Length then was[i] else was[0]);
      var i := n;
      while i < 2 * n
        invariant n <= i <= 2 * n && items.Length == 2 * n && fresh(items)
        invariant forall j {:trigger items[j]} :: 0 <= j < n ==> items[j] == was[j]
        invariant forall j {:trigger items[j]} :: n <= j < i ==> fresh(items[j])
        invariant forall j, k {:trigger items[j], items[k]} :: n <= j < k < i ==> items[j] != items[k]
        modifies items
      {
        var node := new Node<V>;
        items[i] := node;
        i := i + 1;
      }
    }

    /** Live nodes are nodes of the array. */
    lemma LiveInNodes()
      requires Shape()
      ensures live <= Nodes()
      ensures forall i {:trigger heapItems[i]} :: 1 <= i <= numItems ==> heapItems[i] in live
    {
      forall x | x in live ensures x in Nodes() { assert Knows(x); }
      forall i | 1 <= i <= numItems ensures heapItems[i] in live { assert Sits(i); }
    }

    /** Moves the first spare node behind the live ones, as a hole to be filled from. */
    method Enlist(val: V) returns (item: Node<V>)
      requires Valid() && numItems + 1 < heapItems.Length
      modifies this`numItems, this`live, Nodes()`val
      ensures forall x :: x in old(live) ==> x.val == old(x.val)
      ensures numItems == old(numItems) + 1 && item == heapItems[numItems] && item.val == val
      ensures item !in old(live) && live == old(live) + {item} && Contents() == old(Contents())[item := val]
      ensures ShapeBut(numItems, item)
      ensures AlmostOrdered(Ranks(), numItems) && ChildrenAbove(Ranks(), numItems, Rank(val))
    {
      ghost var r := Ranks();
      LiveInNodes();
      numItems := numItems + 1;
      item := heapItems[numItems];
      item.val := val;
      live := live + {item};
      forall i: nat | 1 <= i <= numItems && i != numItems ensures Sits(i) && heapItems[i] != item {
        assert old(Sits(i));
      }
      forall x | x in live && x != item ensures Knows(x) && x.index != numItems {
        assert old(Knows(x));
      }
      forall i | 2 <= i < |Ranks()| && i != numItems ensures AboveParent(Ranks(), i) {
        assert AboveParent(r, i);
      }
    }

    /** Sifting moves live nodes only. */
    twostate lemma NodesKept()
      requires Shape() && SparesKept() && live <= old(Nodes())
      ensures Nodes() <= old(Nodes())
    {
      LiveInNodes();
      forall i | 0 <= i < heapItems.Length ensures heapItems[i] in old(Nodes()) {
        if Spare(i, numItems) { assert heapItems[i] == old(heapItems[i]); }
      }
    }

    lemma LiveFacts()
      requires Valid() && numItems + 1 < heapItems.Length
      ensures live <= Nodes() && heapItems[numItems + 1] in Nodes()
    {
      LiveInNodes();
    }

    lemma ShapeOf()
      requires Valid()
      ensures Shape()
    {}

    /** Insertion when there is a spare node to take. */
    method InsertSpare(val: V) returns (sign: Node<V>)
      requires Valid() && numItems + 1 < heapItems.Length
      modifies this`numItems, this`live, heapItems, Nodes()
      ensures Valid() && Nodes() <= old(Nodes())
      ensures sign !in old(live) && Contents() == old(Contents())[sign := val]
    {
      hide AlmostOrdered, ChildrenAbove, Ordered, Valid, Shape, ShapeBut;
      LiveFacts();
      sign := Enlist(val);
      label enlisted:
      ghost var m := Contents();
      SiftUp(numItems, sign);
      assert Contents() == m;
      ShapeOf();
      NodesKept@enlisted();
    }

    /** Adds a value; the handle is not one that is live. */
    method Insert(val: V) returns (sign: Node<V>)
      requires Valid()
      modifies this, heapItems, Nodes()
      ensures Valid() && (heapItems == old(heapItems) || fresh(heapItems)) && fresh(Nodes() - old(Nodes()))
      ensures sign !in old(live) && Contents() == old(Contents())[sign := val]
    {
      if numItems + 1 == heapItems.Length {
        Resize();
      }
      sign := InsertSpare(val);
    }

    /** Changing values alone leaves the shape. */
    twostate lemma ShapeKept()
      requires old(Shape()) && heapItems == old(heapItems) && heapItems[..] == old(heapItems[..])
      requires numItems == old(numItems) && live == old(live) && forall x :: x in live ==> x.index == old(x.index)
      ensures Shape()
    {
      forall i: nat | 1 <= i <= numItems ensures Sits(i) { assert old(Sits(i)); }
      forall x | x in live ensures Knows(x) { assert old(Knows(x)); }
    }

    /** Changes the value of one live handle. */
    method Update(sign: Node<V>, val: V)
      requires Valid() && sign in live
      modifies heapItems, live
      ensures Valid() && Contents() == old(Contents())[sign := val]
      ensures SparesKept() && Nodes() <= old(Nodes())
    {
      assert Knows(sign);
      ghost var r := Ranks();
      sign.val := val;
      ShapeKept();
      assert Ranks() == r[sign.index := Rank(val)] by {
        forall i: nat | 1 <= i <= numItems && i != sign.index ensures heapItems[i] != sign { assert Sits(i); }
      }
      ChangeOne(r, sign.index, Rank(val));
      AdjustNode(sign.index);
    }

    method UpdateTop(val: V)
      requires Valid()
      modifies heapItems, live
      ensures Valid() && SparesKept()
      ensures if old(Contents()) == map[] then Contents() == map[]
              else old(heapItems[1]) in old(live) && Contents() == old(Contents())[old(heapItems[1]) := val]
    {
      LiveCount();
      if numItems == 0 {
        return;
      }
      assert Sits(1);
      assert heapItems[1] in Contents();
      Update(heapItems[1], val);
    }

    /** After the client has changed the value behind a handle: restores the heap and changes no value. */
    method Refresh(sign: Node<V>)
      requires Shape() && sign in live && AlmostOrdered(Ranks(), sign.index)
      modifies heapItems, live`index
      ensures Valid() && Contents() == old(Contents()) && SparesKept()
    {
      assert Knows(sign);
      AdjustNode(sign.index);
    }

    method RefreshTop()
      requires Shape() && (numItems > 0 ==> AlmostOrdered(Ranks(), 1))
      modifies heapItems, live`index
      ensures Valid() && Contents() == old(Contents()) && SparesKept()
    {
      AdjustNode(1);
    }

    /** Takes a live node out: the last live node moves to its place, and it becomes the first spare one. */
    method Delist(item: Node<V>)
      requires Valid() && item in live
      modifies this`numItems, this`live, heapItems, live`index
      ensures numItems == old(numItems) - 1 && live == old(live) - {item} && item.index == old(item.index) >= 1
      ensures Shape() && Nodes() <= old(Nodes())
      ensures var r := old(Ranks())[..numItems + 1];
              Ranks() == if item.index <= numItems then r[item.index := old(Ranks())[numItems + 1]] else r
    {
      assert Knows(item) && Sits(numItems);
      heapItems[item.index] := heapItems[numItems];
      heapItems[numItems] := item;
      numItems := numItems - 1;
      heapItems[item.index].index := item.index;
      live := live - {item};
      forall i: nat | 1 <= i <= numItems ensures Sits(i) { assert old(Sits(i)); }
      forall x | x in live ensures Knows(x) { assert old(Knows(x)); }
    }

    method EraseLive(sign: Node<V>)
      requires Valid() && sign in live
      modifies this`numItems, this`live, heapItems, live`index
      ensures Valid() && live == old(live) - {sign} && Nodes() <= old(Nodes())
    {
      TakeLast(Ranks(), numItems, sign.index);
      assert Knows(sign);
      Delist(sign);
      AdjustNode(sign.index);
    }

    /** Removes one live handle; the values of all others stay. */
    method Erase(sign: Node<V>)
      requires Valid() && (numItems > 0 ==> sign in live)
      modifies this`numItems, this`live, heapItems, live`index
      ensures Valid() && Contents() == old(Contents()) - {sign} && Nodes() <= old(Nodes())
      ensures live == old(live) - {sign}
    {
      LiveCount();
      if numItems == 0 {
        return;
      }
      EraseLive(sign);
    }

    /** Removes the handle whose value Top returns. */
    method Pop()
      requires Valid()
      modifies this`numItems, this`live, heapItems, live`index
      ensures Valid() && Nodes() <= old(Nodes()) && live == old(live) - {old(heapItems[1])}
      ensures Contents() == old(Contents()) - {old(heapItems[1])}
    {
      if numItems > 0 { assert Sits(1); }
      Erase(heapItems[1]);
    }

    method Clear()
      requires Valid()
      modifies this`numItems, this`live
      ensures Valid() && Contents() == map[]
    {
      LiveInNodes();
      ghost var was := live;
      numItems, live := 0, {};
      forall i, j {:trigger heapItems[i], heapItems[j]} | 0 <= i < j < heapItems.Length
            ensures heapItems[i] != heapItems[j] {
        assert old(Sits(i)) || Spare(i, old(numItems));
        assert old(Sits(j)) || Spare(j, old(numItems));
      }
    }
  }
}
