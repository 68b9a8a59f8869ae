/** What a client gets who takes a heap of src/heap.hpp apart with Top and Pop. */
module HeapDrain {
  import opened Options
  import opened Heaps

  /** The handles taken, with the values they had: each handle of m is there once, and in a min heap the feature
      never falls, in a max heap it never rises. */
  ghost predicate Sorted<V(0)>(h: Heap<V>, m: map<Node<V>, V>, taken: seq<Node<V>>, out: seq<V>) {
    && |out| == |taken|
    && (forall x :: x in m ==> x in taken)
    && (forall k :: 0 <= k < |taken| ==> taken[k] in m && out[k] == m[taken[k]])
    && (forall j, k :: 0 <= j < k < |taken| ==> taken[j] != taken[k])
    && (forall j, k :: 0 <= j < k < |out| ==>
          if h.isMaxHeap then h.feature(out[k]) <= h.feature(out[j]) else h.feature(out[j]) <= h.feature(out[k]))
  }

  /** Values taken from m so far; left are the others, of no lower rank. */
  ghost predicate Taking<V(0)>(h: Heap<V>, m: map<Node<V>, V>, taken: seq<Node<V>>, out: seq<V>,
                                  left: map<Node<V>, V>) {
    && |out| == |taken|
    && left.Keys <= m.Keys && (forall x :: x in left ==> left[x] == m[x])
    && (forall x :: x in m ==> x in taken || x in left)
    && (forall k :: 0 <= k < |taken| ==> taken[k] in m && taken[k] !in left && out[k] == m[taken[k]])
    && (forall j, k :: 0 <= j < k < |taken| ==> taken[j] != taken[k])
    && (forall j, k :: 0 <= j < k < |out| ==> h.Rank(out[j]) <= h.Rank(out[k]))
    && (forall k, x :: 0 <= k < |out| && x in left ==> h.Rank(out[k]) <= h.Rank(left[x]))
  }

  lemma TakeNext<V(0)>(h: Heap<V>, m: map<Node<V>, V>, taken: seq<Node<V>>, out: seq<V>, left: map<Node<V>, V>,
        x: Node<V>)
    requires Taking(h, m, taken, out, left) && x in left
    requires forall y :: y in left ==> h.Rank(left[x]) <= h.Rank(left[y])
    ensures Taking(h, m, taken + [x], out + [left[x]], left - {x})
  {}

  /** Popping what Top has returned takes one more. */
  lemma TopNext<V(0)>(h: Heap<V>, m: map<Node<V>, V>, taken: seq<Node<V>>, out: seq<V>, top: Option<V>)
    requires Taking(h, m, taken, out, h.Contents()) && IsTop(h, top) && top.Some?
    ensures h.heapItems.Length > 1 && h.heapItems[1] in h.live
    ensures Taking(h, m, taken + [h.heapItems[1]], out + [top.value], h.Contents() - {h.heapItems[1]})
  {
    TakeNext(h, m, taken, out, h.Contents(), h.heapItems[1]);
  }

  lemma NoneLeft<V(0)>(h: Heap<V>, m: map<Node<V>, V>, taken: seq<Node<V>>, out: seq<V>)
    requires Taking(h, m, taken, out, map[])
    ensures Sorted(h, m, taken, out)
  {}

  method NextTop<V(0)>(h: Heap<V>) returns (top: Option<V>)
    requires h.Valid()
    ensures h.Valid() && IsTop(h, top)
  {
    top := h.Top();
  }

  /** Top and Pop until nothing is left: all the values, ties included, in order. */
  method Drain<V(0)>(h: Heap<V>) returns (out: seq<V>, ghost taken: seq<Node<V>>)
    requires h.Valid()
    modifies h`numItems, h`live, h.heapItems, h.live`index
    ensures h.Valid() && h.Contents() == map[]
    ensures Sorted(h, old(h.Contents()), taken, out)
  {
    ghost var m := h.Contents();
    out, taken := [], [];
    var top := NextTop(h);
    while top.Some?
      invariant h.Valid() && h.heapItems == old(h.heapItems) && h.live <= old(h.live)
      invariant Taking(h, m, taken, out, h.Contents())
      invariant IsTop(h, top)
      decreases |h.live|
    {
      hide Taking, Sorted, IsTop;
      TopNext(h, m, taken, out, top);
      out, taken := out + [top.value], taken + [h.heapItems[1]];
      h.Pop();
      top := NextTop(h);
    }
    NoneLeft(h, m, taken, out);
  }

  /** What Top returns. */
  ghost predicate IsTop<V(0)>(h: Heap<V>, top: Option<V>)
    reads h, h.heapItems, h.heapItems[..], h.live
  {
    && (top == None <==> h.Contents() == map[])
    && (top.Some? ==>
          && h.heapItems.Length > 1 && h.heapItems[1] in h.Contents() && top.value == h.Contents()[h.heapItems[1]]
          && forall x :: x in h.Contents() ==> h.Rank(top.value) <= h.Rank(h.Contents()[x]))
  }
}
