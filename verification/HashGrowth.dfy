/** Rehashing into a larger table: what Resize computes, and exactly for which sizes it loses nothing. */
module HashGrowth {
  import opened Probing
  import opened HashTable

  /** The first never-used slot on the path of a key, from the i-th probe on; |items| probes in all. */
  function FirstNever<K, V>(h: Hashing<K>, items: seq<Slot<K, V>>, key: K, i: nat): (j: nat)
    requires ValidPrimes(h.primes) && |items| > 0 && i <= |items|
    ensures i <= j <= |items|
    ensures forall k: nat :: i <= k < j ==> !items[Path(h, key, |items|, k)].Never?
    ensures j < |items| ==> items[Path(h, key, |items|, j)].Never?
    decreases |items| - i
  {
    if i == |items| || items[Path(h, key, |items|, i)].Never? then i else FirstNever(h, items, key, i + 1)
  }

  /** Copying one entry into the new table; an entry that finds no never-used slot is dropped. */
  function Place<K, V>(h: Hashing<K>, items: seq<Slot<K, V>>, key: K, val: V): (t: seq<Slot<K, V>>)
    requires ValidPrimes(h.primes) && |items| > 0
    ensures |t| == |items|
  {
    var j := FirstNever(h, items, key, 0);
    if j < |items| then items[Path(h, key, |items|, j) := Live(key, val)] else items
  }

  /** The new table after copying the entries of `items` in slot order. */
  function Rehash<K, V>(h: Hashing<K>, items: seq<Slot<K, V>>, n: nat): (t: seq<Slot<K, V>>)
    requires ValidPrimes(h.primes) && n > 0
    ensures |t| == n
  {
    if items == [] then seq(n, _ => Never)
    else
      var last := items[|items| - 1];
      var t := Rehash(h, items[..|items| - 1], n);
      if last.Live? then Place(h, t, last.key, last.val) else t
  }

  /** Growing to an admissible size that can hold them keeps every entry, and leaves no erased slot behind. */
  lemma {:induction false} RehashKeeps<K, V>(h: Hashing<K>, items: seq<Slot<K, V>>, n: nat)
    requires ValidPrimes(h.primes) && Admissible(h.primes, n) && Unique(items) && |items| <= n
    ensures var t := Rehash(h, items, n);
            && WellFormed(h, t) && Model(t) == Model(items) && |LiveSlots(t)| == |LiveSlots(items)|
            && forall q :: 0 <= q < n ==> !t[q].Erased?
  {
    var t := Rehash(h, items, n);
    if items == [] {
      ModelIs(t, map[]);
      assert LiveSlots(t) == {};
    } else {
      var m := |items| - 1;
      var rest := items[..m];
      RehashKeeps(h, rest, n);
      SpareSlot(rest);
      if items[m].Live? {
        LastIsNew(items);
        assert LiveSlots(items) == LiveSlots(rest) + {m};
        PlaceNew(h, Rehash(h, rest, n), items[m].key, items[m].val);
      } else {
        assert LiveSlots(items) == LiveSlots(rest);
      }
    }
  }

  /** Growth to any size, admissible or not, yields a well-formed table without new entries. */
  lemma {:induction false} RehashSound<K, V>(h: Hashing<K>, items: seq<Slot<K, V>>, n: nat)
    requires ValidPrimes(h.primes) && n > 0 && Unique(items)
    ensures WellFormed(h, Rehash(h, items, n)) && Submap(Model(Rehash(h, items, n)), Model(items))
  {
    if items == [] {
      ModelIs(Rehash(h, items, n), map[]);
    } else {
      var m := |items| - 1;
      RehashSound(h, items[..m], n);
      if items[m].Live? {
        var u := Rehash(h, items[..m], n);
        LastIsNew(items);
        var j := FirstNever(h, u, items[m].key, 0);
        if j < n { PutNew(h, u, items[m].key, items[m].val, j); }
      }
    }
  }

  lemma PlaceNew<K, V>(h: Hashing<K>, items: seq<Slot<K, V>>, key: K, val: V)
    requires WellFormed(h, items) && Admissible(h.primes, |items|) && key !in Model(items)
    requires |LiveSlots(items)| < |items| && forall q :: 0 <= q < |items| ==> !items[q].Erased?
    ensures var t := Place(h, items, key, val);
            && WellFormed(h, t) && Model(t) == Model(items)[key := val] && |LiveSlots(t)| == |LiveSlots(items)| + 1
            && forall q :: 0 <= q < |t| ==> !t[q].Erased?
  {
    SpareSlot(items);
    var q: nat :| q < |items| && !items[q].Live?;
    var i := PathHits(h, key, |items|, q);
    var j := FirstNever(h, items, key, 0);
    assert j <= i;
    PutNew(h, items, key, val, j);
  }

  // ----- Growing to a size that a step divides -----

  /** Slots congruent to r modulo p. */
  function Class(n: nat, p: nat, r: nat): set<nat>
    requires p > 0
  {
    set q: nat | q < n && InClass(q, p, r)
  }

  predicate InClass(q: nat, p: nat, r: nat)
    requires p > 0
  {
    q % p == r % p
  }

  /** Of the last p slots only one is in the class. */
  lemma ClassTop(lo: nat, m: nat, p: nat, r: nat, q: nat)
    requires p > 0 && lo == p * m && lo <= q < lo + p && InClass(q, p, r)
    ensures q == lo + r % p
  {
    ModUnique(q, q - lo, p, m);
  }

  /** One slot in p is in the class. */
  lemma {:induction false} ClassSize(n: nat, m: nat, p: nat, r: nat)
    requires p > 0 && n == p * m
    ensures |Class(n, p, r)| <= m
  {
    if m == 0 {
      assert Class(n, p, r) == {};
    } else {
      var lo := p * (m - 1);
      assert n == lo + p;
      ClassSize(lo, m - 1, p, r);
      var x := lo + r % p;
      forall q | q in Class(n, p, r) && q >= lo ensures q == x {
        ClassTop(lo, m - 1, p, r, q);
      }
      SubsetSize(Class(n, p, r), Class(lo, p, r) + {x});
    }
  }

  lemma {:induction false} SubsetSize(a: set<nat>, b: set<nat>)
    requires a <= b
    ensures |a| <= |b|
  {
    assert b == a + (b - a);
  }

  /** Slot q holds the key that is met there at its key-th probe. */
  predicate AtItsProbe(h: Hashing<int>, slot: Slot<int, int>, n: nat, q: nat)
    requires ValidPrimes(h.primes) && n > 0
  {
    slot.Live? && 0 <= slot.key < n && Path(h, slot.key, n, slot.key) == q
  }

  /** A table in which all keys hash to one start, full: key i sits at its i-th probe. */
  lemma FullTable(h: Hashing<int>, n: nat, start: nat) returns (items: seq<Slot<int, int>>)
    requires ValidPrimes(h.primes) && Admissible(h.primes, n)
    requires forall key :: h.hash(key) == start
    ensures |items| == n && WellFormed(h, items) && |Model(items)| == n
  {
    items := [];
    while |items| < n
      invariant |items| <= n
      invariant forall q: nat :: q < |items| ==> AtItsProbe(h, items[q], n, q)
    {
      var i := PathHits(h, 0, n, |items|);
      assert AtItsProbe(h, Live(i, 0), n, |items|);
      items := items + [Live(i, 0)];
    }
    FullTableOk(h, items, n);
  }

  lemma FullTableOk(h: Hashing<int>, items: seq<Slot<int, int>>, n: nat)
    requires ValidPrimes(h.primes) && n == |items| > 0
    requires forall q: nat :: q < n ==> AtItsProbe(h, items[q], n, q)
    ensures WellFormed(h, items) && |Model(items)| == n
  {
    forall p, q | 0 <= p < q < n ensures items[p].key != items[q].key {
      assert AtItsProbe(h, items[p], n, p) && AtItsProbe(h, items[q], n, q);
    }
    forall q: nat | q < n ensures items[q].Live? && Reached(h, items, q) {
      assert AtItsProbe(h, items[q], n, q);
      forall j: nat | j < items[q].key ensures !items[Path(h, items[q].key, n, j)].Never? {
        var p := Path(h, items[q].key, n, j);
        assert AtItsProbe(h, items[p], n, p);
      }
      assert ReachedIn(h, items, q, items[q].key);
    }
    SpareSlot(items);
    ModelSize(items);
  }

  /** With all keys hashed to slot r and p dividing the new size, only slots of the class of r are filled. */
  lemma {:induction false} RehashInClass(h: Hashing<int>, items: seq<Slot<int, int>>, n: nat, p: nat, r: nat)
    requires ValidPrimes(h.primes) && n > 0 && p > 0 && n % p == 0 && Unique(items)
    requires forall key :: Start(h, key, n) == r && Step(h, key, n) == p
    ensures LiveSlots(Rehash(h, items, n)) <= Class(n, p, r)
    ensures Unique(Rehash(h, items, n)) && Model(Rehash(h, items, n)).Keys <= Model(items).Keys
  {
    var t := Rehash(h, items, n);
    if items == [] {
      ModelIs(t, map[]);
    } else {
      var m := |items| - 1;
      var rest := items[..m];
      RehashInClass(h, rest, n, p, r);
      if items[m].Live? {
        var u := Rehash(h, rest, n);
        var key := items[m].key;
        var j := FirstNever(h, u, key, 0);
        LastIsNew(items);
        if j < n {
          ProbesStayCongruent(r, p, n, j);
          ModelEntries(u);
          ModelPut(u, Path(h, key, n, j), key, items[m].val);
        }
      }
    }
  }

  ghost predicate KeepsAll(h: Hashing<int>, n: nat)
    requires ValidPrimes(h.primes) && n > 0
  {
    forall items: seq<Slot<int, int>> :: |items| == n && WellFormed(h, items) ==>
      var t := Rehash(h, items, NextSize(n));
      Unique(t) && Model(t) == Model(items)
  }

  /** Growing a table preserves the map under every hash function if and only if no step divides the new size.
      (Every step is odd and larger than its place in the table of primes, as in the source.) */
  lemma GrowthIff(primes: seq<nat>, n: nat)
    requires ValidPrimes(primes) && Admissible(primes, n)
    requires forall i :: 0 <= i < |primes| ==> primes[i] >= 3 && primes[i] > i
    ensures Admissible(primes, NextSize(n)) <==> forall hash: int -> nat :: KeepsAll(Hashing(hash, primes), n)
  {
    var next := NextSize(n);
    if Admissible(primes, next) {
      forall hash: int -> nat ensures KeepsAll(Hashing(hash, primes), n) {
        var h := Hashing(hash, primes);
        forall items: seq<Slot<int, int>> | |items| == n && WellFormed(h, items)
          ensures var t := Rehash(h, items, next); Unique(t) && Model(t) == Model(items)
        {
          RehashKeeps(h, items, next);
        }
      }
    } else {
      var i :| 0 <= i < |primes| && next % primes[i] == 0;
      var hash: int -> nat := _ => i;
      GrowthLoses(Hashing(hash, primes), n, i);
    }
  }

  lemma ShareTooSmall(n: nat, p: nat, m: nat)
    requires n > 0 && p >= 3 && NextSize(n) == p * m
    ensures m < n
  {
    assert p * m >= 3 * m;
  }

  /** If a step divides the new size, no full table of keys that all start at the slot with that step fits. */
  lemma FullLoses(h: Hashing<int>, items: seq<Slot<int, int>>, n: nat, i: nat)
    requires WellFormed(h, items) && n == |items| == |Model(items)| > 0 && i < |h.primes|
    requires h.primes[i] >= 3 && h.primes[i] > i && NextSize(n) % h.primes[i] == 0
    requires forall key :: h.hash(key) == i
    ensures |Model(Rehash(h, items, NextSize(n)))| < n
  {
    hide Rehash, Model, WellFormed, LiveSlots, Class, IsPrime;
    var next, p := NextSize(n), h.primes[i];
    var m := next / p;
    assert next == p * m;
    ShareTooSmall(n, p, m);
    Scale(p, m);
    assert m >= 1;
    UniqueIn(h, items);
    StartsAtStep(h, next, i);
    RehashInClass(h, items, next, p, i);
    var t := Rehash(h, items, next);
    ClassSize(next, m, p, i);
    SubsetSize(LiveSlots(t), Class(next, p, i));
    ModelSize(t);
  }

  lemma UniqueIn<K, V>(h: Hashing<K>, items: seq<Slot<K, V>>)
    requires WellFormed(h, items)
    ensures Unique(items) && ValidPrimes(h.primes)
  {}

  /** All keys hashed to i start at slot i and probe with the i-th step. */
  lemma StartsAtStep(h: Hashing<int>, n: nat, i: nat)
    requires ValidPrimes(h.primes) && i < n && i < |h.primes| && forall key :: h.hash(key) == i
    ensures forall key :: Start(h, key, n) == i && Step(h, key, n) == h.primes[i]
  {
    ModUnique(i, i, n, 0);
    ModUnique(i, i, |h.primes|, 0);
  }

  lemma GrowthLoses(h: Hashing<int>, n: nat, i: nat)
    requires ValidPrimes(h.primes) && Admissible(h.primes, n) && i < |h.primes|
    requires h.primes[i] >= 3 && h.primes[i] > i && NextSize(n) % h.primes[i] == 0
    requires forall key :: h.hash(key) == i
    ensures !KeepsAll(h, n)
  {
    var items := FullTable(h, n, i);
    FullLoses(h, items, n, i);
  }

  /** The source's smallest step is 53: a table of 71 slots is accepted, and would grow to 106 = 2 * 53. */
  lemma SeventyOneGrowsBadly(primes: seq<nat>)
    requires ValidPrimes(primes) && Admissible(primes, 71) && primes[0] == 53
    requires forall i :: 0 <= i < |primes| ==> primes[i] >= 3 && primes[i] > i
    ensures exists hash: int -> nat :: !KeepsAll(Hashing(hash, primes), 71)
  {
    assert NextSize(71) == 106 && 106 % 53 == 0;
    GrowthIff(primes, 71);
  }
}
