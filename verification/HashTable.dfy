/** What the array of a CloseHashmap means, and why its probe paths find every key. */
module HashTable {
  import opened Probing

  /** A slot never used since the table was made, erased, or live (marks 0, -1 and 1 in the source). */
  datatype Slot<K, V> = Never | Erased | Live(key: K, val: V)

  datatype Hashing<-K> = Hashing(hash: K -> nat, primes: seq<nat>)

  predicate ValidPrimes(primes: seq<nat>) {
    |primes| > 0 && forall i :: 0 <= i < |primes| ==> IsPrime(primes[i])
  }

  /** A table size Init accepts: positive and not a multiple of any step. */
  predicate Admissible(primes: seq<nat>, n: nat)
    requires ValidPrimes(primes)
  {
    n > 0 && forall i :: 0 <= i < |primes| ==> n % primes[i] != 0
  }

  /** The size Resize grows to: 1.5 times the old one, rounded down, but at least one more. */
  function NextSize(n: nat): nat { if n + n / 2 == n then n + 1 else n + n / 2 }

  /** Half as much again, rounded down, and at least one more. */
  lemma NextSizeIs(n: nat)
    ensures NextSize(n) == if n < 2 then n + 1 else 3 * n / 2
  {}

  function Start<K>(h: Hashing<K>, key: K, n: nat): (p: nat)
    requires n > 0
    ensures p < n
  {
    h.hash(key) % n
  }

  function Step<K>(h: Hashing<K>, key: K, n: nat): nat
    requires ValidPrimes(h.primes) && n > 0
  {
    h.primes[Start(h, key, n) % |h.primes|]
  }

  /** The i-th slot on the probe path of a key. */
  function Path<K>(h: Hashing<K>, key: K, n: nat, i: nat): (p: nat)
    requires ValidPrimes(h.primes) && n > 0
    ensures p < n
  {
    Probe(Start(h, key, n), Step(h, key, n), n, i)
  }

  lemma PathStart<K>(h: Hashing<K>, key: K, n: nat)
    requires ValidPrimes(h.primes) && n > 0
    ensures Path(h, key, n, 0) == Start(h, key, n)
  {
    ProbeFirst(Start(h, key, n), Step(h, key, n), n);
  }

  lemma PathNext<K>(h: Hashing<K>, key: K, n: nat, i: nat)
    requires ValidPrimes(h.primes) && n > 0
    ensures Path(h, key, n, i + 1) == (Path(h, key, n, i) + Step(h, key, n)) % n
  {
    ProbeNext(Start(h, key, n), Step(h, key, n), n, i);
  }

  /** On a table of admissible size the path of every key comes by every slot. */
  lemma PathHits<K>(h: Hashing<K>, key: K, n: nat, q: nat) returns (i: nat)
    requires ValidPrimes(h.primes) && Admissible(h.primes, n) && q < n
    ensures i < n && Path(h, key, n, i) == q
  {
    i := ProbeHits(Start(h, key, n), Step(h, key, n), n, q);
  }

  // ----- The meaning of a table -----

  ghost predicate Unique<K, V>(items: seq<Slot<K, V>>) {
    forall p, q :: 0 <= p < q < |items| && items[p].Live? && items[q].Live? ==> items[p].key != items[q].key
  }

  /** No never-used slot precedes slot q on the path of the key it holds. */
  ghost predicate ReachedIn<K, V>(h: Hashing<K>, items: seq<Slot<K, V>>, q: nat, i: nat)
    requires ValidPrimes(h.primes) && q < |items| && items[q].Live?
  {
    && i < |items| && Path(h, items[q].key, |items|, i) == q
    && forall j: nat :: j < i ==> !items[Path(h, items[q].key, |items|, j)].Never?
  }

  ghost predicate Reached<K, V>(h: Hashing<K>, items: seq<Slot<K, V>>, q: nat)
    requires ValidPrimes(h.primes) && q < |items| && items[q].Live?
  {
    exists i: nat :: ReachedIn(h, items, q, i)
  }

  ghost predicate WellFormed<K, V>(h: Hashing<K>, items: seq<Slot<K, V>>) {
    && ValidPrimes(h.primes)
    && Unique(items)
    && forall q: nat :: q < |items| && items[q].Live? ==> Reached(h, items, q)
  }

  function LiveSlots<K, V>(items: seq<Slot<K, V>>): set<nat> { set q: nat | q < |items| && items[q].Live? }

  /** The map a table stands for. */
  ghost function Model<K, V>(items: seq<Slot<K, V>>): map<K, V> {
    if items == [] then map[]
    else
      var n := |items| - 1;
      if items[n].Live? then Model(items[..n])[items[n].key := items[n].val] else Model(items[..n])
  }

  /** Every entry of a is one of b. */
  ghost predicate Submap<K, V>(a: map<K, V>, b: map<K, V>) { forall key :: key in a ==> key in b && a[key] == b[key] }

  ghost predicate LiveAt<K, V>(items: seq<Slot<K, V>>, q: nat, key: K) {
    q < |items| && items[q].Live? && items[q].key == key
  }

  /** With unique keys the map has exactly the entries of the live slots. */
  lemma {:induction false} ModelEntries<K, V>(items: seq<Slot<K, V>>)
    requires Unique(items)
    ensures forall q: nat :: q < |items| && items[q].Live? ==>
              items[q].key in Model(items) && Model(items)[items[q].key] == items[q].val
    ensures forall key :: key in Model(items) ==> exists q: nat :: LiveAt(items, q, key)
  {
    if items != [] {
      var n := |items| - 1;
      var rest := items[..n];
      ModelEntries(rest);
      forall q: nat | q < |items| && items[q].Live?
        ensures items[q].key in Model(items) && Model(items)[items[q].key] == items[q].val
      {
        if q < n { assert rest[q] == items[q]; }
      }
      forall key | key in Model(items) ensures exists q: nat :: LiveAt(items, q, key) {
        if items[n].Live? && items[n].key == key {
          assert LiveAt(items, n, key);
        } else {
          assert key in Model(rest);
          var q: nat :| LiveAt(rest, q, key);
          assert LiveAt(items, q, key);
        }
      }
    }
  }

  /** A map is the model of a table if it has exactly the entries of the live slots. */
  lemma ModelIs<K, V>(items: seq<Slot<K, V>>, m: map<K, V>)
    requires Unique(items)
    requires forall q: nat :: q < |items| && items[q].Live? ==> items[q].key in m && m[items[q].key] == items[q].val
    requires forall key :: key in m ==> exists q: nat :: LiveAt(items, q, key)
    ensures Model(items) == m
  {
    ModelEntries(items);
    forall key ensures key in Model(items) <==> key in m {
      if key in Model(items) {
        var q: nat :| LiveAt(items, q, key);
      }
      if key in m {
        var q: nat :| LiveAt(items, q, key);
      }
    }
    forall key | key in m ensures Model(items)[key] == m[key] {
      var q: nat :| LiveAt(items, q, key);
    }
  }

  lemma LastIsNew<K, V>(items: seq<Slot<K, V>>)
    requires Unique(items) && items != [] && items[|items| - 1].Live?
    ensures items[|items| - 1].key !in Model(items[..|items| - 1])
  {
    var rest, key := items[..|items| - 1], items[|items| - 1].key;
    ModelEntries(rest);
    assert forall q: nat :: q < |rest| ==> !LiveAt(rest, q, key);
  }

  /** Each live slot contributes one key. */
  lemma {:induction false} ModelSize<K, V>(items: seq<Slot<K, V>>)
    requires Unique(items)
    ensures |Model(items)| == |LiveSlots(items)| <= |items|
  {
    if items == [] {
      assert LiveSlots(items) == {};
    } else {
      var n := |items| - 1;
      var rest := items[..n];
      ModelSize(rest);
      if items[n].Live? {
        LastIsNew(items);
        assert LiveSlots(items) == LiveSlots(rest) + {n};
      } else {
        assert LiveSlots(items) == LiveSlots(rest);
      }
    }
  }

  /** A table with fewer live slots than slots has one to spare. */
  lemma {:induction false} SpareSlot<K, V>(items: seq<Slot<K, V>>)
    ensures |LiveSlots(items)| <= |items|
    ensures |LiveSlots(items)| < |items| <==> exists q: nat :: q < |items| && !items[q].Live?
  {
    if items == [] {
      assert LiveSlots(items) == {};
    } else {
      var n := |items| - 1;
      var rest := items[..n];
      SpareSlot(rest);
      if items[n].Live? {
        assert LiveSlots(items) == LiveSlots(rest) + {n};
        if q: nat :| q < |rest| && !rest[q].Live? { assert !items[q].Live?; }
        if q: nat :| q < |items| && !items[q].Live? { assert !rest[q].Live?; }
      } else {
        assert LiveSlots(items) == LiveSlots(rest);
      }
    }
  }

  // ----- Lookup -----

  /** Whether slot p holds the key. */
  predicate HoldsKey<K(==), V>(items: seq<Slot<K, V>>, key: K, p: nat)
    requires p < |items|
  {
    items[p].Live? && items[p].key == key
  }

  /** A search that has met a never-used slot, or has gone all the way round, has not missed the key. */
  lemma MissMeansAbsent<K, V>(h: Hashing<K>, items: seq<Slot<K, V>>, key: K, i: nat)
    requires WellFormed(h, items) && 0 < |items|
    requires forall j: nat :: j < i ==> !HoldsKey(items, key, Path(h, key, |items|, j))
    requires i >= |items| || items[Path(h, key, |items|, i)].Never?
    ensures key !in Model(items)
  {
    ModelEntries(items);
    if key in Model(items) {
      var q: nat :| LiveAt(items, q, key);
      assert Reached(h, items, q);
      var r: nat :| ReachedIn(h, items, q, r);
      assert HoldsKey(items, key, Path(h, key, |items|, r));
    }
  }

  // ----- Writing one slot -----

  /** No slot on the path of the key is free. */
  ghost predicate PathFull<K, V>(h: Hashing<K>, items: seq<Slot<K, V>>, key: K)
    requires ValidPrimes(h.primes)
  {
    |items| > 0 && forall j: nat :: j < |items| ==> items[Path(h, key, |items|, j)].Live?
  }

  /** In a table of admissible size that means that all slots are live. */
  lemma PathFullIff<K, V>(h: Hashing<K>, items: seq<Slot<K, V>>, key: K)
    requires ValidPrimes(h.primes) && Admissible(h.primes, |items|)
    ensures PathFull(h, items, key) <==> |LiveSlots(items)| == |items|
  {
    SpareSlot(items);
    if PathFull(h, items, key) {
      forall q: nat | q < |items| ensures items[q].Live? {
        var j := PathHits(h, key, |items|, q);
      }
    }
  }

  /** Changing a slot without making it never-used leaves the paths of all other live slots intact. */
  lemma StillReached<K, V>(h: Hashing<K>, items: seq<Slot<K, V>>, q: nat, slot: Slot<K, V>)
    requires WellFormed(h, items) && q < |items| && !slot.Never?
    ensures var t := items[q := slot];
            forall p: nat :: p < |t| && t[p].Live? && p != q ==> Reached(h, t, p)
    ensures var t := items[q := slot];
            items[q].Live? && slot.Live? && slot.key == items[q].key ==> Reached(h, t, q)
  {
    var t := items[q := slot];
    forall p: nat | p < |t| && t[p].Live? && items[p].Live? && t[p].key == items[p].key ensures Reached(h, t, p) {
      assert Reached(h, items, p);
      var r: nat :| ReachedIn(h, items, p, r);
      assert ReachedIn(h, t, p, r);
    }
  }

  /** Writing a key into a slot where no other slot holds it. */
  lemma ModelPut<K, V>(items: seq<Slot<K, V>>, q: nat, key: K, val: V)
    requires Unique(items) && q < |items| && (items[q].Live? ==> items[q].key == key)
    requires forall p: nat :: p < |items| && p != q ==> !LiveAt(items, p, key)
    ensures Unique(items[q := Live(key, val)])
    ensures Model(items[q := Live(key, val)]) == Model(items)[key := val]
  {
    var t := items[q := Live(key, val)];
    forall a, b | 0 <= a < b < |t| && t[a].Live? && t[b].Live? ensures t[a].key != t[b].key {
      assert !LiveAt(items, a, key) || a == q;
      assert !LiveAt(items, b, key) || b == q;
    }
    ModelEntries(items);
    var m := Model(items)[key := val];
    forall p: nat | p < |t| && t[p].Live? ensures t[p].key in m && m[t[p].key] == t[p].val {
      assert p == q || !LiveAt(items, p, key);
    }
    forall k | k in m ensures exists p: nat :: LiveAt(t, p, k) {
      if k == key {
        assert LiveAt(t, q, k);
      } else {
        var p: nat :| LiveAt(items, p, k);
        assert LiveAt(t, p, k);
      }
    }
    ModelIs(t, m);
  }

  /** Putting an absent key in the first free slot of its path adds it to the map. */
  lemma PutNew<K, V>(h: Hashing<K>, items: seq<Slot<K, V>>, key: K, val: V, i: nat)
    requires WellFormed(h, items) && i < |items| && key !in Model(items)
    requires !items[Path(h, key, |items|, i)].Live?
    requires forall j: nat :: j < i ==> !items[Path(h, key, |items|, j)].Never?
    ensures var q := Path(h, key, |items|, i);
            var t := items[q := Live(key, val)];
            && WellFormed(h, t) && Model(t) == Model(items)[key := val]
            && LiveSlots(t) == LiveSlots(items) + {q} && q !in LiveSlots(items)
  {
    var q := Path(h, key, |items|, i);
    var t := items[q := Live(key, val)];
    StillReached(h, items, q, Live(key, val));
    ModelEntries(items);
    ModelPut(items, q, key, val);
    assert ReachedIn(h, t, q, i);
  }

  /** Overwriting the slot of a key with a new value changes the value of that key. */
  lemma PutAgain<K, V>(h: Hashing<K>, items: seq<Slot<K, V>>, key: K, val: V, q: nat)
    requires WellFormed(h, items) && q < |items| && HoldsKey(items, key, q)
    ensures var t := items[q := Live(key, val)];
            WellFormed(h, t) && Model(t) == Model(items)[key := val] && LiveSlots(t) == LiveSlots(items)
  {
    StillReached(h, items, q, Live(key, val));
    ModelPut(items, q, key, val);
  }

  /** Marking the slot of a key as erased removes that key and keeps the paths of all others intact. */
  lemma Remove<K, V>(h: Hashing<K>, items: seq<Slot<K, V>>, q: nat)
    requires WellFormed(h, items) && q < |items| && items[q].Live?
    ensures var t := items[q := Erased];
            && WellFormed(h, t) && Model(t) == Model(items) - {items[q].key}
            && LiveSlots(t) == LiveSlots(items) - {q} && q in LiveSlots(items)
  {
    var t := items[q := Erased];
    StillReached(h, items, q, Erased);
    assert Unique(t);
    ModelEntries(items);
    forall k | k in Model(items) - {items[q].key} ensures exists p: nat :: LiveAt(t, p, k) {
      var p: nat :| LiveAt(items, p, k);
      assert LiveAt(t, p, k);
    }
    ModelIs(t, Model(items) - {items[q].key});
  }

  // ----- Iteration -----

  /** The first live slot from pos on. */
  function NextLive<K, V>(items: seq<Slot<K, V>>, pos: nat): (q: nat)
    requires pos <= |items|
    ensures pos <= q <= |items|
    ensures q < |items| ==> items[q].Live?
    ensures forall p :: pos <= p < q ==> !items[p].Live?
    decreases |items| - pos
  {
    if pos == |items| || items[pos].Live? then pos else NextLive(items, pos + 1)
  }

  /** The keys an iterator at pos is going to yield. */
  function Walk<K, V>(items: seq<Slot<K, V>>, pos: nat): seq<K>
    requires pos <= |items|
    decreases |items| - pos
  {
    var q := NextLive(items, pos);
    if q == |items| then [] else [items[q].key] + Walk(items, q + 1)
  }

  /** A key it yields is that of a live slot ahead. */
  lemma {:induction false} WalkOnly<K, V>(items: seq<Slot<K, V>>, pos: nat, key: K)
    requires pos <= |items| && key in Walk(items, pos)
    ensures exists p: nat :: pos <= p && LiveAt(items, p, key)
    decreases |items| - pos
  {
    var q := NextLive(items, pos);
    if key == items[q].key {
      assert LiveAt(items, q, key);
    } else {
      WalkOnly(items, q + 1, key);
    }
  }

  /** Every live slot ahead has its key yielded. */
  lemma {:induction false} WalkAll<K, V>(items: seq<Slot<K, V>>, pos: nat, p: nat)
    requires pos <= p < |items| && items[p].Live?
    ensures items[p].key in Walk(items, pos)
    decreases |items| - pos
  {
    var q := NextLive(items, pos);
    if q < p { WalkAll(items, q + 1, p); }
  }

  /** No key is yielded twice. */
  lemma {:induction false} WalkDistinct<K, V>(items: seq<Slot<K, V>>, pos: nat, i: nat, j: nat)
    requires Unique(items) && pos <= |items| && i < j < |Walk(items, pos)|
    ensures Walk(items, pos)[i] != Walk(items, pos)[j]
    decreases |items| - pos
  {
    var q := NextLive(items, pos);
    var rest := Walk(items, q + 1);
    if i > 0 {
      WalkDistinct(items, q + 1, i - 1, j - 1);
    } else {
      WalkOnly(items, q + 1, rest[j - 1]);
      var p: nat :| q + 1 <= p && LiveAt(items, p, rest[j - 1]);
    }
  }

  /** Iterating from the beginning yields every key of the map, and none twice. */
  lemma WalkYieldsEachKeyOnce<K, V>(items: seq<Slot<K, V>>)
    requires Unique(items)
    ensures forall key :: key in Walk(items, 0) <==> key in Model(items)
    ensures |Walk(items, 0)| == |Model(items)|
  {
    ModelEntries(items);
    forall key ensures key in Walk(items, 0) <==> key in Model(items) {
      if key in Walk(items, 0) {
        WalkOnly(items, 0, key);
      }
      if key in Model(items) {
        var p: nat :| LiveAt(items, p, key);
        WalkAll(items, 0, p);
      }
    }
    forall i, j | 0 <= i < j < |Walk(items, 0)| ensures Walk(items, 0)[i] != Walk(items, 0)[j] {
      WalkDistinct(items, 0, i, j);
    }
    DistinctSize(Walk(items, 0), Model(items).Keys);
  }

  lemma {:induction false} DistinctSize<K>(s: seq<K>, keys: set<K>)
    requires forall i, j :: 0 <= i < j < |s| ==> s[i] != s[j]
    requires forall key :: key in s <==> key in keys
    ensures |s| == |keys|
  {
    if s == [] {
      assert keys == {};
    } else {
      var rest := s[1..];
      forall key ensures key in rest <==> key in keys - {s[0]} {
        if key in keys && key != s[0] { assert key in s; }
      }
      DistinctSize(rest, keys - {s[0]});
    }
  }
}
