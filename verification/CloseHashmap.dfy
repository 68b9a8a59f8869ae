/** The map of src/close_hashmap.hpp: an array of slots probed by double hashing, changed in place. */
module CloseHashmaps {
  import opened Options
  import opened Probing
  import opened HashTable
  import opened HashGrowth

  /** How a call that may dereference a NULL ends. */
  datatype Outcome = Done(ok: bool) | NullDereference

  class CloseHashmap<K(==), V> {
    const h: Hashing<K>
    var sizeArray: nat
    var toResize: bool
    var items: array<Slot<K, V>>
    var numElm: nat

    constructor (h: Hashing<K>)
      ensures this.h == h && numElm == 0 && sizeArray == 0
    {
      this.h := h;
      items := new Slot<K, V>[0];
      sizeArray, toResize, numElm := 0, false, 0;
    }

    /** The table can be searched. */
    ghost predicate Sound()
      reads this, items
    {
      sizeArray == items.Length > 0 && WellFormed(h, items[..])
    }

    ghost predicate Valid()
      reads this, items
    {
      && sizeArray == items.Length
      && WellFormed(h, items[..])
      && Admissible(h.primes, sizeArray)
      && numElm == |LiveSlots(items[..])|
    }

    lemma ValidIsSound()
      requires Valid()
      ensures Sound()
    {
      ModUnique(0, 0, h.primes[0], 0);
    }

    /** The finite map the object stands for. */
    ghost function Contents(): map<K, V>
      reads this, items
    {
      Model(items[..])
    }

    /** Growing, if an insertion needs it, must lead to a size that no step divides. */
    ghost predicate CanGrow()
      reads this
      requires ValidPrimes(h.primes)
    {
      numElm == sizeArray && toResize ==> Admissible(h.primes, NextSize(sizeArray))
    }

    /** Refuses sizes that a step divides, 0 among them. */
    method Init(size: nat, resize: bool) returns (ok: bool)
      requires ValidPrimes(h.primes)
      modifies this
      ensures ok <==> Admissible(h.primes, size)
      ensures ok ==> Valid() && fresh(items) && Contents() == map[] && sizeArray == size && toResize == resize
      ensures !ok ==> unchanged(this)
    {
      var i := 0;
      while i < |h.primes|
        invariant 0 <= i <= |h.primes|
        invariant forall k :: 0 <= k < i ==> size % h.primes[k] != 0
        invariant unchanged(this)
      {
        if size % h.primes[i] == 0 {
          return false;
        }
        i := i + 1;
      }
      if size == 0 { ModUnique(0, 0, h.primes[0], 0); }
      sizeArray, toResize, numElm := size, resize, 0;
      items := new Slot<K, V>[size](_ => Never);
      RehashKeeps<K, V>(h, [], size);
      assert items[..] == Rehash<K, V>(h, [], size);
      return true;
    }

    lemma SizeIsDomain()
      requires Valid()
      ensures numElm == |Contents()| <= sizeArray
    {
      ModelSize(items[..]);
    }

    /** The slot of a key, or -1. */
    method GetItemOrNull(key: K) returns (pos: int)
      requires Sound()
      ensures -1 <= pos < items.Length
      ensures pos >= 0 ==> HoldsKey(items[..], key, pos) && key in Contents() && Contents()[key] == items[pos].val
      ensures pos == -1 ==> key !in Contents()
    {
      ModelEntries(items[..]);
      PathStart(h, key, sizeArray);
      pos := h.hash(key) % sizeArray;
      if items[pos].Live? && items[pos].key == key {
        return pos;
      } else if items[pos].Never? {
        MissMeansAbsent(h, items[..], key, 0);
        return -1;
      }
      var step := h.primes[pos % |h.primes|];
      var i := 0;
      while i < sizeArray - 1
        invariant 0 <= i <= sizeArray - 1
        invariant pos == Path(h, key, sizeArray, i)
        invariant forall j: nat :: j <= i ==> !HoldsKey(items[..], key, Path(h, key, sizeArray, j))
      {
        PathNext(h, key, sizeArray, i);
        pos := (pos + step) % sizeArray;
        if items[pos].Live? && items[pos].key == key {
          return pos;
        } else if items[pos].Never? {
          MissMeansAbsent(h, items[..], key, i + 1);
          return -1;
        }
        i := i + 1;
      }
      MissMeansAbsent(h, items[..], key, sizeArray);
      return -1;
    }

    /** The slot of a key; or else the first slot of its path that is not live, at probe `at`; or else -1,
        which happens only when every slot of its path is live. */
    method GetItemOrFree(key: K) returns (pos: int, ghost at: nat)
      requires Sound()
      ensures -1 <= pos < items.Length
      ensures key in Contents() ==> pos >= 0 && HoldsKey(items[..], key, pos)
      ensures key !in Contents() && pos >= 0 ==>
                && !items[pos].Live? && at < sizeArray && pos == Path(h, key, sizeArray, at)
                && forall j: nat :: j < at ==> items[Path(h, key, sizeArray, j)].Live?
      ensures pos == -1 <==> key !in Contents() && PathFull(h, items[..], key)
      ensures Valid() && key !in Contents() ==> (pos == -1 <==> numElm == sizeArray)
    {
      if Valid() { PathFullIff(h, items[..], key); }
      pos := GetItemOrNull(key);
      at := 0;
      if pos != -1 {
        return;
      }
      PathStart(h, key, sizeArray);
      pos := h.hash(key) % sizeArray;
      var step := h.primes[pos % |h.primes|];
      var i := 0;
      while i < sizeArray
        invariant 0 <= i <= sizeArray
        invariant pos == Path(h, key, sizeArray, i)
        invariant forall j: nat :: j < i ==> items[Path(h, key, sizeArray, j)].Live?
      {
        if !items[pos].Live? {
          at := i;
          return;
        }
        PathNext(h, key, sizeArray, i);
        pos := (pos + step) % sizeArray;
        i := i + 1;
      }
      pos := -1;
    }

    /** The value of a key, if it has one. */
    method Get(key: K) returns (r: Option<V>)
      requires Valid()
      ensures r == if key in Contents() then Some(Contents()[key]) else None
    {
      ValidIsSound();
      var pos := GetItemOrNull(key);
      if pos != -1 {
        return Some(items[pos].val);
      }
      return None;
    }

    /** Copies the live entries into a larger array.  For any new size the result is the rehashed table; for an
        admissible one that is the same map. */
    method Resize()
      requires Valid()
      modifies this
      ensures sizeArray == items.Length == NextSize(old(sizeArray)) && fresh(items)
      ensures sizeArray == if old(sizeArray) < 2 then old(sizeArray) + 1 else 3 * old(sizeArray) / 2
      ensures items[..] == Rehash(h, old(items[..]), sizeArray)
      ensures numElm == old(numElm) && toResize == old(toResize)
      ensures Sound() && Submap(Contents(), old(Contents()))
      ensures Admissible(h.primes, sizeArray) ==> Valid() && Contents() == old(Contents())
    {
      var newSize := sizeArray + sizeArray / 2;
      if newSize == sizeArray {
        newSize := newSize + 1;
      }
      var newItems := new Slot<K, V>[newSize](_ => Never);
      ghost var was := items[..];
      var i := 0;
      while i < sizeArray
        invariant 0 <= i <= sizeArray == items.Length
        invariant items[..] == was && unchanged(this)
        invariant newItems[..] == Rehash(h, was[..i], newSize)
        modifies newItems
      {
        assert was[..i + 1][..i] == was[..i];
        if items[i].Live? {
          Copy(newItems, items[i].key, items[i].val);
        }
        i := i + 1;
      }
      assert was[..i] == was;
      sizeArray := newSize;
      items := newItems;
      RehashSound(h, was, newSize);
      if Admissible(h.primes, newSize) { RehashKeeps(h, was, newSize); }
    }

    /** Copies one entry to the first never-used slot of its path. */
    method Copy(newItems: array<Slot<K, V>>, key: K, val: V)
      requires ValidPrimes(h.primes) && newItems.Length > 0
      modifies newItems
      ensures newItems[..] == Place(h, old(newItems[..]), key, val)
    {
      var n := newItems.Length;
      PathStart(h, key, n);
      var pos := h.hash(key) % n;
      if newItems[pos].Never? {
        newItems[pos] := Live(key, val);
        return;
      }
      var step := h.primes[pos % |h.primes|];
      var j := 0;
      while j < n - 1
        invariant 0 <= j <= n - 1
        invariant pos == Path(h, key, n, j)
        invariant newItems[..] == old(newItems[..])
        invariant FirstNever(h, newItems[..], key, 0) == FirstNever(h, newItems[..], key, j + 1)
      {
        PathNext(h, key, n, j);
        pos := (pos + step) % n;
        if newItems[pos].Never? {
          newItems[pos] := Live(key, val);
          return;
        }
        j := j + 1;
      }
    }

    /** Writes an absent key to the free slot found for it. */
    method PutFree(pos: nat, ghost at: nat, key: K, val: V)
      requires Sound() && key !in Contents() && at < sizeArray
      requires pos == Path(h, key, sizeArray, at) && !items[pos].Live?
      requires forall j: nat :: j < at ==> items[Path(h, key, sizeArray, j)].Live?
      modifies this`numElm, items
      ensures Sound() && Contents() == old(Contents())[key := val] && (old(Valid()) ==> Valid())
    {
      PutNew(h, items[..], key, val, at);
      items[pos] := Live(key, val);
      assert items[..] == old(items[..])[pos := Live(key, val)];
      numElm := numElm + 1;
    }

    /** The map an insertion finds once it has grown the table, if it has to. */
    ghost function Grown(): map<K, V>
      reads this, items
      requires ValidPrimes(h.primes) && NextSize(sizeArray) > 0
    {
      if numElm == sizeArray && toResize then Model(Rehash(h, items[..], NextSize(sizeArray))) else Contents()
    }

    /** Adds a key that is absent; never changes the value of one that is present.  Growth to a size that a step divides
        may lose entries, and then may leave no slot for the key. */
    method Insert(key: K, val: V) returns (r: Outcome)
      requires Valid()
      modifies this, items
      ensures Sound() && (items == old(items) || fresh(items)) && toResize == old(toResize)
      ensures sizeArray == if old(numElm == sizeArray && toResize) then NextSize(old(sizeArray)) else old(sizeArray)
      ensures r == NullDereference ==> key !in old(Grown()) && Contents() == old(Grown()) && PathFull(h, items[..], key)
      ensures r == Done(true) ==> key !in old(Grown()) && Contents() == old(Grown())[key := val]
      ensures r == Done(false) ==>
                (key in old(Grown()) || old(numElm == sizeArray && !toResize)) && Contents() == old(Grown())
      ensures old(CanGrow()) ==>
                && Valid()
                && r == Done(key !in old(Contents()) && (old(numElm) < old(sizeArray) || old(toResize)))
                && Contents() == if r.ok then old(Contents())[key := val] else old(Contents())
    {
      ValidIsSound();
      SizeIsDomain();
      if sizeArray == numElm {
        if toResize {
          Resize();
        } else {
          return Done(false);
        }
      }
      var pos, at := GetItemOrFree(key);
      if pos == -1 { return NullDereference; }
      if !items[pos].Live? {
        PutFree(pos, at, key, val);
        return Done(true);
      } else {
        return Done(false);
      }
    }

    /** Sets the value of a key, adding it if absent.  Growth to a size that a step divides may lose entries, and
        then may leave no slot for the key. */
    method Upsert(key: K, val: V) returns (r: Outcome)
      requires Valid()
      modifies this, items
      ensures Sound() && (items == old(items) || fresh(items)) && toResize == old(toResize)
      ensures sizeArray == if key !in old(Contents()) && old(numElm == sizeArray && toResize)
                           then NextSize(old(sizeArray)) else old(sizeArray)
      ensures key in old(Contents()) ==> Valid() && r == Done(true) && Contents() == old(Contents())[key := val]
      ensures key !in old(Contents()) ==>
                match r
                case NullDereference => Contents() == old(Grown()) && PathFull(h, items[..], key)
                case Done(ok) =>
                  && (ok <==> old(numElm) < old(sizeArray) || old(toResize))
                  && Contents() == if ok then old(Grown())[key := val] else old(Grown())
      ensures key !in old(Contents()) && old(CanGrow()) ==>
                Valid() && r.Done? && Contents() == if r.ok then old(Contents())[key := val] else old(Contents())
    {
      ValidIsSound();
      SizeIsDomain();
      var pos, at := GetItemOrFree(key);
      if pos != -1 && items[pos].Live? {
        PutAgain(h, items[..], key, val, pos);
        items[pos] := Live(key, val);
        assert items[..] == old(items[..])[pos := Live(key, val)];
        return Done(true);
      }
      if sizeArray != numElm {
        PutFree(pos, at, key, val);
        return Done(true);
      } else if toResize {
        Resize();
        pos, at := GetItemOrFree(key);
        if pos == -1 { return NullDereference; }
        PutFree(pos, at, key, val);
        return Done(true);
      } else {
        return Done(false);
      }
    }

    /** Removes one key and leaves all others. */
    method Erase(key: K) returns (ok: bool)
      requires Valid()
      modifies this`numElm, items
      ensures Valid()
      ensures ok <==> key in old(Contents())
      ensures Contents() == old(Contents()) - {key}
    {
      ValidIsSound();
      var pos := GetItemOrNull(key);
      if pos != -1 {
        Remove(h, items[..], pos);
        items[pos] := Erased;
        assert items[..] == old(items[..])[pos := Erased];
        numElm := numElm - 1;
        return true;
      } else {
        return false;
      }
    }

    /** The iterator at its first live slot, or at the capacity if there is none. */
    method Begin() returns (pos: nat)
      requires Valid()
      ensures pos == NextLive(items[..], 0)
    {
      pos := 0;
      while pos < sizeArray && !items[pos].Live?
        invariant pos <= sizeArray && NextLive(items[..], 0) == NextLive(items[..], pos)
      {
        pos := pos + 1;
      }
    }

    /** The iterator at the next live slot; at the end it stays. */
    method Next(pos: nat) returns (next: nat)
      requires Valid() && pos <= sizeArray
      ensures next == if pos == sizeArray then pos else NextLive(items[..], pos + 1)
    {
      if pos == sizeArray {
        return pos;
      }
      next := pos + 1;
      while next < sizeArray && !items[next].Live?
        invariant next <= sizeArray && NextLive(items[..], pos + 1) == NextLive(items[..], next)
      {
        next := next + 1;
      }
    }
  }

  /** A map of n slots in which the keys 0 to n - 1 were inserted one after the other, all with success, loses some of
      them when it grows, if a step divides the new size and all keys hash to the place of that step. */
  method FillAndGrow(m: CloseHashmap<int, int>, n: nat, i: nat)
    requires ValidPrimes(m.h.primes) && Admissible(m.h.primes, n) && i < |m.h.primes|
    requires m.h.primes[i] >= 3 && m.h.primes[i] > i && NextSize(n) % m.h.primes[i] == 0
    requires forall key :: m.h.hash(key) == i
    modifies m
    ensures m.Sound() && m.sizeArray == NextSize(n) && |m.Contents()| < n
  {
    var ok := m.Init(n, true);
    var k := 0;
    while k < n
      invariant k <= n && Filled(m, n, k) && fresh(m.items)
    {
      InsertNext(m, n, k);
      k := k + 1;
    }
    m.ValidIsSound();
    FullLoses(m.h, m.items[..], n, i);
    m.Resize();
  }

  /** The keys below k are in. */
  ghost predicate Filled(m: CloseHashmap<int, int>, n: nat, k: nat)
    reads m, m.items
  {
    && m.Valid() && m.sizeArray == n && m.toResize && |m.Contents()| == k
    && forall key :: key in m.Contents() <==> 0 <= key < k
  }

  method InsertNext(m: CloseHashmap<int, int>, n: nat, k: nat)
    requires Filled(m, n, k) && k < n
    modifies m, m.items
    ensures Filled(m, n, k + 1) && (m.items == old(m.items) || fresh(m.items))
  {
    m.SizeIsDomain();
    var r := m.Insert(k, 0);
    assert r == Done(true);
  }
}
