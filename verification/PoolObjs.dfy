/** The object pool of src/pool_objs/pool_objs.hpp: a stack of objects laid out over blocks of equal size. */
module PoolObjects {

  // ----- Rows of equal length -----

  function Flat<T>(rows: seq<seq<T>>): (s: seq<T>) {
    if rows == [] then [] else Flat(rows[..|rows| - 1]) + rows[|rows| - 1]
  }

  predicate Even<T>(rows: seq<seq<T>>, n: nat) { forall r :: 0 <= r < |rows| ==> |rows[r]| == n }

  lemma FlatNone<T>()
    ensures Flat<T>([]) == []
  {}

  lemma FlatPush<T>(rows: seq<seq<T>>, row: seq<T>)
    ensures Flat(rows + [row]) == Flat(rows) + row
  {
    assert (rows + [row])[..|rows|] == rows;
  }

  function Last<T>(s: seq<T>): T
    requires s != []
  {
    s[|s| - 1]
  }

  function Front<T>(s: seq<T>): seq<T>
    requires s != []
  {
    s[..|s| - 1]
  }

  function Cells(rows: nat, n: nat): nat { rows * n }

  lemma CellsIs(rows: nat, n: nat)
    ensures Cells(rows, n) == rows * n
  {}

  lemma CellsGrow(a: nat, b: nat, n: nat)
    requires a <= b
    ensures Cells(a, n) <= Cells(b, n)
  {}

  lemma {:induction false} FlatSize<T>(rows: seq<seq<T>>, n: nat)
    requires Even(rows, n)
    ensures |Flat(rows)| == Cells(|rows|, n)
  {
    if rows != [] {
      var init := rows[..|rows| - 1];
      FlatSize(init, n);
      assert |rows| * n == |init| * n + n;
    }
  }

  /** The element at column c of row r has index r * n + c. */
  lemma {:induction false} FlatAt<T>(rows: seq<seq<T>>, n: nat, r: nat, c: nat)
    requires Even(rows, n) && r < |rows| && c < n
    ensures Cells(r, n) + c < |Flat(rows)| && Flat(rows)[Cells(r, n) + c] == rows[r][c]
  {
    var init := rows[..|rows| - 1];
    FlatSize(rows, n);
    FlatSize(init, n);
    CellsGrow(r + 1, |rows|, n);
    assert Cells(r, n) + c < Cells(r, n) + n == Cells(r + 1, n);
    if r < |init| {
      FlatAt(init, n, r, c);
    }
  }

  predicate Differ<T(==)>(s: seq<T>, i: nat, j: nat)
    requires i < |s| && j < |s|
  {
    s[i] != s[j]
  }

  predicate NoTwice<T(==)>(s: seq<T>) { forall i, j {:trigger Differ(s, i, j)} :: 0 <= i < j < |s| ==> Differ(s, i, j) }


  lemma NoTwicePush<T>(s: seq<T>, x: T)
    requires NoTwice(s) && x !in s
    ensures NoTwice(s + [x])
  {
    forall i, j | 0 <= i < j <= |s| ensures Differ(s + [x], i, j) {
      if j < |s| { assert Differ(s, i, j); }
    }
  }

  ghost function Members<T>(s: seq<T>): set<T> { set x | x in s }

  /** Nothing is in two places, and nothing is lost. */
  ghost predicate Balanced<T>(pooled: seq<T>, made: set<T>, out: set<T>, dropped: set<T>) {
    && NoTwice(pooled)
    && Members(pooled) !! out && Members(pooled) !! dropped && out !! dropped
    && made == Members(pooled) + out + dropped
  }

  lemma BalancedMore<T>(pooled: seq<T>, more: seq<T>, made: set<T>, out: set<T>, dropped: set<T>)
    requires Balanced(pooled, made, out, dropped) && NoTwice(more) && Members(more) !! made
    ensures Balanced(pooled + more, made + Members(more), out, dropped)
  {
    var all := pooled + more;
    forall i, j | 0 <= i < j < |all| ensures Differ(all, i, j) {
      if i < |pooled| <= j {
        assert pooled[i] in Members(pooled) && more[j - |pooled|] in Members(more);
      } else if |pooled| <= i {
        assert Differ(more, i - |pooled|, j - |pooled|);
      } else {
        assert Differ(pooled, i, j);
      }
    }
    assert Members(all) == Members(pooled) + Members(more);
  }

  lemma BalancedTake<T>(pooled: seq<T>, x: T, made: set<T>, out: set<T>, dropped: set<T>)
    requires Balanced(pooled + [x], made, out, dropped)
    ensures Balanced(pooled, made, out + {x}, dropped) && x !in out
  {
    var all := pooled + [x];
    assert all[|pooled|] == x;
    forall i | 0 <= i < |pooled| ensures pooled[i] != x { assert Differ(all, i, |pooled|); }
    forall i, j | 0 <= i < j < |pooled| ensures Differ(pooled, i, j) { assert Differ(all, i, j); }
    assert Members(all) == Members(pooled) + {x};
  }

  lemma BalancedNew<T>(pooled: seq<T>, x: T, made: set<T>, out: set<T>, dropped: set<T>)
    requires Balanced(pooled, made, out, dropped) && x !in made
    ensures Balanced(pooled, made + {x}, out + {x}, dropped)
  {
    assert x !in Members(pooled);
  }

  lemma BalancedPut<T>(pooled: seq<T>, x: T, made: set<T>, out: set<T>, dropped: set<T>)
    requires Balanced(pooled, made, out, dropped) && x !in pooled && x !in dropped
    ensures Balanced(pooled + [x], made + {x}, out - {x}, dropped)
    ensures Balanced(pooled, made + {x}, out - {x}, dropped + {x})
  {
    NoTwicePush(pooled, x);
    var all := pooled + [x];
    assert Members(all) == Members(pooled) + {x};
  }

  // ----- The pool -----

  class Obj {
    constructor () {}
  }

  /** The block begins with n objects. */
  ghost predicate Holds(block: array<Obj?>, objs: seq<Obj>, n: nat)
    reads block
  {
    |objs| == n <= block.Length && forall c {:trigger block[c]} :: 0 <= c < n ==> block[c] == objs[c]
  }

  /** The rows, one by one. */
  ghost predicate Stacked(rows: seq<array<Obj?>>, full: seq<seq<Obj>>, n: nat)
    reads rows
  {
    |full| <= |rows| && forall r :: 0 <= r < |full| ==> Holds(rows[r], full[r], n)
  }

  /** Different blocks, each of size n. */
  ghost predicate Blocks(rows: seq<array<Obj?>>, n: nat, owned: set<array<Obj?>>) {
    && (forall i :: 0 <= i < |rows| ==> rows[i] in owned && rows[i].Length == n)
    && forall i, j :: 0 <= i < j < |rows| ==> rows[i] != rows[j]
  }

  /** The table points to the blocks, and to nothing else. */
  ghost predicate Attached(table: array<array?<Obj?>>, rows: seq<array<Obj?>>)
    reads table
  {
    |rows| <= table.Length && forall i :: 0 <= i < table.Length ==> table[i] == if i < |rows| then rows[i] else null
  }

  lemma HoldsNone(block: array<Obj?>)
    ensures Holds(block, [], 0)
  {}

  lemma HoldsLast(block: array<Obj?>, objs: seq<Obj>, n: nat)
    requires Holds(block, objs, n) && 0 < n
    ensures block[n - 1] == Last(objs) && Holds(block, Front(objs), n - 1)
  {}

  lemma StackedEven(rows: seq<array<Obj?>>, full: seq<seq<Obj>>, n: nat)
    requires Stacked(rows, full, n)
    ensures Even(full, n)
  {
    assert forall r :: 0 <= r < |full| ==> Holds(rows[r], full[r], n);
  }

  /** A table of NULLs. */
  lemma NothingYet(table: array<array?<Obj?>>, rows: seq<array<Obj?>>, n: nat, owned: set<array<Obj?>>)
    requires forall i :: 0 <= i < table.Length ==> table[i] == null
    ensures rows == [] ==> Attached(table, rows) && Blocks(rows, n, owned) && Stacked(rows, [], n)
  {}

  lemma StackedPush(rows: seq<array<Obj?>>, full: seq<seq<Obj>>, objs: seq<Obj>, n: nat)
    requires Stacked(rows, full, n) && |full| < |rows| && Holds(rows[|full|], objs, n)
    ensures Stacked(rows, full + [objs], n)
  {}

  lemma StackedLast(rows: seq<array<Obj?>>, full: seq<seq<Obj>>, n: nat)
    requires Stacked(rows, full, n) && full != []
    ensures Holds(rows[|full| - 1], Last(full), n) && |Last(full)| == n && Stacked(rows, Front(full), n)
  {}

  class Pool {
    const initNum: nat
    const perBlock: nat
    const toResize: bool
    const newIfNoResize: bool
    const maxBlocks: nat

    var table: array?<array?<Obj?>>
    var row: nat
    var col: nat
    var objsAlloc: nat
    var blocks: nat
    var ready: bool

    /** The stack of pooled objects, bottom first; its full rows and the row being filled. */
    ghost var stack: seq<Obj>
    ghost var full: seq<seq<Obj>>
    ghost var part: seq<Obj>
    /** Every object the pool has created or been given; those it has handed out and not got back; those it was
        given back and did not keep. */
    ghost var made: set<Obj>
    ghost var out: set<Obj>
    ghost var dropped: set<Obj>
    /** The blocks, in their order in the table. */
    ghost var rows: seq<array<Obj?>>
    ghost var owned: set<array<Obj?>>

    /** The block table. */
    ghost predicate Table()
      reads this, table
    {
      && table != null && table.Length == maxBlocks && 0 < perBlock && blocks == |rows|
      && Attached(table, rows) && Blocks(rows, perBlock, owned)
    }

    /** Where the stack lies. */
    ghost predicate Layout()
      reads this, owned
      requires Blocks(rows, perBlock, owned)
    {
      && row <= |rows| && (row == |rows| ==> col == 0) && col < perBlock
      && stack == Flat(full) + part && |full| == row && Stacked(rows, full, perBlock)
      && |part| == col && (row < |rows| ==> Holds(rows[row], part, col))
    }

    lemma TableAt(i: nat)
      requires Table() && i < blocks
      ensures i < maxBlocks && table[i] == rows[i] && rows[i] in owned && rows[i].Length == perBlock
    {}

    ghost predicate Accounts()
      reads this
    {
      Balanced(stack, made, out, dropped)
    }

    /** Init_ has not run, or has failed: there is no table. */
    ghost predicate NotReady()
      reads this
    {
      && table == null && blocks <= maxBlocks && stack == [] && full == [] && part == [] && col == 0
      && ((row == 0 && blocks == 0 && rows == []) || (row == blocks == maxBlocks
            && Cells(maxBlocks, perBlock) < initNum))
    }

    ghost predicate Valid()
      reads this, table, owned
    {
      && 0 < perBlock && Accounts()
      && (if ready then Table() && Layout() else NotReady())
    }

    constructor (initNum: nat, perBlock: nat, toResize: bool, newIfNoResize: bool, maxBlocks: nat)
      requires 0 < perBlock
      ensures Valid() && !ready && stack == [] && made == {}
      ensures this.initNum == initNum && this.perBlock == perBlock && this.maxBlocks == maxBlocks
      ensures this.toResize == toResize && this.newIfNoResize == newIfNoResize && fresh(owned)
    {
      this.initNum, this.perBlock, this.maxBlocks := initNum, perBlock, maxBlocks;
      this.toResize, this.newIfNoResize := toResize, newIfNoResize;
      table := null;
      row, col, objsAlloc, blocks, ready := 0, 0, 0, 0, false;
      stack, full, part, made, out, dropped, rows, owned := [], [], [], {}, {}, {}, [], {};
    }

    /** The block at the current row is filled with new objects, while the new block is attached behind the others. */
    method AllocABlock() returns (ok: bool, ghost objs: seq<Obj>)
      requires blocks <= maxBlocks
      requires blocks < maxBlocks ==> Accounts() && Table() && Layout() && col == 0
      modifies this`blocks, this`rows, this`owned, this`row, this`stack, this`full, this`made, this`objsAlloc, table,
      owned
      ensures ok <==> old(blocks) < maxBlocks
      ensures !ok ==> unchanged(this) && (old(Table() && Layout()) ==> Table() && Layout())
      ensures ok ==> Accounts() && Table() && Layout() && old(owned) <= owned && fresh(owned - old(owned))
      ensures ok ==> row == old(row) + 1 && blocks == old(blocks) + 1 && full == old(full) + [objs]
      ensures ok ==> stack == old(stack) + objs && made == old(made) + Members(objs) && fresh(Members(objs))
      ensures Members(objs) !! old(made)
    {
      objs := [];
      if maxBlocks == blocks { return false, objs; }
      objs := AddRow();
      ok := true;
    }

    /** AllocABlock where there is room. */
    method AddRow() returns (ghost objs: seq<Obj>)
      requires Accounts() && Table() && Layout() && col == 0 && blocks < maxBlocks
      modifies this`blocks, this`rows, this`owned, this`row, this`stack, this`full, this`made, this`objsAlloc, table,
      owned
      ensures Accounts() && Table() && Layout() && old(owned) <= owned && fresh(owned - old(owned))
      ensures row == old(row) + 1 && blocks == old(blocks) + 1 && full == old(full) + [objs]
      ensures stack == old(stack) + objs && made == old(made) + Members(objs) && fresh(Members(objs))
      ensures Members(objs) !! old(made)
    {
      hide Attached, Blocks, Stacked, Holds, Members, NoTwice, Flat, Balanced;
      AttachBlock();
      objs := FillCurrentRow();
      StackedPush(rows, full, objs, perBlock);
      row := row + 1;
      PushRow(objs);
      if row < blocks { HoldsNone(rows[row]); }
    }

    /** A full row of new objects on the stack. */
    ghost method PushRow(objs: seq<Obj>)
      requires Accounts() && stack == Flat(full) + part && part == []
      requires NoTwice(objs) && Members(objs) !! made
      modifies this`stack, this`full, this`made
      ensures Accounts() && stack == Flat(full) + part
      ensures full == old(full) + [objs] && stack == old(stack) + objs && made == old(made) + Members(objs)
    {
      FlatPush(full, objs);
      BalancedMore(stack, objs, made, out, dropped);
      assert stack == Flat(full);
      full, stack := full + [objs], stack + objs;
      made := made + Members(objs);
    }

    method FillCurrentRow() returns (ghost objs: seq<Obj>)
      requires Table() && Layout() && row < blocks && col == 0
      modifies owned, this`objsAlloc
      ensures Table() && Stacked(rows, full, perBlock) && Holds(rows[row], objs, perBlock)
      ensures NoTwice(objs) && fresh(Members(objs)) && Members(objs) !! made
    {
      var target := table[row];
      assert target == rows[row];
      objs := FillRow(target);
    }

    /** New objects for a row. */
    method FillRow(target: array<Obj?>) returns (ghost objs: seq<Obj>)
      requires target.Length == perBlock
      modifies target, this`objsAlloc
      ensures Holds(target, objs, perBlock) && NoTwice(objs) && fresh(Members(objs)) && Members(objs) !! made
    {
      objs := [];
      var i := 0;
      while i < perBlock
        invariant 0 <= i <= perBlock && Holds(target, objs, i)
        invariant forall k :: 0 <= k < i ==> fresh(objs[k])
        invariant NoTwice(objs)
      {
        var obj := new Obj();
        target[i] := obj;
        NoTwicePush(objs, obj);
        objs := objs + [obj];
        objsAlloc := objsAlloc + 1;
        i := i + 1;
      }
    }

    method Init() returns (ok: bool)
      requires Valid() && !ready
      modifies this, table, owned
      ensures Valid() && ready == ok && fresh(owned - old(owned)) && (ok ==> fresh(table))
      ensures ok <==> CanBeSetUp()
      ensures ok ==> |stack| == Cells(blocks, perBlock) && FirstBlocks(blocks)
      ensures out == old(out) && (ok ==> dropped == old(dropped) && col == 0 && row == blocks)
      ensures if ok then fresh(Members(stack)) else stack == [] && fresh(dropped - old(dropped))
    {
      hide Attached, Blocks, Stacked, Members, Cells, Balanced, Flat;
      FlatNone<Obj>();
      if maxBlocks == 0 { return false; }
      table := new array?<Obj?>[maxBlocks](_ => null);
      NothingYet(table, rows, perBlock, owned);
      CellsGrow(blocks, maxBlocks, perBlock);
      ok := AllocBlocks();
      CellsGrow(blocks, maxBlocks, perBlock);
      if !ok {
        table := null;
        Unpool();
        return;
      }
      ready := true;
      StackedEven(rows, full, perBlock);
      FlatSize(full, perBlock);
    }

    /** One block less would not do. */
    ghost predicate Least()
      reads this
    {
      blocks > 0 ==> Cells(blocks - 1, perBlock) < initNum
    }

    /** The loop of Init_. */
    method AllocBlocks() returns (ok: bool)
      requires row == blocks <= maxBlocks && col == 0 && Accounts() && table != null && !ready && stack == []
      requires blocks < maxBlocks ==> Table() && Layout() && blocks == 0
      requires blocks == maxBlocks ==> Cells(blocks, perBlock) < initNum
      modifies this, table, owned
      ensures table == old(table) && fresh(owned - old(owned)) && out == old(out) && dropped == old(dropped)
      ensures row == blocks <= maxBlocks && col == 0 && Accounts() && !ready && fresh(Members(stack))
      ensures if ok then Table() && Layout() && initNum <= Cells(blocks, perBlock) && Least()
              else blocks == maxBlocks && Cells(blocks, perBlock) < initNum
    {
      while Cells(blocks, perBlock) < initNum
        invariant row == blocks <= maxBlocks && col == 0 && Accounts() && !ready && fresh(Members(stack))
        invariant table == old(table) && fresh(owned - old(owned)) && out == old(out) && dropped == old(dropped)
        invariant (Table() && Layout() && Least()) || (blocks == maxBlocks && Cells(blocks, perBlock) < initNum)
        decreases maxBlocks - blocks
      {
        ghost var was := stack;
        var ret, objs := AllocABlock();
        if !ret { return false; }
        assert Members(stack) == Members(was) + Members(objs);
      }
      return true;
    }

    /** The objects of a pool that could not be set up are lost. */
    ghost method Unpool()
      requires Accounts()
      modifies this`stack, this`full, this`part, this`dropped
      ensures stack == [] && full == [] && part == [] && Accounts() && dropped == old(dropped) + Members(old(stack))
    {
      dropped := dropped + Members(stack);
      stack, full, part := [], [], [];
    }

    /** The last object leaves the stack; if the row being filled is empty, the last full row takes its place. */
    ghost method Pop(x: Obj)
      requires Accounts() && stack == Flat(full) + part
      requires if part != [] then Last(part) == x
               else full != [] && Last(full) != [] && Last(Last(full)) == x
      modifies this`stack, this`full, this`part
      ensures old(stack) == stack + [x] && stack == Flat(full) + part && x !in out
      ensures Balanced(stack, made, out + {x}, dropped)
      ensures if old(part) != [] then full == old(full) && part == Front(old(part))
              else full == Front(old(full)) && part == Front(Last(old(full)))
    {
      if part == [] {
        assert part == [] && full == Front(full) + [Last(full)];
        FlatPush(Front(full), Last(full));
        full, part := Front(full), Last(full);
      }
      assert part == Front(part) + [x];
      part := Front(part);
      assert stack == Flat(full) + part + [x];
      stack := Flat(full) + part;
      BalancedTake(stack, x, made, out, dropped);
    }

    /** An object that leaves the stack is handed out. */
    ghost method HandOut(x: Obj)
      requires ready && Table() && Layout() && Balanced(stack, made, out + {x}, dropped)
      modifies this`out
      ensures Valid() && out == old(out) + {x}
    {
      out := out + {x};
    }

    /** A row of new objects for an empty pool, by AllocABlock where there is room; its last object is handed out, and
        row 0 is the row being filled. */
    method TakeFromNewRow() returns (ret: Obj)
      requires Valid() && ready && row == 0 && col == 0 && blocks < maxBlocks
      modifies this, table, owned
      ensures Valid() && ready && table == old(table) && fresh(owned - old(owned))
      ensures out == old(out) + {ret} && ret !in old(out) && dropped == old(dropped) && blocks == old(blocks) + 1
      ensures row == 0 && col == perBlock - 1 && |stack| == perBlock - 1
      ensures made == old(made) + Members(stack + [ret]) && Members(stack + [ret]) !! old(made)
    {
      hide Attached, Blocks, Stacked, Holds, Balanced, NoTwice, Members, Flat;
      FlatNone<Obj>();
      assert full == [] && part == [] && stack == [];
      ghost var objs := AddRow();
      assert stack == objs && row == 1;
      ret := TakeTop();
    }

    /** An object of its own. */
    method TakeSingle() returns (ret: Obj)
      requires Valid() && ready
      modifies this`made, this`out
      ensures Valid() && fresh(ret) && made == old(made) + {ret} && out == old(out) + {ret}
    {
      ret := new Obj();
      BalancedNew(stack, ret, made, out, dropped);
      made := made + {ret};
      HandOut(ret);
    }

    lemma EmptyStack()
      requires Valid() && ready && row == 0 && col == 0
      ensures stack == []
    {}

    /** Get, once the pool is set up: the last object of the stack; a new row of objects if there is none; a single
        new object if there can be no more rows. */
    method Take() returns (ret: Obj?)
      requires Valid() && ready
      modifies this, table, owned
      ensures Valid() && ready && table == old(table) && fresh(owned - old(owned)) && dropped == old(dropped)
      ensures ret != null ==> out == old(out) + {ret} && ret !in old(out)
      ensures var was, n := old(stack), |old(stack)|;
              if n > 0 then
                ret == was[n - 1] && stack == was[..n - 1] && made == old(made)
              else if toResize && old(blocks) < maxBlocks then
                && ret != null && |stack| == perBlock - 1 && blocks == old(blocks) + 1
                && made == old(made) + Members(stack + [ret]) && Members(stack + [ret]) !! old(made)
              else if newIfNoResize then
                ret != null && fresh(ret) && stack == [] && made == old(made) + {ret}
              else
                ret == null && stack == [] && made == old(made) && out == old(out) && blocks == old(blocks)
    {
      hide Attached, Blocks, Stacked, Holds;
      if col == 0 && row == 0 { EmptyStack(); }
      hide Table, Layout;
      if col != 0 || row != 0 {
        ret := TakeTop();
      } else if toResize && blocks < maxBlocks {
        ret := TakeFromNewRow();
      } else if newIfNoResize {
        ret := TakeSingle();
      } else {
        ret := null;
      }
    }

    /** The last object of the stack. */
    method TakeTop() returns (ret: Obj)
      requires Valid() && ready && (col != 0 || row != 0)
      modifies this`row, this`col, this`stack, this`full, this`part, this`out
      ensures Valid() && ready && (old(col) == 0 ==> row == old(row) - 1 && col == perBlock - 1)
      ensures old(stack) == stack + [ret] && out == old(out) + {ret} && ret !in old(out)
    {
      hide Attached, Blocks, Stacked, Holds, Flat, Members, NoTwice;
      assert Table();
      if col != 0 {
        col := col - 1;
        TableAt(row);
        HoldsLast(rows[row], part, col + 1);
      } else {
        col := perBlock - 1;
        row := row - 1;
        TableAt(row);
        StackedLast(rows, full, perBlock);
        HoldsLast(rows[row], Last(full), perBlock);
      }
      ret := table[row][col];
      Pop(ret);
      HandOut(ret);
    }

    /** Get; `first` is the stack of the pool once it is set up, and `n` the number of its blocks then. */
    method Get() returns (ret: Obj?, ghost first: seq<Obj>, ghost n: nat)
      requires Valid()
      modifies this, table, owned
      ensures Valid() && fresh(owned - old(owned)) && (table != old(table) ==> fresh(table))
      ensures ready <==> old(ready) || CanBeSetUp()
      ensures old(ready) ==> first == old(stack) && n == old(blocks) && dropped == old(dropped)
      ensures ready && !old(ready) ==> fresh(Members(first)) && |first| == Cells(n, perBlock) && FirstBlocks(n)
      ensures !ready ==> ret == null && stack == []
      ensures ready ==>
                if first != [] then
                  first == stack + [ret] && (old(ready) ==> made == old(made))
                else if toResize && n < maxBlocks then
                  && ret != null && |stack| == perBlock - 1 && blocks == n + 1 && Members(stack + [ret]) !! old(made)
                else if newIfNoResize then
                  ret != null && fresh(ret) && stack == []
                else
                  ret == null && stack == []
      ensures if ret != null then out == old(out) + {ret} && ret !in old(out) else out == old(out)
    {
      var ok := SetUp();
      first, n := stack, blocks;
      if !ok { return null, first, n; }
      ret := Take();
    }

    function NumObjsLeft(): nat
      reads this
    {
      Cells(row, blocks) + col
    }

    /** Free, once the pool is set up. */
    method Put(obj: Obj)
      requires Valid() && ready && obj !in stack && obj !in dropped
      modifies this, table, owned
      ensures Valid() && ready && table == old(table) && fresh(owned - old(owned))
      ensures made == old(made) + {obj} && out == old(out) - {obj}
      ensures if (toResize || old(row * blocks + col) != initNum)
                && (old(row) < old(blocks) || old(blocks) < maxBlocks) then
                stack == old(stack) + [obj] && dropped == old(dropped)
              else
                stack == old(stack) && dropped == old(dropped) + {obj}
    {
      CellsIs(row, blocks);
      RoomLeft();
      hide Attached, Blocks, Stacked, Holds, Balanced, Flat, Cells, Members;
      BalancedPut(stack, obj, made, out, dropped);
      if (!toResize && NumObjsLeft() == initNum) || (blocks == row && maxBlocks == blocks) {
        TakeBack(obj, dropped + {obj});
      } else {
        Keep(obj);
        TakeBack(obj, dropped);
      }
    }

    lemma RoomLeft()
      requires Valid() && ready
      ensures row <= blocks <= maxBlocks
    {}

    /** The accounts of an object that has come back. */
    ghost method TakeBack(obj: Obj, lost: set<Obj>)
      requires ready && Table() && Layout() && Balanced(stack, made + {obj}, out - {obj}, lost)
      modifies this`made, this`out, this`dropped
      ensures Valid() && made == old(made) + {obj} && out == old(out) - {obj} && dropped == lost
    {
      made, out, dropped := made + {obj}, out - {obj}, lost;
    }

    /** The rest of Free, where there is a block for the object or room for a further block. */
    method Keep(obj: Obj)
      requires Table() && Layout() && (row < blocks || blocks < maxBlocks)
      modifies this`blocks, this`rows, this`owned, table, this`row, this`col, this`stack, this`full, this`part, owned
      ensures Table() && Layout() && stack == old(stack) + [obj] && fresh(owned - old(owned))
    {
      if blocks == row { AttachBlock(); }
      Push(obj);
    }

    /** A further block behind the others. */
    method AttachBlock()
      requires Table() && Layout() && blocks < maxBlocks
      modifies this`blocks, this`rows, this`owned, table
      ensures Table() && Layout() && blocks == old(blocks) + 1 && old(owned) <= owned && fresh(owned - old(owned))
    {
      var block := new Obj?[perBlock];
      table[blocks] := block;
      rows, owned := rows + [block], owned + {block};
      blocks := blocks + 1;
    }

    method Push(obj: Obj)
      requires Table() && Layout() && row < blocks
      modifies this`row, this`col, this`stack, this`full, this`part, owned
      ensures Table() && Layout() && stack == old(stack) + [obj]
    {
      hide Attached, Blocks, Stacked, Holds, Flat, Balanced, Members, NoTwice;
      Store(obj);
      PushOne(obj);
      if perBlock - 1 != col {
        col := col + 1;
      } else {
        StackedPush(rows, full, part, perBlock);
        row := row + 1;
        col := 0;
        CloseRow();
        if row < blocks { HoldsNone(rows[row]); }
      }
    }

    method Store(obj: Obj)
      requires Table() && Layout() && row < blocks
      modifies owned
      ensures Table() && Stacked(rows, full, perBlock) && Holds(rows[row], part + [obj], col + 1)
    {
      var block := table[row];
      assert block == rows[row];
      block[col] := obj;
    }

    ghost method PushOne(obj: Obj)
      requires stack == Flat(full) + part
      modifies this`stack, this`part
      ensures stack == Flat(full) + part && stack == old(stack) + [obj] && part == old(part) + [obj]
    {
      stack, part := stack + [obj], part + [obj];
    }

    /** The row being filled is full. */
    ghost method CloseRow()
      requires stack == Flat(full) + part
      modifies this`full, this`part
      ensures stack == Flat(full) + part && full == old(full) + [old(part)] && part == []
    {
      FlatPush(full, part);
      full, part := full + [part], [];
    }

    /** Free; `first` is the stack of the pool once it is set up, and `n` the number of its blocks then. */
    method Free(obj: Obj?) returns (ghost first: seq<Obj>, ghost n: nat)
      requires Valid() && (obj != null ==> obj !in stack && obj !in dropped)
      modifies this, table, owned
      ensures Valid() && fresh(owned - old(owned)) && (table != old(table) ==> fresh(table))
      ensures ready <==> old(ready) || CanBeSetUp()
      ensures out == if obj != null then old(out) - {obj} else old(out)
      ensures old(ready) ==> first == old(stack) && made == if obj != null then old(made) + {obj} else old(made)
      ensures ready && !old(ready) ==> fresh(Members(first)) && |first| == Cells(n, perBlock) && FirstBlocks(n)
      ensures ready && obj == null ==> stack == first && dropped == old(dropped)
      ensures ready && obj != null ==>
                if (if old(ready) then
                      && (toResize || old(row * blocks + col) != initNum)
                      && (old(row) < old(blocks) || old(blocks) < maxBlocks)
                    else (toResize || n * n != initNum) && n < maxBlocks) then
                  stack == first + [obj] && dropped == old(dropped)
                else
                  stack == first && dropped == old(dropped) + {obj}
      ensures !ready ==> stack == [] && (obj != null ==> obj in dropped)
    {
      hide Cells, Table, Layout;
      var ok := SetUp();
      first, n := stack, blocks;
      if obj == null { return; }
      if ok {
        Put(obj);
      } else {
        BalancedPut(stack, obj, made, out, dropped);
        made, out, dropped := made + {obj}, out - {obj}, dropped + {obj};
      }
    }

    /** Sets the pool up if it is not. */
    method SetUp() returns (ok: bool)
      requires Valid()
      modifies this, table, owned
      ensures Valid() && fresh(owned - old(owned)) && (table != old(table) ==> fresh(table))
      ensures (ok <==> ready) && (ready <==> old(ready) || CanBeSetUp()) && out == old(out)
      ensures old(ready) ==> unchanged(this)
      ensures ready && !old(ready) ==>
                && fresh(Members(stack)) && |stack| == Cells(blocks, perBlock) && FirstBlocks(blocks)
                && row == blocks && col == 0 && dropped == old(dropped)
      ensures !ready ==> stack == [] && fresh(dropped - old(dropped))
    {
      ok := ready;
      if !ready { ok := Init(); }
    }

    /** A block is allowed, and the initial objects fit in the blocks allowed. */
    predicate CanBeSetUp() { 0 < maxBlocks && initNum <= Cells(maxBlocks, perBlock) }

    /** What the two predicates come to. */
    lemma SetUpMeans(n: nat)
      ensures CanBeSetUp() <==> 0 < maxBlocks && initNum <= maxBlocks * perBlock
      ensures FirstBlocks(n) <==> initNum <= n * perBlock && forall m: nat :: m < n ==> m * perBlock < initNum
    {
      if n > 0 {
        forall m: nat | m < n ensures m * perBlock <= (n - 1) * perBlock { CellsGrow(m, n - 1, perBlock); }
      }
    }

    /** The least number of blocks that hold the initial objects. */
    predicate FirstBlocks(n: nat) {
      initNum <= Cells(n, perBlock) && (n > 0 ==> Cells(n - 1, perBlock) < initNum)
    }

    /** The destructor of the objects of a row. */
    method DeleteRow(block: array<Obj?>, n: nat, ghost objs: seq<Obj>) returns (deleted: seq<Obj?>)
      requires Holds(block, objs, n)
      modifies block
      ensures deleted == objs
    {
      deleted := [];
      var j := 0;
      while j < n
        invariant 0 <= j <= n && deleted == objs[..j]
        invariant forall c :: j <= c < n ==> block[c] == objs[c]
      {
        deleted := deleted + [block[j]];
        block[j] := null;
        j := j + 1;
      }
    }

    /** What is left of the stack once the first i rows are gone. */
    ghost predicate RowsFrom(i: nat)
      reads this, owned
    {
      && Blocks(rows, perBlock, owned) && row <= |rows| && |full| == row
      && (forall r :: i <= r < row ==> Holds(rows[r], full[r], perBlock))
      && (row < |rows| ==> Holds(rows[row], part, col))
    }

    /** A full row and its block. */
    method DestroyRow(i: nat) returns (deleted: seq<Obj?>)
      requires i < row && RowsFrom(i) && table != null && i < table.Length && table[i] == rows[i]
      modifies table, owned
      ensures deleted == full[i] && table[..] == old(table[..])[i := null] && RowsFrom(i + 1)
    {
      deleted := DeleteRow(table[i], perBlock, full[i]);
      table[i] := null;
    }

    /** The full rows and their blocks. */
    method DestroyRows() returns (objs: seq<Obj?>, arrays: seq<array?<Obj?>>)
      requires Table() && Layout()
      modifies table, owned
      ensures objs == Flat(full) && arrays == old(table[..row])
      ensures forall k :: 0 <= k < maxBlocks ==> table[k] == if k < row then null else old(table[k])
      ensures row < blocks ==> Holds(table[row], part, col)
    {
      objs, arrays := [], [];
      ghost var was := table[..];
      var i := 0;
      while i < row
        invariant 0 <= i <= row && RowsFrom(i)
        invariant objs == Flat(full[..i]) && arrays == was[..i]
        invariant forall k :: 0 <= k < maxBlocks ==> table[k] == if k < i then null else was[k]
      {
        hide RowsFrom, Blocks, Holds, Stacked, Attached, Flat;
        assert |full| == row;
        FlatPush(full[..i], full[i]);
        assert full[..i + 1] == full[..i] + [full[i]];
        arrays := arrays + [table[i]];
        var deleted := DestroyRow(i);
        objs := objs + deleted;
        i := i + 1;
      }
      assert full[..row] == full;
    }

    /** The blocks from a row on whose block is gone. */
    method DestroyBlocks(from: nat) returns (arrays: seq<array?<Obj?>>)
      requires table != null && table.Length == maxBlocks && from < blocks <= maxBlocks
      requires table[from] == null && forall k :: from < k < blocks ==> table[k] != null
      modifies table
      ensures arrays == old(table[from + 1..blocks])
    {
      arrays := [];
      ghost var was := table[..];
      var i := from;
      while i < blocks
        invariant from <= i <= blocks
        invariant arrays == if i == from then [] else was[from + 1..i]
        invariant forall k :: from <= k < blocks ==> table[k] == if k < i then null else was[k]
      {
        if table[i] != null {
          arrays := arrays + [table[i]];
          table[i] := null;
        }
        i := i + 1;
      }
    }

    /** The destructor: objs and arrays are what it deletes, in the order in which it does. */
    method Destroy() returns (objs: seq<Obj?>, arrays: seq<array?<Obj?>>)
      requires Valid()
      modifies this, table, owned
      ensures objs == old(stack) && NoTwice(old(stack))
      ensures arrays == (if old(ready) then old(table[..blocks]) else []) && NoTwice(arrays)
      ensures table == null
    {
      if table == null { return [], []; }
      ghost var was := table[..];
      objs, arrays := DestroyRows();
      if row != blocks {
        var deleted := DeleteRow(table[row], col, part);
        objs := objs + deleted;
        arrays := arrays + [table[row]];
        table[row] := null;
        var rest := DestroyBlocks(row);
        arrays := arrays + rest;
      }
      assert arrays == was[..blocks];
      table := null;
    }

    /** Row r, column c holds the object with index r * perBlock + c of the stack. */
    lemma StackLies(r: nat, c: nat)
      requires Valid() && ready && r <= row && c < perBlock && (r == row ==> c < col)
      ensures |stack| == Cells(row, perBlock) + col
      ensures Cells(r, perBlock) + c < |stack| && table[r][c] == stack[Cells(r, perBlock) + c]
    {
      FlatSize(full, perBlock);
      if r < row {
        assert Holds(table[r], full[r], perBlock);
        FlatAt(full, perBlock, r, c);
      }
    }
  }
}
