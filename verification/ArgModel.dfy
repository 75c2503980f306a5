/** Log arguments that share heap blocks: long strings and arrays of arguments, with reference counts. */
module ArgModel {
  import opened Basics

  /** An argument owns nothing, or holds a block. An argument moved from is plain again. */
  datatype Cell = Plain(x: int) | Ref(block: nat)

  /** A string has no items. */
  datatype Block = Block(count: nat, items: seq<Cell>)

  /** Blocks in order of allocation; a freed one leaves an empty slot that is never used again. */
  type Heap = seq<Option<Block>>

  /** Arguments that are not inside an array; a destroyed one leaves an empty slot. */
  type Vars = seq<Option<Cell>>

  datatype Args = Args(heap: Heap, vars: Vars)

  datatype Place = Var(v: nat) | Item(block: nat, i: nat)

  datatype Action =
    | MakePlain(x: int) | MakeString | MakeArray(from: seq<Place>)
    | Copy(source: Place) | Move(v: nat) | Assign(v: nat, source: Place) | Destroy(v: nat)

  predicate Live(h: Heap, b: nat) { b < |h| && h[b].Some? }

  predicate Present(s: Args, p: Place) {
    match p
    case Var(v) => v < |s.vars| && s.vars[v].Some?
    case Item(b, i) => Live(s.heap, b) && i < |s.heap[b].value.items|
  }

  function At(s: Args, p: Place): Cell
    requires Present(s, p)
  {
    match p
    case Var(v) => s.vars[v].value
    case Item(b, i) => s.heap[b].value.items[i]
  }

  // ---------------------------------------------------------------- acquiring and releasing

  /** Releasing or acquiring needs the block to be there. */
  predicate Held(h: Heap, c: Cell) { c.Ref? ==> Live(h, c.block) && h[c.block].value.count > 0 }

  function Acquire(h: Heap, c: Cell): (r: Heap)
    requires Held(h, c)
    ensures |r| == |h| && forall b: nat :: Live(r, b) <==> Live(h, b)
  {
    if c.Plain? then h
    else
      var k := h[c.block].value;
      h[c.block := Some(k.(count := k.count + 1))]
  }

  function LiveCount(h: Heap): nat {
    if h == [] then 0 else LiveCount(h[..|h| - 1]) + if h[|h| - 1].Some? then 1 else 0
  }

  lemma {:induction false} FreeingShrinks(h: Heap, b: nat)
    requires Live(h, b)
    ensures LiveCount(h[b := None]) < LiveCount(h)
  {
    var g := h[b := None];
    if b < |h| - 1 {
      FreeingShrinks(h[..|h| - 1], b);
      assert g[..|g| - 1] == h[..|h| - 1][b := None];
    } else {
      assert g[..|g| - 1] == h[..|h| - 1];
    }
  }

  lemma {:induction false} KeepingKeeps(h: Heap, b: nat, k: Block)
    requires Live(h, b)
    ensures LiveCount(h[b := Some(k)]) == LiveCount(h)
  {
    var g := h[b := Some(k)];
    if b < |h| - 1 {
      KeepingKeeps(h[..|h| - 1], b, k);
      assert g[..|g| - 1] == h[..|h| - 1][b := Some(k)];
    } else {
      assert g[..|g| - 1] == h[..|h| - 1];
    }
  }

  /** Releasing some arguments, the last one first. A block whose last holder goes is freed, which releases its
      items before anything else. A cell whose block is gone is skipped here; `Clean` says it never happens. */
  function Release(h: Heap, cells: seq<Cell>): (r: Heap)
    ensures |r| == |h|
    decreases LiveCount(h), |cells|
  {
    if cells == [] then h
    else
      var c, rest := cells[|cells| - 1], cells[..|cells| - 1];
      if c.Plain? || !Held(h, c) then Release(h, rest)
      else
        var k := h[c.block].value;
        if k.count > 1 then
          KeepingKeeps(h, c.block, k.(count := k.count - 1));
          Release(h[c.block := Some(k.(count := k.count - 1))], rest)
        else
          FreeingShrinks(h, c.block);
          Release(h[c.block := None], rest + k.items)
  }

  /** No freed block is touched on the way. */
  predicate Clean(h: Heap, cells: seq<Cell>)
    decreases LiveCount(h), |cells|
  {
    cells == [] ||
    var c, rest := cells[|cells| - 1], cells[..|cells| - 1];
    if c.Plain? then Clean(h, rest)
    else
      Held(h, c) &&
      var k := h[c.block].value;
      if k.count > 1 then
        KeepingKeeps(h, c.block, k.(count := k.count - 1));
        Clean(h[c.block := Some(k.(count := k.count - 1))], rest)
      else
        FreeingShrinks(h, c.block);
        Clean(h[c.block := None], rest + k.items)
  }

  // ---------------------------------------------------------------- counting holders

  function InCells(cells: seq<Cell>, b: nat): nat {
    if cells == [] then 0 else InCells(cells[..|cells| - 1], b) + if cells[|cells| - 1] == Ref(b) then 1 else 0
  }

  function InSlot(slot: Option<Block>, b: nat): nat { if slot.Some? then InCells(slot.value.items, b) else 0 }

  function InHeap(h: Heap, b: nat): nat {
    if h == [] then 0 else InHeap(h[..|h| - 1], b) + InSlot(h[|h| - 1], b)
  }

  function InVar(v: Option<Cell>, b: nat): nat { if v == Some(Ref(b)) then 1 else 0 }

  function InVars(vars: Vars, b: nat): nat {
    if vars == [] then 0 else InVars(vars[..|vars| - 1], b) + InVar(vars[|vars| - 1], b)
  }

  /** Holders of a block: variables, items of arrays, and arguments about to be released. */
  function Holders(h: Heap, vars: Vars, pending: seq<Cell>, b: nat): nat {
    InVars(vars, b) + InHeap(h, b) + InCells(pending, b)
  }

  lemma {:induction false} InCellsJoin(x: seq<Cell>, y: seq<Cell>, b: nat)
    ensures InCells(x + y, b) == InCells(x, b) + InCells(y, b)
  {
    if y == [] {
      assert x + y == x;
    } else {
      assert (x + y)[..|x + y| - 1] == x + y[..|y| - 1];
      InCellsJoin(x, y[..|y| - 1], b);
    }
  }

  lemma {:induction false} InHeapUpdate(h: Heap, k: nat, slot: Option<Block>, b: nat)
    requires k < |h|
    ensures InHeap(h[k := slot], b) + InSlot(h[k], b) == InHeap(h, b) + InSlot(slot, b)
  {
    var g := h[k := slot];
    if k < |h| - 1 {
      InHeapUpdate(h[..|h| - 1], k, slot, b);
      assert g[..|g| - 1] == h[..|h| - 1][k := slot];
    } else {
      assert g[..|g| - 1] == h[..|h| - 1];
    }
  }

  lemma {:induction false} InVarsUpdate(vars: Vars, k: nat, v: Option<Cell>, b: nat)
    requires k < |vars|
    ensures InVars(vars[k := v], b) + InVar(vars[k], b) == InVars(vars, b) + InVar(v, b)
  {
    var g := vars[k := v];
    if k < |vars| - 1 {
      InVarsUpdate(vars[..|vars| - 1], k, v, b);
      assert g[..|g| - 1] == vars[..|vars| - 1][k := v];
    } else {
      assert g[..|g| - 1] == vars[..|vars| - 1];
    }
  }

  function CountOf(h: Heap, b: nat): nat { if Live(h, b) then h[b].value.count else 0 }

  /** Every count is the number of holders, so nothing refers to a freed block; and a block nobody holds is freed. */
  ghost predicate Sound(h: Heap, vars: Vars, pending: seq<Cell>) {
    forall b: nat :: CountOf(h, b) == Holders(h, vars, pending, b) && (Live(h, b) ==> CountOf(h, b) > 0)
  }

  lemma LastCell(cells: seq<Cell>, b: nat)
    requires cells != []
    ensures InCells(cells, b) == InCells(cells[..|cells| - 1], b) + if cells[|cells| - 1] == Ref(b) then 1 else 0
  {
  }

  lemma LowerKeeps(h: Heap, vars: Vars, cells: seq<Cell>)
    requires Sound(h, vars, cells) && cells != [] && cells[|cells| - 1].Ref?
    ensures Held(h, cells[|cells| - 1])
    ensures var c, rest := cells[|cells| - 1], cells[..|cells| - 1];
            var k := h[c.block].value;
            if k.count > 1 then Sound(h[c.block := Some(k.(count := k.count - 1))], vars, rest)
            else Sound(h[c.block := None], vars, rest + k.items)
  {
    hide InVars; hide InHeap; hide InCells;
    var c, rest := cells[|cells| - 1], cells[..|cells| - 1];
    LastCell(cells, c.block);
    assert CountOf(h, c.block) == Holders(h, vars, cells, c.block);
    var k := h[c.block].value;
    var slot := if k.count > 1 then Some(k.(count := k.count - 1)) else None;
    var g := h[c.block := slot];
    forall b: nat
      ensures CountOf(g, b) == Holders(g, vars, if k.count > 1 then rest else rest + k.items, b)
      ensures Live(g, b) ==> CountOf(g, b) > 0
    {
      assert CountOf(h, b) == Holders(h, vars, cells, b);
      LastCell(cells, b);
      InHeapUpdate(h, c.block, slot, b);
      InCellsJoin(rest, k.items, b);
    }
  }

  /** Freeing keeps the items of what stays, and revives nothing. */
  ghost predicate Within(g: Heap, h: Heap) {
    |g| == |h| && forall b: nat :: Live(g, b) ==> Live(h, b) && g[b].value.items == h[b].value.items
  }

  /** Releasing touches no freed block and leaves every count exact. */
  lemma {:induction false} ReleaseKeeps(h: Heap, vars: Vars, cells: seq<Cell>)
    requires Sound(h, vars, cells)
    ensures Clean(h, cells) && Sound(Release(h, cells), vars, []) && Within(Release(h, cells), h)
    decreases LiveCount(h), |cells|
  {
    hide Sound; hide InCells;
    if cells != [] {
      var c, rest := cells[|cells| - 1], cells[..|cells| - 1];
      if c.Plain? {
        DropPlain(h, vars, cells);
        ReleaseKeeps(h, vars, rest);
      } else {
        LowerKeeps(h, vars, cells);
        var k := h[c.block].value;
        if k.count > 1 {
          KeepingKeeps(h, c.block, k.(count := k.count - 1));
          ReleaseKeeps(h[c.block := Some(k.(count := k.count - 1))], vars, rest);
        } else {
          FreeingShrinks(h, c.block);
          ReleaseKeeps(h[c.block := None], vars, rest + k.items);
        }
      }
    }
  }

  lemma DropPlain(h: Heap, vars: Vars, cells: seq<Cell>)
    requires Sound(h, vars, cells) && cells != [] && cells[|cells| - 1].Plain?
    ensures Sound(h, vars, cells[..|cells| - 1])
  {
    hide InVars; hide InHeap; hide InCells;
    forall b: nat ensures InCells(cells, b) == InCells(cells[..|cells| - 1], b) {
      LastCell(cells, b);
    }
  }

  // ---------------------------------------------------------------- the operations

  /** Items refer to blocks allocated before their array. */
  ghost predicate Ordered(h: Heap) {
    forall b: nat, i :: Live(h, b) && 0 <= i < |h[b].value.items| && h[b].value.items[i].Ref? ==>
      h[b].value.items[i].block < b
  }

  ghost predicate Ok(s: Args) { Sound(s.heap, s.vars, []) && Ordered(s.heap) }

  lemma {:induction false} VarHolds(vars: Vars, v: nat, b: nat)
    requires v < |vars| && vars[v] == Some(Ref(b))
    ensures InVars(vars, b) > 0
  {
    if v < |vars| - 1 { VarHolds(vars[..|vars| - 1], v, b); }
  }

  lemma {:induction false} ItemHolds(cells: seq<Cell>, i: nat, b: nat)
    requires i < |cells| && cells[i] == Ref(b)
    ensures InCells(cells, b) > 0
  {
    if i < |cells| - 1 { ItemHolds(cells[..|cells| - 1], i, b); }
  }

  lemma {:induction false} SlotHolds(h: Heap, k: nat, b: nat)
    requires k < |h| && InSlot(h[k], b) > 0
    ensures InHeap(h, b) > 0
  {
    if k < |h| - 1 { SlotHolds(h[..|h| - 1], k, b); }
  }

  /** Whatever is held by an argument that exists is there. */
  lemma PresentIsHeld(s: Args, pending: seq<Cell>, p: Place)
    requires Sound(s.heap, s.vars, pending) && Present(s, p)
    ensures Held(s.heap, At(s, p))
  {
    hide InVars; hide InHeap; hide InCells;
    var c := At(s, p);
    if c.Ref? {
      if p.Var? {
        VarHolds(s.vars, p.v, c.block);
      } else {
        ItemHolds(s.heap[p.block].value.items, p.i, c.block);
        SlotHolds(s.heap, p.block, c.block);
      }
      assert CountOf(s.heap, c.block) == Holders(s.heap, s.vars, pending, c.block);
    }
  }

  function Read(s: Args, from: seq<Place>): (cells: seq<Cell>)
    requires forall i :: 0 <= i < |from| ==> Present(s, from[i])
    ensures |cells| == |from| && forall i :: 0 <= i < |from| ==> cells[i] == At(s, from[i])
  {
    if from == [] then [] else Read(s, from[..|from| - 1]) + [At(s, from[|from| - 1])]
  }

  predicate AllHeld(h: Heap, cells: seq<Cell>) { forall i :: 0 <= i < |cells| ==> Held(h, cells[i]) }

  lemma AcquireHolds(h: Heap, c: Cell, cells: seq<Cell>)
    requires Held(h, c) && AllHeld(h, cells)
    ensures AllHeld(Acquire(h, c), cells)
  {
  }

  /** The items of a new array are copied one after the other. */
  function AcquireAll(h: Heap, cells: seq<Cell>): (r: Heap)
    requires AllHeld(h, cells)
    ensures |r| == |h|
    decreases |cells|
  {
    if cells == [] then h
    else
      AcquireHolds(h, cells[0], cells[1..]);
      AcquireAll(Acquire(h, cells[0]), cells[1..])
  }

  /** What the program may do. The assignment operator releases first and then reads the source, so the source must
      survive the release. */
  ghost predicate Possible(s: Args, a: Action) {
    match a
    case MakePlain(_) => true
    case MakeString => true
    case MakeArray(from) => forall i :: 0 <= i < |from| ==> Present(s, from[i])
    case Copy(source) => Present(s, source)
    case Move(v) => Present(s, Var(v))
    case Assign(v, source) => Present(s, Var(v)) && Present(s, source) && SourceSurvives(s, v, source)
    case Destroy(v) => Present(s, Var(v))
  }

  ghost predicate SourceSurvives(s: Args, v: nat, source: Place)
    requires Present(s, Var(v))
  {
    source == Var(v) || Present(Args(Release(s.heap, [s.vars[v].value]), s.vars), source)
  }

  lemma ReadHeld(s: Args, from: seq<Place>)
    requires Ok(s) && forall i :: 0 <= i < |from| ==> Present(s, from[i])
    ensures AllHeld(s.heap, Read(s, from))
  {
    hide Sound;
    forall i | 0 <= i < |from| ensures Held(s.heap, Read(s, from)[i]) {
      PresentIsHeld(s, [], from[i]);
    }
  }

  /** After a variable gave up its block, and the release, everything is sound without it. */
  lemma GiveUp(s: Args, v: nat, c: Option<Cell>)
    requires Ok(s) && Present(s, Var(v)) && (c.Some? ==> c.value.Plain?)
    ensures var h := Release(s.heap, [s.vars[v].value]);
            && Clean(s.heap, [s.vars[v].value]) && Within(h, s.heap)
            && Sound(h, s.vars[v := c], []) && Ordered(h)
  {
    var cell := s.vars[v].value;
    assert Sound(s.heap, s.vars[v := c], [cell]) by {
      hide InVars; hide InHeap;
      forall b: nat
        ensures Holders(s.heap, s.vars[v := c], [cell], b) == Holders(s.heap, s.vars, [], b)
      {
        InVarsUpdate(s.vars, v, c, b);
        LastCell([cell], b);
      }
    }
    hide Sound; hide InCells; hide InVars;
    ReleaseKeeps(s.heap, s.vars[v := c], [cell]);
  }

  function Next(s: Args, a: Action): Args
    requires Ok(s) && Possible(s, a)
  {
    match a
    case MakePlain(x) => Args(s.heap, s.vars + [Some(Plain(x))])
    case MakeString => Args(s.heap + [Some(Block(1, []))], s.vars + [Some(Ref(|s.heap|))])
    case MakeArray(from) =>
      ReadHeld(s, from);
      var cells := Read(s, from);
      Args(AcquireAll(s.heap, cells) + [Some(Block(1, cells))], s.vars + [Some(Ref(|s.heap|))])
    case Copy(source) =>
      PresentIsHeld(s, [], source);
      Args(Acquire(s.heap, At(s, source)), s.vars + [Some(At(s, source))])
    case Move(v) => Args(s.heap, s.vars[v := Some(Plain(0))] + [s.vars[v]])
    case Assign(v, source) =>
      if source == Var(v) then s
      else
        var h := Release(s.heap, [s.vars[v].value]);
        GiveUp(s, v, Some(Plain(0)));
        var freed := Args(h, s.vars[v := Some(Plain(0))]);
        PresentIsHeld(freed, [], source);
        var c := At(freed, source);
        Args(Acquire(h, c), s.vars[v := Some(c)])
    case Destroy(v) => Args(Release(s.heap, [s.vars[v].value]), s.vars[v := None])
  }

  // ---------------------------------------------------------------- every operation keeps the counts exact

  lemma AcquireCounts(h: Heap, c: Cell, b: nat)
    requires Held(h, c)
    ensures var r := Acquire(h, c);
            && CountOf(r, b) == CountOf(h, b) + InCells([c], b)
            && InHeap(r, b) == InHeap(h, b) && Within(r, h)
  {
    LastCell([c], b);
    if c.Ref? {
      var k := h[c.block].value;
      InHeapUpdate(h, c.block, Some(k.(count := k.count + 1)), b);
    }
  }

  lemma {:induction false} AcquireAllCounts(h: Heap, cells: seq<Cell>, b: nat)
    requires AllHeld(h, cells)
    ensures var r := AcquireAll(h, cells);
            && CountOf(r, b) == CountOf(h, b) + InCells(cells, b)
            && InHeap(r, b) == InHeap(h, b) && Within(r, h)
    decreases |cells|
  {
    hide InHeap; hide InCells; hide Held; hide Acquire;
    if cells != [] {
      AcquireHolds(h, cells[0], cells[1..]);
      AcquireCounts(h, cells[0], b);
      AcquireAllCounts(Acquire(h, cells[0]), cells[1..], b);
      assert cells == [cells[0]] + cells[1..];
      InCellsJoin([cells[0]], cells[1..], b);
    } else {
      NoCells(b);
    }
  }

  lemma NoCells(b: nat)
    ensures InCells([], b) == 0
  {
  }

  lemma VarsSnoc(vars: Vars, v: Option<Cell>, b: nat)
    ensures InVars(vars + [v], b) == InVars(vars, b) + InVar(v, b)
  {
    assert (vars + [v])[..|vars|] == vars;
  }

  lemma HeapSnoc(h: Heap, k: Block, b: nat)
    ensures InHeap(h + [Some(k)], b) == InHeap(h, b) + InCells(k.items, b)
  {
    assert (h + [Some(k)])[..|h|] == h;
  }

  /** A cell held by somebody, counted once more and put into a new variable. */
  lemma ShareKeeps(h: Heap, vars: Vars, c: Cell, after: Vars)
    requires Sound(h, vars, []) && Ordered(h) && Held(h, c)
    requires forall b: nat :: InVars(after, b) == InVars(vars, b) + InCells([c], b)
    ensures Ok(Args(Acquire(h, c), after))
  {
    hide InVars; hide InHeap; hide InCells;
    var g := Acquire(h, c);
    forall b: nat
      ensures CountOf(g, b) == Holders(g, after, [], b) && (Live(g, b) ==> CountOf(g, b) > 0) && Within(g, h)
    {
      assert CountOf(h, b) == Holders(h, vars, [], b) && (Live(h, b) ==> CountOf(h, b) > 0);
      AcquireCounts(h, c, b);
    }
    assert Within(g, h);
  }

  lemma OneCell(c: Cell, b: nat)
    ensures InCells([c], b) == InVar(Some(c), b)
  {
    LastCell([c], b);
  }

  lemma CopyKeeps(s: Args, source: Place)
    requires Ok(s) && Present(s, source)
    ensures Ok(Next(s, Copy(source)))
  {
    PresentIsHeld(s, [], source);
    var c := At(s, source);
    forall b: nat ensures InVars(s.vars + [Some(c)], b) == InVars(s.vars, b) + InCells([c], b) {
      VarsSnoc(s.vars, Some(c), b);
      OneCell(c, b);
    }
    ShareKeeps(s.heap, s.vars, c, s.vars + [Some(c)]);
  }

  lemma AssignKeeps(s: Args, v: nat, source: Place)
    requires Ok(s) && Possible(s, Assign(v, source))
    ensures Ok(Next(s, Assign(v, source)))
  {
    if source != Var(v) {
      GiveUp(s, v, Some(Plain(0)));
      var h, left := Release(s.heap, [s.vars[v].value]), s.vars[v := Some(Plain(0))];
      PresentIsHeld(Args(h, left), [], source);
      var c := At(Args(h, left), source);
      forall b: nat ensures InVars(s.vars[v := Some(c)], b) == InVars(left, b) + InCells([c], b) {
        InVarsUpdate(s.vars, v, Some(Plain(0)), b);
        InVarsUpdate(s.vars, v, Some(c), b);
        OneCell(c, b);
      }
      ShareKeeps(h, left, c, s.vars[v := Some(c)]);
    }
  }

  /** New plain variables, and moving a cell from one variable to another, hold the same blocks. */
  lemma SameHolders(s: Args, after: Vars)
    requires Ok(s) && forall b: nat :: InVars(after, b) == InVars(s.vars, b)
    ensures Ok(Args(s.heap, after))
  {
    hide InVars; hide InHeap; hide InCells;
    forall b: nat
      ensures CountOf(s.heap, b) == Holders(s.heap, after, [], b) && (Live(s.heap, b) ==> CountOf(s.heap, b) > 0)
    {
      assert CountOf(s.heap, b) == Holders(s.heap, s.vars, [], b);
    }
  }

  lemma PlainKeeps(s: Args, x: int)
    requires Ok(s)
    ensures Ok(Next(s, MakePlain(x)))
  {
    forall b: nat ensures InVars(s.vars + [Some(Plain(x))], b) == InVars(s.vars, b) {
      VarsSnoc(s.vars, Some(Plain(x)), b);
    }
    SameHolders(s, s.vars + [Some(Plain(x))]);
  }

  lemma MoveKeeps(s: Args, v: nat)
    requires Ok(s) && Possible(s, Move(v))
    ensures Ok(Next(s, Move(v)))
  {
    var left := s.vars[v := Some(Plain(0))];
    forall b: nat ensures InVars(left + [s.vars[v]], b) == InVars(s.vars, b) {
      InVarsUpdate(s.vars, v, Some(Plain(0)), b);
      VarsSnoc(left, s.vars[v], b);
    }
    SameHolders(s, left + [s.vars[v]]);
  }

  /** A new block held by one new variable, its items counted. */
  lemma NewBlockKeeps(s: Args, cells: seq<Cell>)
    requires Ok(s) && AllHeld(s.heap, cells)
    ensures Ok(Args(AcquireAll(s.heap, cells) + [Some(Block(1, cells))], s.vars + [Some(Ref(|s.heap|))]))
  {
    var g := AcquireAll(s.heap, cells);
    var h, vars := g + [Some(Block(1, cells))], s.vars + [Some(Ref(|s.heap|))];
    AcquireAllCounts(s.heap, cells, 0);
    NewBlockCounts(s, cells);
    forall b: nat, i | Live(h, b) && 0 <= i < |h[b].value.items| && h[b].value.items[i].Ref?
      ensures h[b].value.items[i].block < b
    {
      if b < |g| { assert Live(g, b) && Live(s.heap, b) && s.heap[b].value.items[i].Ref?; }
    }
  }

  lemma NewBlockCounts(s: Args, cells: seq<Cell>)
    requires Ok(s) && AllHeld(s.heap, cells)
    ensures Sound(AcquireAll(s.heap, cells) + [Some(Block(1, cells))], s.vars + [Some(Ref(|s.heap|))], [])
  {
    hide InVars; hide InHeap; hide InCells; hide Ordered; hide AcquireAll; hide Within;
    var g := AcquireAll(s.heap, cells);
    var h, vars := g + [Some(Block(1, cells))], s.vars + [Some(Ref(|s.heap|))];
    forall b: nat
      ensures CountOf(h, b) == Holders(h, vars, [], b) && (Live(h, b) ==> CountOf(h, b) > 0)
    {
      assert CountOf(s.heap, b) == Holders(s.heap, s.vars, [], b) && (Live(s.heap, b) ==> CountOf(s.heap, b) > 0);
      AcquireAllCounts(s.heap, cells, b);
      assert Live(g, b) ==> Live(s.heap, b) by { assert Within(g, s.heap); WithinMeans(g, s.heap, b); }
      HeapSnoc(g, Block(1, cells), b);
      VarsSnoc(s.vars, Some(Ref(|s.heap|)), b);
      assert b < |g| ==> h[b] == g[b];
      NoCells(b);
    }
  }

  lemma WithinMeans(g: Heap, h: Heap, b: nat)
    requires Within(g, h)
    ensures Live(g, b) ==> Live(h, b) && g[b].value.items == h[b].value.items
  {
  }

  lemma StepKeeps(s: Args, a: Action)
    requires Ok(s) && Possible(s, a)
    ensures Ok(Next(s, a))
  {
    hide Ok;
    match a
    case MakePlain(x) => PlainKeeps(s, x);
    case MakeString => NewBlockKeeps(s, []);
    case MakeArray(from) =>
      ReadHeld(s, from);
      NewBlockKeeps(s, Read(s, from));
    case Copy(source) => CopyKeeps(s, source);
    case Move(v) => MoveKeeps(s, v);
    case Assign(v, source) => AssignKeeps(s, v, source);
    case Destroy(v) => DestroyKeeps(s, v);
  }

  lemma DestroyKeeps(s: Args, v: nat)
    requires Ok(s) && Possible(s, Destroy(v))
    ensures Ok(Next(s, Destroy(v)))
  {
    GiveUp(s, v, None);
  }

  // ---------------------------------------------------------------- whole histories

  ghost predicate IsHistory(ss: seq<Args>, acts: seq<Action>) {
    && |ss| == |acts| + 1 && ss[0] == Args([], [])
    && forall k :: 0 <= k < |acts| && Ok(ss[k]) ==> Possible(ss[k], acts[k]) && ss[k + 1] == Next(ss[k], acts[k])
  }

  lemma {:induction false} HistoryOk(ss: seq<Args>, acts: seq<Action>, n: nat)
    requires IsHistory(ss, acts) && n < |ss|
    ensures Ok(ss[n])
  {
    if n > 0 {
      HistoryOk(ss, acts, n - 1);
      assert Possible(ss[n - 1], acts[n - 1]) && ss[n - 1 + 1] == Next(ss[n - 1], acts[n - 1]);
      StepKeeps(ss[n - 1], acts[n - 1]);
    }
  }

  /** In every history each count is the number of holders, and a block ever allocated is there exactly while
      somebody holds it. */
  lemma CountsAlwaysExact(ss: seq<Args>, acts: seq<Action>, n: nat, b: nat)
    requires IsHistory(ss, acts) && n < |ss|
    ensures var s := ss[n];
            && CountOf(s.heap, b) == Holders(s.heap, s.vars, [], b)
            && (Live(s.heap, b) <==> Holders(s.heap, s.vars, [], b) > 0)
  {
    hide InVars; hide InHeap; hide InCells; hide IsHistory;
    HistoryOk(ss, acts, n);
    assert CountOf(ss[n].heap, b) == Holders(ss[n].heap, ss[n].vars, [], b);
  }

  /** A step revives no block, and keeps the items of those that stay. */
  lemma NoRevival(s: Args, a: Action, b: nat)
    requires Ok(s) && Possible(s, a) && b < |s.heap|
    ensures var r := Next(s, a);
            && |s.heap| <= |r.heap|
            && (Live(r.heap, b) ==> Live(s.heap, b) && r.heap[b].value.items == s.heap[b].value.items)
  {
    match a
    case MakePlain(_) =>
    case MakeString =>
    case MakeArray(from) =>
      ReadHeld(s, from);
      AcquireAllCounts(s.heap, Read(s, from), b);
      WithinMeans(AcquireAll(s.heap, Read(s, from)), s.heap, b);
    case Copy(source) =>
      PresentIsHeld(s, [], source);
    case Move(_) =>
    case Assign(v, source) =>
      GiveUp(s, v, Some(Plain(0)));
      WithinMeans(Release(s.heap, [s.vars[v].value]), s.heap, b);
    case Destroy(v) =>
      GiveUp(s, v, None);
      WithinMeans(Release(s.heap, [s.vars[v].value]), s.heap, b);
  }

  /** Freed once: a block that is gone never comes back, however the history goes on. */
  lemma {:induction false} FreedForGood(ss: seq<Args>, acts: seq<Action>, m: nat, n: nat, b: nat)
    requires IsHistory(ss, acts) && m <= n < |ss| && b < |ss[m].heap|
    ensures b < |ss[n].heap| && (!Live(ss[m].heap, b) ==> !Live(ss[n].heap, b))
    decreases n
  {
    if m < n {
      FreedForGood(ss, acts, m, n - 1, b);
      HistoryOk(ss, acts, n - 1);
      assert Possible(ss[n - 1], acts[n - 1]) && ss[n - 1 + 1] == Next(ss[n - 1], acts[n - 1]);
      hide Next; hide Ok; hide Possible;
      NoRevival(ss[n - 1], acts[n - 1], b);
    }
  }

  // ---------------------------------------------------------------- counting against reachability

  /** Item i of array c holds block b. */
  predicate ItemIs(h: Heap, c: nat, i: int, b: nat) {
    Live(h, c) && 0 <= i < |h[c].value.items| && h[c].value.items[i] == Ref(b)
  }

  /** A variable holds the block, or an item of a reached array does. */
  ghost predicate Reached(h: Heap, vars: Vars, b: nat)
    decreases |h| - b
  {
    b < |h| &&
    ((exists v :: 0 <= v < |vars| && vars[v] == Some(Ref(b))) ||
     (exists c: nat, i :: b < c < |h| && ItemIs(h, c, i, b) && Reached(h, vars, c)))
  }

  lemma {:induction false} HolderVar(vars: Vars, b: nat) returns (v: nat)
    requires InVars(vars, b) > 0
    ensures v < |vars| && vars[v] == Some(Ref(b))
  {
    if vars[|vars| - 1] == Some(Ref(b)) { v := |vars| - 1; } else { v := HolderVar(vars[..|vars| - 1], b); }
  }

  lemma {:induction false} HolderItem(cells: seq<Cell>, b: nat) returns (i: nat)
    requires InCells(cells, b) > 0
    ensures i < |cells| && cells[i] == Ref(b)
  {
    if cells[|cells| - 1] == Ref(b) { i := |cells| - 1; } else { i := HolderItem(cells[..|cells| - 1], b); }
  }

  lemma {:induction false} HolderBlock(h: Heap, b: nat) returns (c: nat, i: nat)
    requires InHeap(h, b) > 0
    ensures ItemIs(h, c, i, b)
  {
    if InSlot(h[|h| - 1], b) > 0 {
      c := |h| - 1;
      i := HolderItem(h[c].value.items, b);
    } else {
      c, i := HolderBlock(h[..|h| - 1], b);
    }
  }

  lemma SomeoneHolds(h: Heap, vars: Vars, b: nat)
    requires Sound(h, vars, []) && b < |h|
    requires (exists v :: 0 <= v < |vars| && vars[v] == Some(Ref(b))) ||
             (exists c: nat, i :: ItemIs(h, c, i, b))
    ensures Live(h, b)
  {
    hide InVars; hide InHeap; hide InCells;
    if v :| 0 <= v < |vars| && vars[v] == Some(Ref(b)) {
      VarHolds(vars, v, b);
    } else {
      var c: nat, i :| ItemIs(h, c, i, b);
      ItemHolds(h[c].value.items, i, b);
      SlotHolds(h, c, b);
    }
    assert CountOf(h, b) == Holders(h, vars, [], b);
  }

  /** Counting agrees with reachability: a block is there exactly when some variable reaches it. */
  lemma {:induction false} LiveExactlyReached(h: Heap, vars: Vars, b: nat)
    requires Sound(h, vars, []) && Ordered(h)
    ensures Live(h, b) <==> Reached(h, vars, b)
    decreases |h| - b
  {
    hide InVars; hide InHeap; hide InCells; hide Sound;
    if Live(h, b) {
      CountMeans(h, vars, b);
      if InVars(vars, b) > 0 {
        var v := HolderVar(vars, b);
      } else {
        var c, i := HolderBlock(h, b);
        LiveExactlyReached(h, vars, c);
      }
    } else if Reached(h, vars, b) {
      SomeoneHolds(h, vars, b);
      assert false;
    }
  }

  lemma CountMeans(h: Heap, vars: Vars, b: nat)
    requires Sound(h, vars, []) && Live(h, b)
    ensures InVars(vars, b) > 0 || InHeap(h, b) > 0
  {
    hide InVars; hide InHeap; hide InCells;
    assert CountOf(h, b) == Holders(h, vars, [], b) > 0;
    NoCells(b);
  }

  /** Nothing leaks: when no variable holds a block, none is left. */
  lemma NothingLeaks(ss: seq<Args>, acts: seq<Action>, n: nat, b: nat)
    requires IsHistory(ss, acts) && n < |ss|
    requires forall v :: 0 <= v < |ss[n].vars| ==> !(ss[n].vars[v].Some? && ss[n].vars[v].value.Ref?)
    ensures !Live(ss[n].heap, b)
  {
    HistoryOk(ss, acts, n);
    hide IsHistory; hide Sound;
    LiveExactlyReached(ss[n].heap, ss[n].vars, b);
    NoRoots(ss[n].heap, ss[n].vars, b);
  }

  lemma {:induction false} NoRoots(h: Heap, vars: Vars, b: nat)
    requires forall v :: 0 <= v < |vars| ==> !(vars[v].Some? && vars[v].value.Ref?)
    ensures !Reached(h, vars, b)
    decreases |h| - b
  {
    if Reached(h, vars, b) {
      var c: nat, i :| b < c < |h| && ItemIs(h, c, i, b) && Reached(h, vars, c);
      NoRoots(h, vars, c);
      assert false;
    }
  }

  // ---------------------------------------------------------------- which assignments are safe

  /** Releasing one variable's block leaves exactly the blocks the other variables reach. */
  lemma {:induction false} ReachedStays(g: Heap, h: Heap, vars: Vars, b: nat)
    requires Sound(g, vars, []) && Ordered(g) && Within(g, h)
    ensures Reached(h, vars, b) <==> Reached(g, vars, b)
    decreases |h| - b
  {
    hide Sound; hide InVars; hide InHeap; hide InCells;
    if Reached(h, vars, b) && !(exists v :: 0 <= v < |vars| && vars[v] == Some(Ref(b))) {
      var c: nat, i :| b < c < |h| && ItemIs(h, c, i, b) && Reached(h, vars, c);
      ReachedStays(g, h, vars, c);
      LiveExactlyReached(g, vars, c);
      WithinMeans(g, h, c);
      assert ItemIs(g, c, i, b);
    }
    if Reached(g, vars, b) && !(exists v :: 0 <= v < |vars| && vars[v] == Some(Ref(b))) {
      var c: nat, i :| b < c < |g| && ItemIs(g, c, i, b) && Reached(g, vars, c);
      ReachedStays(g, h, vars, c);
      WithinMeans(g, h, c);
      assert ItemIs(h, c, i, b);
    }
  }

  /** An assignment from an array element is safe exactly when the array is reached without the assigned variable. */
  lemma AssignSafeExactly(s: Args, v: nat, b: nat, i: nat)
    requires Ok(s) && Present(s, Var(v)) && Present(s, Item(b, i))
    ensures SourceSurvives(s, v, Item(b, i)) <==> Reached(s.heap, s.vars[v := Some(Plain(0))], b)
  {
    var h, left := Release(s.heap, [s.vars[v].value]), s.vars[v := Some(Plain(0))];
    GiveUp(s, v, Some(Plain(0)));
    hide Sound; hide Release; hide Reached; hide Within; hide Ordered;
    ReachedStays(h, s.heap, left, b);
    LiveExactlyReached(h, left, b);
    WithinMeans(h, s.heap, b);
  }

  /** An array that only its own variable holds may not be assigned one of its own items: the item is gone before
      it is read. */
  lemma OwnItemIsGone(x: int)
    ensures var s := Args([Some(Block(1, [Plain(x)]))], [Some(Ref(0))]);
            Ok(s) && Present(s, Item(0, 0)) && !SourceSurvives(s, 0, Item(0, 0))
  {
    var s := Args([Some(Block(1, [Plain(x)]))], [Some(Ref(0))]);
    forall b: nat
      ensures CountOf(s.heap, b) == Holders(s.heap, s.vars, [], b) && (Live(s.heap, b) ==> CountOf(s.heap, b) > 0)
    {
      NoCells(b);
      OneCell(Plain(x), b);
      HeapSnoc([], Block(1, [Plain(x)]), b);
      VarsSnoc([], Some(Ref(0)), b);
      assert s.heap == [] + [Some(Block(1, [Plain(x)]))] && s.vars == [] + [Some(Ref(0))];
    }
    AssignSafeExactly(s, 0, 0, 0);
    NoRoots(s.heap, s.vars[0 := Some(Plain(0))], 0);
  }

  // ---------------------------------------------------------------- what each operation leaves in the arguments

  /** The arguments after each operation: a copy, an assignment and an item hold what their source held, a move takes
      the block over and leaves the source plain, and no other argument changes. */
  lemma HoldsExactly(s: Args, a: Action)
    requires Ok(s) && Possible(s, a)
    ensures var r := Next(s, a);
            && (a.MakePlain? ==> r.vars == s.vars + [Some(Plain(a.x))])
            && (a.MakeString? || a.MakeArray? ==> r.vars == s.vars + [Some(Ref(|s.heap|))])
            && (a.Copy? ==> r.vars == s.vars + [Some(At(s, a.source))])
            && (a.Move? ==> && r.vars == s.vars[a.v := r.vars[a.v]] + [s.vars[a.v]]
                            && r.vars[a.v].Some? && r.vars[a.v].value.Plain?)
            && (a.Assign? ==> r.vars == s.vars[a.v := Some(At(s, a.source))])
            && (a.Destroy? ==> r.vars == s.vars[a.v := None])
  {
    if a.Assign? && a.source != Var(a.v) {
      GiveUp(s, a.v, Some(Plain(0)));
      var h := Release(s.heap, [s.vars[a.v].value]);
      if a.source.Item? { WithinMeans(h, s.heap, a.source.block); }
    }
  }

  /** A new block is held once; a string has no items, and the items of an array hold what their sources held. */
  lemma BlocksExactly(s: Args, a: Action)
    requires Ok(s) && Possible(s, a) && (a.MakeString? || a.MakeArray?)
    ensures var r := Next(s, a);
            && |r.heap| == |s.heap| + 1 && r.heap[|s.heap|].Some? && r.heap[|s.heap|].value.count == 1
            && (a.MakeString? ==> r.heap[|s.heap|].value.items == [])
            && (a.MakeArray? ==>
                  var items := r.heap[|s.heap|].value.items;
                  |items| == |a.from| && forall i :: 0 <= i < |items| ==> items[i] == At(s, a.from[i]))
  {
    if a.MakeArray? { ReadHeld(s, a.from); }
  }
}
