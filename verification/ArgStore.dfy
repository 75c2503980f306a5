/** The operations on log arguments, changing blocks and arguments in place. */
module ArgStore {
  import opened Basics
  import opened ArgModel

  lemma {:induction false} ReleaseShrinks(h: Heap, cells: seq<Cell>)
    ensures LiveCount(Release(h, cells)) <= LiveCount(h)
    decreases LiveCount(h), |cells|
  {
    if cells != [] {
      var c, rest := cells[|cells| - 1], cells[..|cells| - 1];
      if c.Plain? || !Held(h, c) {
        ReleaseShrinks(h, rest);
      } else {
        var k := h[c.block].value;
        if k.count > 1 {
          KeepingKeeps(h, c.block, k.(count := k.count - 1));
          ReleaseShrinks(h[c.block := Some(k.(count := k.count - 1))], rest);
        } else {
          FreeingShrinks(h, c.block);
          ReleaseShrinks(h[c.block := None], rest + k.items);
        }
      }
    }
  }

  /** Releasing in two goes, the later cells first. */
  lemma {:induction false} ReleaseSplit(h: Heap, xs: seq<Cell>, ys: seq<Cell>)
    requires Clean(h, xs + ys)
    ensures Release(h, xs + ys) == Release(Release(h, ys), xs)
    ensures Clean(h, ys) && Clean(Release(h, ys), xs)
    decreases LiveCount(h), |ys|
  {
    if ys == [] {
      assert xs + ys == xs;
    } else {
      var c, rest := ys[|ys| - 1], ys[..|ys| - 1];
      assert (xs + ys)[..|xs + ys| - 1] == xs + rest;
      if c.Plain? {
        ReleaseSplit(h, xs, rest);
      } else {
        var k := h[c.block].value;
        if k.count > 1 {
          KeepingKeeps(h, c.block, k.(count := k.count - 1));
          ReleaseSplit(h[c.block := Some(k.(count := k.count - 1))], xs, rest);
        } else {
          FreeingShrinks(h, c.block);
          assert xs + rest + k.items == xs + (rest + k.items);
          ReleaseSplit(h[c.block := None], xs, rest + k.items);
        }
      }
    }
  }

  /** The same items, whatever the counts. */
  ghost predicate SameItems(g: Heap, h: Heap) {
    |g| == |h| && forall b: nat :: Live(h, b) ==> Live(g, b) && g[b].value.items == h[b].value.items
  }

  lemma CopyOne(h: Heap, g: Heap, cells: seq<Cell>, i: nat)
    requires i < |cells| && AllHeld(g, cells[i..]) && SameItems(g, h)
    ensures Held(g, cells[i]) && AllHeld(Acquire(g, cells[i]), cells[i + 1..]) && SameItems(Acquire(g, cells[i]), h)
    ensures AcquireAll(g, cells[i..]) == AcquireAll(Acquire(g, cells[i]), cells[i + 1..])
  {
    assert cells[i..][0] == cells[i] && cells[i..][1..] == cells[i + 1..];
    AcquireHolds(g, cells[i], cells[i + 1..]);
  }

  lemma SameItemsSame(s: Args, g: Heap, p: Place)
    requires Present(s, p) && SameItems(g, s.heap)
    ensures Present(Args(g, s.vars), p) && At(Args(g, s.vars), p) == At(s, p)
  {
  }

  class Store {
    var heap: Heap
    var vars: Vars

    function View(): Args
      reads this
    {
      Args(heap, vars)
    }

    constructor ()
      ensures View() == Args([], []) && Ok(View())
    {
      heap, vars := [], [];
      new;
      EmptyIsOk();
    }

    method RefAcquire(c: Cell)
      requires Held(heap, c)
      modifies this`heap
      ensures heap == Acquire(old(heap), c)
    {
      if c.Ref? {
        var k := heap[c.block].value;
        heap := heap[c.block := Some(k.(count := k.count + 1))];
      }
    }

    /** The last holder frees the block, and with it releases its items from the last to the first. */
    method RefRelease(c: Cell)
      requires Clean(heap, [c])
      modifies this`heap
      ensures heap == Release(old(heap), [c])
      ensures LiveCount(heap) <= old(LiveCount(heap))
      decreases LiveCount(heap)
    {
      ReleaseShrinks(heap, [c]);
      ReleaseOne(heap, c);
      if c.Ref? {
        var k := heap[c.block].value;
        if k.count > 1 {
          heap := heap[c.block := Some(k.(count := k.count - 1))];
        } else {
          FreeingShrinks(heap, c.block);
          ghost var before := heap;
          heap := heap[c.block := None];
          assert k.items[..|k.items|] == k.items;
          var i := |k.items|;
          while i > 0
            invariant 0 <= i <= |k.items| && LiveCount(heap) < LiveCount(before)
            invariant Clean(heap, k.items[..i]) && Release(heap, k.items[..i]) == Release(before, [c])
          {
            assert k.items[..i] == k.items[..i - 1] + [k.items[i - 1]];
            ReleaseSplit(heap, k.items[..i - 1], [k.items[i - 1]]);
            i := i - 1;
            RefRelease(k.items[i]);
          }
        }
      }
    }

    method MakePlain(x: int)
      requires Ok(View())
      modifies this
      ensures View() == Next(old(View()), Action.MakePlain(x)) && Ok(View())
    {
      StepKeeps(View(), Action.MakePlain(x));
      vars := vars + [Some(Plain(x))];
    }

    /** A string too long for the argument itself. */
    method MakeString()
      requires Ok(View())
      modifies this
      ensures View() == Next(old(View()), Action.MakeString) && Ok(View())
    {
      StepKeeps(View(), Action.MakeString);
      vars := vars + [Some(Ref(|heap|))];
      heap := heap + [Some(Block(1, []))];
    }

    /** The block is allocated with plain items first; each item is then assigned a copy. */
    method MakeArray(from: seq<Place>)
      requires Ok(View()) && Possible(View(), Action.MakeArray(from))
      modifies this
      ensures View() == Next(old(View()), Action.MakeArray(from)) && Ok(View())
    {
      ghost var s := View();
      StepKeeps(s, Action.MakeArray(from));
      ReadHeld(s, from);
      ghost var cells := Read(s, from);
      assert cells[0..] == cells;
      ghost var goal := Next(s, Action.MakeArray(from));
      var items := CopyItems(from, cells);
      assert goal == Args(heap + [Some(Block(1, items))], vars + [Some(Ref(|heap|))]);
      vars := vars + [Some(Ref(|heap|))];
      heap := heap + [Some(Block(1, items))];
    }

    method CopyItems(from: seq<Place>, ghost cells: seq<Cell>) returns (items: seq<Cell>)
      requires forall i :: 0 <= i < |from| ==> Present(View(), from[i])
      requires cells == Read(View(), from) && AllHeld(heap, cells)
      modifies this`heap
      ensures items == cells && heap == AcquireAll(old(heap), cells)
    {
      hide Read; hide AcquireAll; hide AllHeld; hide Held; hide Acquire; hide SameItems;
      var i := 0;
      items := [];
      assert cells[0..] == cells;
      ghost var s := View();
      SameStart(heap);
      while i < |from|
        invariant 0 <= i <= |from| && items == cells[..i]
        invariant AllHeld(heap, cells[i..]) && AcquireAll(heap, cells[i..]) == AcquireAll(s.heap, cells)
        invariant SameItems(heap, s.heap)
      {
        SameItemsSame(s, heap, from[i]);
        CopyOne(s.heap, heap, cells, i);
        var c := At(View(), from[i]);
        RefAcquire(c);
        items := items + [c];
        i := i + 1;
      }
      assert cells[i..] == [] && items == cells;
      NothingToAcquire(heap);
    }

    method CopyFrom(source: Place)
      requires Ok(View()) && Present(View(), source)
      modifies this
      ensures View() == Next(old(View()), Action.Copy(source)) && Ok(View())
    {
      ghost var s := View();
      StepKeeps(s, Action.Copy(source));
      PresentIsHeld(s, [], source);
      var c := At(View(), source);
      RefAcquire(c);
      vars := vars + [Some(c)];
    }

    method MoveFrom(v: nat)
      requires Ok(View()) && Present(View(), Var(v))
      modifies this
      ensures View() == Next(old(View()), Action.Move(v)) && Ok(View())
    {
      StepKeeps(View(), Action.Move(v));
      vars := vars[v := Some(Plain(0))] + [vars[v]];
    }

    /** Releases the old block, then copies the source, unless both are the same argument. */
    method Assign(v: nat, source: Place)
      requires Ok(View()) && Possible(View(), Action.Assign(v, source))
      modifies this
      ensures View() == Next(old(View()), Action.Assign(v, source)) && Ok(View())
    {
      ghost var s := View();
      StepKeeps(s, Action.Assign(v, source));
      if source != Var(v) {
        GiveUp(s, v, Some(Plain(0)));
        PresentIsHeld(Args(Release(heap, [vars[v].value]), vars[v := Some(Plain(0))]), [], source);
        RefRelease(vars[v].value);
        var c := At(View(), source);
        RefAcquire(c);
        vars := vars[v := Some(c)];
      }
    }

    method Destroy(v: nat)
      requires Ok(View()) && Present(View(), Var(v))
      modifies this
      ensures View() == Next(old(View()), Action.Destroy(v)) && Ok(View())
    {
      ghost var s := View();
      StepKeeps(s, Action.Destroy(v));
      GiveUp(s, v, None);
      RefRelease(vars[v].value);
      vars := vars[v := None];
    }
  }

  lemma SameStart(h: Heap)
    ensures SameItems(h, h)
  {
  }

  lemma NothingToAcquire(h: Heap)
    ensures AllHeld(h, []) && AcquireAll(h, []) == h
  {
  }

  lemma EmptyIsOk()
    ensures Ok(Args([], []))
  {
  }

  lemma ReleaseOne(h: Heap, c: Cell)
    requires Clean(h, [c])
    ensures c.Ref? ==> Held(h, c)
    ensures c.Ref? && h[c.block].value.count == 1 ==>
              var freed, items := h[c.block := None], h[c.block].value.items;
              Clean(freed, items) && Release(h, [c]) == Release(freed, items)
  {
    assert [c][..0] == [];
    if c.Ref? { assert [] + h[c.block].value.items == h[c.block].value.items; }
  }
}
