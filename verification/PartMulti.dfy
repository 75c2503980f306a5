/** Packing into a buffer in place, and reading lists item by item. */
module PartMulti {
  import opened Basics
  import opened Integers
  import opened Wire
  import opened CountedLists
  import opened Codec

  /** The buffer with some bytes written over it. */
  function Over(b: Bytes, pos: nat, bs: Bytes): (r: Bytes)
    requires pos + |bs| <= |b|
    ensures |r| == |b| && At(r, pos, bs) && r[..pos] == b[..pos] && r[pos + |bs|..] == b[pos + |bs|..]
  {
    var r := b[..pos] + bs + b[pos + |bs|..];
    assert r[pos..pos + |bs|] == bs;
    r
  }

  method Write(a: array<byte>, pos: nat, bs: Bytes)
    requires pos + |bs| <= a.Length
    modifies a
    ensures a[..] == Over(old(a[..]), pos, bs)
  {
    var i := 0;
    while i < |bs|
      invariant i <= |bs|
      invariant forall k :: 0 <= k < i ==> a[pos + k] == bs[k]
      invariant forall k :: 0 <= k < a.Length && !(pos <= k < pos + i) ==> a[k] == old(a[k])
    {
      a[pos + i] := bs[i];
      i := i + 1;
    }
    assert a[pos..pos + |bs|] == bs;
    assert a[..] == a[..pos] + a[pos..pos + |bs|] + a[pos + |bs|..];
  }

  /** Writes one field; refuses, and leaves the buffer alone, when it would not fit or is too long. */
  method Pack2(a: array<byte>, pos: nat, f: Field, v: Val) returns (ok: bool, sz: nat)
    requires Typed(f, v) && Size(f, v) < SIZE_LIMIT && a.Length < SIZE_LIMIT && pos < SIZE_LIMIT
    modifies a
    ensures ok <==> Fits(f, v) && pos + Size(f, v) <= a.Length
    ensures ok ==> sz == Size(f, v) && a[..] == Over(old(a[..]), pos, Image(f, v))
    ensures !ok ==> a[..] == old(a[..])
  {
    sz := Size(f, v);
    BoundaryExactly(a.Length, pos, sz);
    if OutOfBoundary(a.Length, pos, sz) { return false, sz; }
    match f {
      case Num(w) => Write(a, pos, Encode(v.n, w));
      case Bool => Write(a, pos, [if v.b then 1 else 0]);
      case Str =>
        if |v.s| > U32_MAX { return false, sz; }
        Write(a, pos, Encode(|v.s|, LENGTH));
        Write(a, pos + LENGTH, v.s);
        OverTwice(old(a[..]), pos, Encode(|v.s|, LENGTH), v.s);
      case Arr(_) => Write(a, pos, v.s);
    }
    ok := true;
  }

  lemma OverTwice(b: Bytes, pos: nat, x: Bytes, y: Bytes)
    requires pos + |x| + |y| <= |b|
    ensures Over(Over(b, pos, x), pos + |x|, y) == Over(b, pos, x + y)
  {
    var m := Over(b, pos, x);
    assert m[..pos + |x|] == b[..pos] + x;
    assert m[pos + |x| + |y|..] == b[pos + |x| + |y|..] by {
      assert m[pos + |x|..] == b[pos + |x|..];
      assert m[pos + |x|..][|y|..] == m[pos + |x| + |y|..];
      assert b[pos + |x|..][|y|..] == b[pos + |x| + |y|..];
    }
  }

  /** Writes fields one after the other. */
  method PackFields(a: array<byte>, pos: nat, fs: seq<Field>, vs: seq<Val>) returns (ok: bool)
    requires AllTyped(fs, vs) && a.Length < SIZE_LIMIT && pos + |Images(fs, vs)| <= a.Length
    modifies a
    ensures ok <==> AllFit(fs, vs)
    ensures ok ==> a[..] == Over(old(a[..]), pos, Images(fs, vs))
    decreases |fs|
  {
    if fs == [] {
      assert a[..] == a[..pos] + [] + a[pos..];
      return true;
    }
    var sz;
    ok, sz := Pack2(a, pos, fs[0], vs[0]);
    if ok {
      ok := PackFields(a, pos + sz, fs[1..], vs[1..]);
      OverTwice(old(a[..]), pos, Image(fs[0], vs[0]), Images(fs[1..], vs[1..]));
    }
  }

  method TotalSize(fs: seq<Field>, vs: seq<Val>) returns (n: nat)
    requires AllTyped(fs, vs)
    ensures n == |Images(fs, vs)|
  {
    if fs == [] { return 0; }
    n := TotalSize(fs[1..], vs[1..]);
    n := Size(fs[0], vs[0]) + n;
  }

  /** Packs fields into a buffer of just their size. */
  method Pack(fs: seq<Field>, vs: seq<Val>) returns (ok: bool, a: array<byte>)
    requires AllTyped(fs, vs) && |Images(fs, vs)| < SIZE_LIMIT
    ensures fresh(a)
    ensures (if ok then Some(a[..]) else None) == Packed(fs, vs)
  {
    var n := TotalSize(fs, vs);
    a := new byte[n](_ => 0);
    ok := PackFields(a, 0, fs, vs);
    if ok { assert a[..] == Images(fs, vs); }
  }

  // ---------------------------------------------------------------- lists

  lemma {:induction false} TypedJoin(fs: seq<Field>, vs: seq<Val>, f: Field, v: Val)
    requires AllTyped(fs, vs) && Typed(f, v)
    ensures AllTyped(fs + [f], vs + [v]) && Images(fs + [f], vs + [v]) == Images(fs, vs) + Image(f, v)
  {
    if fs != [] {
      TypedJoin(fs[1..], vs[1..], f, v);
      assert (fs + [f])[1..] == fs[1..] + [f] && (vs + [v])[1..] == vs[1..] + [v];
    } else {
      assert (fs + [f])[1..] == [] && (vs + [v])[1..] == [];
    }
  }

  lemma {:induction false} RepeatSnoc(f: Field, n: nat)
    ensures Repeat(f, n + 1) == Repeat(f, n) + [f]
  {
    if n > 0 { RepeatSnoc(f, n - 1); }
  }

  predicate EachItem(f: Field, vs: seq<Val>) { forall i :: 0 <= i < |vs| ==> Typed(f, vs[i]) }

  lemma {:induction false} ItemsEach(f: Field, vs: seq<Val>)
    requires Items(f, vs)
    ensures EachItem(f, vs)
  {
    if vs != [] {
      assert Repeat(f, |vs|)[1..] == Repeat(f, |vs| - 1);
      ItemsEach(f, vs[1..]);
      assert forall i :: 1 <= i < |vs| ==> vs[i] == vs[1..][i - 1];
    }
  }

  lemma {:induction false} PrefixTyped(f: Field, vs: seq<Val>, n: nat)
    requires EachItem(f, vs) && n <= |vs|
    ensures Items(f, vs[..n])
    ensures n > 0 ==>
              && Items(f, vs[..n - 1])
              && Images(Repeat(f, n), vs[..n]) == Images(Repeat(f, n - 1), vs[..n - 1]) + Image(f, vs[n - 1])
  {
    if n > 0 {
      PrefixTyped(f, vs, n - 1);
      RepeatSnoc(f, n - 1);
      TypedJoin(Repeat(f, n - 1), vs[..n - 1], f, vs[n - 1]);
      assert vs[..n] == vs[..n - 1] + [vs[n - 1]];
    }
  }

  lemma {:induction false} PrefixTotals(f: Field, vs: seq<Val>, m: nat, n: nat)
    requires EachItem(f, vs) && m <= n <= |vs|
    ensures Items(f, vs[..m]) && Items(f, vs[..n]) && Total(f, vs[..m]) <= Total(f, vs[..n])
    decreases n
  {
    PrefixTyped(f, vs, n);
    if m < n { PrefixTotals(f, vs, m, n - 1); }
  }

  /** One item more: what it adds, and that the whole list is no shorter. */
  lemma OneMore(f: Field, vs: seq<Val>, n: nat)
    requires EachItem(f, vs) && n < |vs|
    ensures Items(f, vs) && Items(f, vs[..n]) && Items(f, vs[..n + 1])
    ensures Total(f, vs[..n + 1]) == Total(f, vs[..n]) + Size(f, vs[n]) <= Total(f, vs)
  {
    PrefixTyped(f, vs, n + 1);
    PrefixTotals(f, vs, n + 1, |vs|);
    assert vs[..|vs|] == vs;
  }

  /** What is held in memory has a 64-bit size. */
  predicate InMemory(vs: seq<Val>) { forall i :: 0 <= i < |vs| && vs[i].S? ==> |vs[i].s| + LENGTH < SIZE_LIMIT }

  lemma SizeBelow(f: Field, vs: seq<Val>, i: nat)
    requires FieldOk(f) && EachItem(f, vs) && InMemory(vs) && i < |vs|
    ensures Typed(f, vs[i]) && Size(f, vs[i]) < SIZE_LIMIT
  {
  }

  /** Size and count of a list, or nothing as soon as one of them needs more than 32 bits. */
  method Measure(f: Field, vs: seq<Val>) returns (ok: bool, size: nat)
    requires FieldOk(f) && Items(f, vs) && InMemory(vs)
    ensures ok <==> PackedList(f, vs).Some?
    ensures ok ==> size == Total(f, vs)
  {
    var count := 0;
    size := HEADER;
    ItemsEach(f, vs);
    assert vs[..|vs|] == vs;
    assert Items(f, vs[..0]) && Total(f, vs[..0]) == HEADER;
    hide Items; hide Total; hide Size; hide EachItem; hide Typed; hide InMemory;
    while count < |vs|
      invariant count <= |vs| && count <= U32_MAX && size <= U32_MAX
      invariant Items(f, vs[..count]) && size == Total(f, vs[..count])
    {
      OneMore(f, vs, count);
      SizeBelow(f, vs, count);
      var sz := Size(f, vs[count]);
      Overflow(size, sz);
      if (size + sz) % SIZE_LIMIT < size || (size + sz) % SIZE_LIMIT > U32_MAX {
        return false, size;
      }
      if count + 1 > U32_MAX { return false, size; }
      size := size + sz;
      count := count + 1;
    }
    ok := true;
  }

  /** The 64-bit form of the size check is exact. */
  lemma Overflow(size: nat, sz: nat)
    requires size <= U32_MAX && sz < SIZE_LIMIT
    ensures ((size + sz) % SIZE_LIMIT < size || (size + sz) % SIZE_LIMIT > U32_MAX) <==> size + sz > U32_MAX
  {
    if size + sz >= SIZE_LIMIT { assert (size + sz) % SIZE_LIMIT == size + sz - SIZE_LIMIT; }
  }

  /** The bytes of a list as far as its first n items. */
  function ListPrefix(f: Field, vs: seq<Val>, n: nat): (b: Bytes)
    requires EachItem(f, vs) && n <= |vs|
  {
    PrefixTyped(f, vs, n);
    PrefixTyped(f, vs, |vs|);
    assert vs[..|vs|] == vs;
    Encode(Total(f, vs), LENGTH) + Encode(|vs|, LENGTH) + Images(Repeat(f, n), vs[..n])
  }

  lemma ListPrefixGrows(f: Field, vs: seq<Val>, n: nat)
    requires EachItem(f, vs) && n < |vs|
    ensures ListPrefix(f, vs, n + 1) == ListPrefix(f, vs, n) + Image(f, vs[n])
    ensures |ListPrefix(f, vs, n)| + Size(f, vs[n]) <= |ListPrefix(f, vs, |vs|)|
  {
    PrefixTyped(f, vs, n + 1);
    OneMore(f, vs, n);
    var head, body := Encode(Total(f, vs), LENGTH) + Encode(|vs|, LENGTH), Images(Repeat(f, n), vs[..n]);
    assert head + (body + Image(f, vs[n])) == head + body + Image(f, vs[n]);
    assert vs[..|vs|] == vs;
  }

  lemma WholeList(f: Field, vs: seq<Val>)
    requires Items(f, vs) && EachItem(f, vs) && PackedList(f, vs).Some?
    ensures ListPrefix(f, vs, |vs|) == PackedList(f, vs).value && |ListPrefix(f, vs, |vs|)| == Total(f, vs) <= U32_MAX
    ensures ListPrefix(f, vs, 0) == Encode(Total(f, vs), LENGTH) + Encode(|vs|, LENGTH)
  {
    assert vs[..|vs|] == vs;
    var head := Encode(Total(f, vs), LENGTH) + Encode(|vs|, LENGTH);
    assert head + [] == head;
  }

  /** One field written behind what is already there. */
  lemma OverExtends(b: Bytes, x: Bytes, y: Bytes)
    requires |x| + |y| <= |b| && b[..|x|] == x
    ensures Over(b, |x|, y)[..|x + y|] == x + y
  {
    var r := Over(b, |x|, y);
    assert r[..|x + y|] == r[..|x|] + r[|x|..|x + y|];
  }

  /** The header goes first, then the items in order. */
  method PackList(f: Field, vs: seq<Val>) returns (ok: bool, a: array<byte>)
    requires FieldOk(f) && Items(f, vs) && InMemory(vs)
    ensures fresh(a)
    ensures (if ok then Some(a[..]) else None) == PackedList(f, vs)
  {
    var size;
    ok, size := Measure(f, vs);
    if !ok {
      a := new byte[0];
      return;
    }
    ItemsEach(f, vs);
    WholeList(f, vs);
    Widths();
    hide Items; hide Total; hide PackedList; hide ListPrefix; hide EachItem; hide Encode; hide Typed; hide InMemory;
    a := new byte[size](_ => 0);
    WriteHeader(a, size, |vs|);
    var pos, i := HEADER, 0;
    while i < |vs|
      invariant i <= |vs| && pos == |ListPrefix(f, vs, i)| <= size == a.Length && a[..pos] == ListPrefix(f, vs, i)
    {
      SizeBelow(f, vs, i);
      ListPrefixGrows(f, vs, i);
      assert Size(f, vs[i]) <= U32_MAX;
      SmallFits(f, vs[i]);
      ghost var before := a[..];
      assert before[..pos] == ListPrefix(f, vs, i);
      var done, sz := Pack2(a, pos, f, vs[i]);
      OverExtends(before, ListPrefix(f, vs, i), Image(f, vs[i]));
      assert a[..][..pos + sz] == a[..pos + sz];
      pos := pos + sz;
      i := i + 1;
    }
    assert a[..] == a[..pos];
  }

  lemma SmallFits(f: Field, v: Val)
    requires Typed(f, v) && Size(f, v) <= U32_MAX
    ensures Fits(f, v)
  {
  }

  method WriteHeader(a: array<byte>, size: nat, count: nat)
    requires HEADER <= a.Length == size <= U32_MAX && count <= U32_MAX
    modifies a
    ensures a[..HEADER] == Encode(size, LENGTH) + Encode(count, LENGTH)
  {
    Widths();
    hide Encode;
    var x, y := Encode(size, LENGTH), Encode(count, LENGTH);
    assert a[..] == a[..][..0] + a[..];
    var first, n := Pack2(a, 0, Num(LENGTH), N(size));
    ghost var mid := a[..];
    assert mid[..LENGTH] == x by { assert mid[0..LENGTH] == x; }
    var second, m := Pack2(a, LENGTH, Num(LENGTH), N(count));
    OverExtends(mid, x, y);
    assert a[..HEADER] == a[..][..HEADER];
  }

  function Extended(items: seq<Val>, rest: Option<seq<Val>>): Option<seq<Val>> {
    if rest.None? then None else Some(items + rest.value)
  }

  lemma ReadOne(f: Field, n: nat, b: Bytes, pos: nat, items: seq<Val>)
    requires |b| < SIZE_LIMIT && pos <= |b| && FieldOk(f) && n > 0
    ensures AllOk(Repeat(f, n)) && AllOk(Repeat(f, n - 1))
    ensures var v := Unpack1(f, b, pos);
            Extended(items, Unpack(Repeat(f, n), b, pos)) ==
            if v.None? then None else Extended(items + [v.value], Unpack(Repeat(f, n - 1), b, pos + Size(f, v.value)))
  {
    hide Unpack1; hide Extent;
    RepeatOk(f, n);
    RepeatOk(f, n - 1);
    assert Repeat(f, n)[1..] == Repeat(f, n - 1);
    var v := Unpack1(f, b, pos);
    if v.Some? {
      var rest := Unpack(Repeat(f, n - 1), b, pos + Size(f, v.value));
      if rest.Some? { assert items + ([v.value] + rest.value) == items + [v.value] + rest.value; }
    }
  }

  /** Reads the announced number of items one by one. */
  method UnpackList(f: Field, b: Bytes) returns (r: Option<seq<Val>>)
    requires |b| < SIZE_LIMIT && FieldOk(f)
    ensures r == ReadList(f, b)
  {
    hide Unpack; hide Unpack1; hide Repeat; hide ReadList; hide Announced; hide Extent; hide AllOk; hide Extended;
    HeaderIs(b);
    ListStarts(f, b);
    var head := Unpack(HEAD, b, 0);
    if head.None? { return None; }
    var count := head.value[1].n;
    var pos, items, i := HEADER, [], 0;
    while i < count
      invariant i <= count && HEADER <= pos <= |b|
      invariant AllOk(Repeat(f, count - i)) && ReadList(f, b) == Extended(items, Unpack(Repeat(f, count - i), b, pos))
    {
      ReadOne(f, count - i, b, pos, items);
      var v := Unpack1(f, b, pos);
      if v.None? { return None; }
      pos := pos + Size(f, v.value);
      items := items + [v.value];
      i := i + 1;
    }
    NoneLeft(f, b, pos, items);
    r := Some(items);
  }

  lemma ListStarts(f: Field, b: Bytes)
    requires |b| < SIZE_LIMIT && FieldOk(f)
    ensures Announced(b).None? ==> ReadList(f, b) == None
    ensures Announced(b).Some? ==>
              && HEADER <= |b| && AllOk(Repeat(f, Announced(b).value))
              && ReadList(f, b) == Extended([], Unpack(Repeat(f, Announced(b).value), b, HEADER))
  {
    if Announced(b).Some? {
      RepeatOk(f, Announced(b).value);
      var whole := Unpack(Repeat(f, Announced(b).value), b, HEADER);
      if whole.Some? { assert [] + whole.value == whole.value; }
    }
  }

  lemma NoneLeft(f: Field, b: Bytes, pos: nat, items: seq<Val>)
    requires |b| < SIZE_LIMIT && pos <= |b|
    ensures AllOk(Repeat(f, 0)) && Extended(items, Unpack(Repeat(f, 0), b, pos)) == Some(items)
  {
    assert items + [] == items;
  }

  /** The number of a packed topic is overwritten in place; a shorter buffer is refused. */
  method WithSeqNum(a: array<byte>, seqn: nat) returns (ok: bool)
    requires seqn < SEQ_LIMIT
    modifies a
    ensures ok <==> Patched(old(a[..]), seqn).Some?
    ensures a[..] == if ok then Patched(old(a[..]), seqn).value else old(a[..])
  {
    ok := a.Length >= SEQN_SIZE;
    if ok {
      Write(a, 0, Encode(seqn, SEQN_SIZE));
      assert [] + Encode(seqn, SEQN_SIZE) == Encode(seqn, SEQN_SIZE);
    }
  }
}
