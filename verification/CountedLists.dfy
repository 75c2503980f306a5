/** Lists of items of one type: total size, number of items, then the items. */
module CountedLists {
  import opened Basics
  import opened Integers
  import opened Wire

  const HEADER: nat := 8

  function Repeat(f: Field, n: nat): (fs: seq<Field>)
    ensures |fs| == n
  {
    if n == 0 then [] else [f] + Repeat(f, n - 1)
  }

  predicate Items(f: Field, vs: seq<Val>) { AllTyped(Repeat(f, |vs|), vs) }

  function Total(f: Field, vs: seq<Val>): nat
    requires Items(f, vs)
  {
    HEADER + |Images(Repeat(f, |vs|), vs)|
  }

  /** What packing a list gives; nothing when its size or its count needs more than 32 bits. */
  function PackedList(f: Field, vs: seq<Val>): Option<Bytes>
    requires Items(f, vs)
  {
    if Total(f, vs) > U32_MAX || |vs| > U32_MAX then None
    else Some(Encode(Total(f, vs), LENGTH) + Encode(|vs|, LENGTH) + Images(Repeat(f, |vs|), vs))
  }

  const HEAD: seq<Field> := [Num(LENGTH), Num(LENGTH)]

  /** The number of items a buffer announces, if it is long enough to say. */
  function Announced(b: Bytes): Option<nat> {
    if |b| < HEADER then None else Some(Value(b[LENGTH..HEADER]))
  }

  /** What unpacking a list gives: the size in the header is not looked at. */
  function ReadList(f: Field, b: Bytes): (r: Option<seq<Val>>)
    requires |b| < SIZE_LIMIT && FieldOk(f)
    ensures r.Some? ==> Items(f, r.value) && Announced(b) == Some(|r.value|) && Total(f, r.value) <= |b|
  {
    if Announced(b).None? then None
    else
      var n := Announced(b).value;
      RepeatOk(f, n);
      var r := Unpack(Repeat(f, n), b, HEADER);
      r
  }

  lemma {:induction false} RepeatOk(f: Field, n: nat)
    requires FieldOk(f)
    ensures AllOk(Repeat(f, n))
  {
    if n > 0 {
      RepeatOk(f, n - 1);
      assert Repeat(f, n)[1..] == Repeat(f, n - 1);
    }
  }

  /** The header is read as two 32-bit numbers. */
  lemma HeaderIs(b: Bytes)
    requires |b| < SIZE_LIMIT
    ensures AllOk(HEAD)
    ensures Unpack(HEAD, b, 0).Some? <==> Announced(b).Some?
    ensures Announced(b).Some? ==>
              |Unpack(HEAD, b, 0).value| == 2 && Unpack(HEAD, b, 0).value[1] == N(Announced(b).value)
  {
    assert HEAD[1..] == [Num(LENGTH)] && HEAD[1..][1..] == [];
    BoundaryExactly(|b|, 0, LENGTH);
    if |b| >= LENGTH {
      BoundaryExactly(|b|, LENGTH, LENGTH);
      var second := Unpack1(Num(LENGTH), b, LENGTH);
      assert Unpack([Num(LENGTH)], b, LENGTH) == if second.None? then None else Some([second.value] + []);
      assert Unpack(HEAD, b, 0).Some? <==> Unpack(HEAD[1..], b, LENGTH).Some?;
    }
  }

  /** A total that fits bounds every item. */
  lemma {:induction false} TotalBoundsItems(fs: seq<Field>, vs: seq<Val>)
    requires AllTyped(fs, vs) && |Images(fs, vs)| <= U32_MAX
    ensures AllFit(fs, vs)
  {
    if fs != [] { TotalBoundsItems(fs[1..], vs[1..]); }
  }

  /** Unpacking a packed list gives its items back in order, duplicates included, whatever follows. */
  lemma ListRoundTrip(f: Field, vs: seq<Val>, suffix: Bytes)
    requires FieldOk(f) && Items(f, vs) && PackedList(f, vs).Some?
    requires |PackedList(f, vs).value + suffix| < SIZE_LIMIT
    ensures ReadList(f, PackedList(f, vs).value + suffix) == Some(vs)
  {
    var fs := Repeat(f, |vs|);
    var head := Encode(Total(f, vs), LENGTH);
    var body := Images(fs, vs);
    var p := PackedList(f, vs).value;
    var b := p + suffix;
    Widths();
    ValueOfEncode(|vs|, LENGTH);
    assert b[LENGTH..HEADER] == Encode(|vs|, LENGTH);
    assert b[HEADER..HEADER + |body|] == p[HEADER..] == body;
    RepeatOk(f, |vs|);
    TotalBoundsItems(fs, vs);
    UnpackAtImages(fs, vs, b, HEADER);
  }

  lemma {:induction false} RepeatHasNoBool(f: Field, n: nat)
    requires f != Bool
    ensures Bool !in Repeat(f, n)
  {
    if n > 0 { RepeatHasNoBool(f, n - 1); }
  }

  /** A list that was read packs to exactly the bytes it was read from, but for the size, which becomes the true one;
      only a list longer than 32 bits can say is refused. */
  lemma ListRepack(f: Field, b: Bytes)
    requires FieldOk(f) && f != Bool && |b| < SIZE_LIMIT && ReadList(f, b).Some?
    ensures var vs := ReadList(f, b).value;
            PackedList(f, vs) == if Total(f, vs) > U32_MAX then None
                                 else Some(Encode(Total(f, vs), LENGTH) + b[LENGTH..Total(f, vs)])
  {
    hide Images; hide Unpack; hide AllTyped; hide AllFit; hide Repeat; hide CleanBools; hide Value;
    hide Encode; hide AllOk;
    var vs := ReadList(f, b).value;
    var fs := Repeat(f, |vs|);
    RepeatOk(f, |vs|);
    RepeatHasNoBool(f, |vs|);
    NoBoolsAreClean(fs, b, HEADER);
    RepackExactly(fs, b, HEADER);
    CountBelow(b);
    assert Encode(|vs|, LENGTH) == b[LENGTH..HEADER];
    assert b[LENGTH..Total(f, vs)] == b[LENGTH..HEADER] + b[HEADER..Total(f, vs)];
    var head, count, body := Encode(Total(f, vs), LENGTH), Encode(|vs|, LENGTH), Images(fs, vs);
    assert b[HEADER..Total(f, vs)] == body;
    assert head + count + body == head + (count + body);
  }

  lemma CountBelow(b: Bytes)
    requires |b| >= HEADER
    ensures Value(b[LENGTH..HEADER]) <= U32_MAX && Encode(Value(b[LENGTH..HEADER]), LENGTH) == b[LENGTH..HEADER]
  {
    EncodeOfValue(b[LENGTH..HEADER]);
    Widths();
  }

  /** Only the bytes from the count on decide what is read. */
  lemma SizeIgnored(f: Field, b: Bytes, c: Bytes)
    requires FieldOk(f) && |b| < SIZE_LIMIT && |b| == |c| >= LENGTH && b[LENGTH..] == c[LENGTH..]
    ensures ReadList(f, b) == ReadList(f, c)
  {
    if |b| >= HEADER {
      assert b[LENGTH..HEADER] == b[LENGTH..][..LENGTH] == c[LENGTH..HEADER];
      RepeatOk(f, Announced(b).value);
      SameSlices(b, c, LENGTH);
      SameTail(Repeat(f, Announced(b).value), b, c, LENGTH, HEADER);
    }
  }

  ghost predicate SameFrom(b: Bytes, c: Bytes, from: nat) {
    |b| == |c| && forall i, j :: from <= i <= j <= |b| ==> b[i..j] == c[i..j]
  }

  lemma SameSlices(b: Bytes, c: Bytes, from: nat)
    requires |b| == |c| >= from && b[from..] == c[from..]
    ensures SameFrom(b, c, from)
  {
    forall i, j | from <= i <= j <= |b| ensures b[i..j] == c[i..j] {
      SliceOfTail(b, from, i, j);
      SliceOfTail(c, from, i, j);
    }
  }

  lemma SliceOfTail(b: Bytes, from: nat, i: nat, j: nat)
    requires from <= i <= j <= |b|
    ensures b[i..j] == b[from..][i - from..j - from]
  {
    var x, y := b[i..j], b[from..][i - from..j - from];
    forall k | 0 <= k < j - i ensures x[k] == y[k] {
      assert x[k] == b[i + k] && y[k] == b[from..][i - from + k];
    }
  }

  lemma {:induction false} SameTail(fs: seq<Field>, b: Bytes, c: Bytes, from: nat, pos: nat)
    requires AllOk(fs) && SameFrom(b, c, from) && from <= pos <= |b| < SIZE_LIMIT
    ensures Unpack(fs, b, pos) == Unpack(fs, c, pos)
  {
    hide Unpack1; hide Extent; hide Typed; hide Size;
    if fs != [] {
      Same1(fs[0], b, c, from, pos);
      var v := Unpack1(fs[0], b, pos);
      if v.Some? { SameTail(fs[1..], b, c, from, pos + Size(fs[0], v.value)); }
    }
  }

  lemma Same1(f: Field, b: Bytes, c: Bytes, from: nat, pos: nat)
    requires FieldOk(f) && SameFrom(b, c, from) && from <= pos <= |b| < SIZE_LIMIT
    ensures Unpack1(f, b, pos) == Unpack1(f, c, pos)
  {
    if pos + LENGTH <= |b| { assert b[pos..pos + LENGTH] == c[pos..pos + LENGTH]; }
    BoundaryExactly(|b|, pos, LENGTH);
    assert Extent(f, b, pos) == Extent(f, c, pos);
  }

  /** A packed list begins with its whole size and its number of items, four bytes each. */
  lemma ListLayout(f: Field, vs: seq<Val>)
    requires Items(f, vs) && PackedList(f, vs).Some?
    ensures var b := PackedList(f, vs).value;
            && |b| >= 8 && Value(b[..4]) == |b| && Value(b[4..8]) == |vs|
            && b[8..] == Images(Repeat(f, |vs|), vs)
  {
    hide Images; hide Repeat; hide AllTyped; hide Encode; hide Value;
    Widths();
    ValueOfEncode(Total(f, vs), LENGTH);
    ValueOfEncode(|vs|, LENGTH);
    var b, body := PackedList(f, vs).value, Images(Repeat(f, |vs|), vs);
    var x, y := Encode(Total(f, vs), LENGTH), Encode(|vs|, LENGTH);
    assert b == x + y + body;
    assert b[..4] == x && b[4..8] == y && b[8..] == body;
  }
}
