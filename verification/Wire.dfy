/** Typed fields laid out one after the other in a byte buffer. */
module Wire {
  import opened Basics
  import opened Integers

  /** Unsigned integers of some width in bytes, booleans, length-prefixed strings, and arrays of known size. */
  datatype Field = Num(width: nat) | Bool | Str | Arr(size: nat)

  datatype Val = N(n: nat) | B(b: bool) | S(s: Bytes)

  const U32_MAX: nat := 0xFFFF_FFFF

  /** Sizes and positions are unsigned 64-bit integers and wrap around. */
  const SIZE_LIMIT: nat := SEQ_LIMIT

  const LENGTH: nat := 4

  predicate Typed(f: Field, v: Val) {
    match f
    case Num(w) => v.N? && v.n < Pow256(w)
    case Bool => v.B?
    case Str => v.S?
    case Arr(k) => v.S? && |v.s| == k
  }

  predicate AllTyped(fs: seq<Field>, vs: seq<Val>) {
    |fs| == |vs| && (fs == [] || (Typed(fs[0], vs[0]) && AllTyped(fs[1..], vs[1..])))
  }

  /** A string of more than 2^32 - 1 bytes is refused. */
  predicate Fits(f: Field, v: Val)
    requires Typed(f, v)
  {
    f.Str? ==> |v.s| <= U32_MAX
  }

  predicate AllFit(fs: seq<Field>, vs: seq<Val>)
    requires AllTyped(fs, vs)
  {
    fs == [] || (Fits(fs[0], vs[0]) && AllFit(fs[1..], vs[1..]))
  }

  /** Room taken by a value (`tsize`). */
  function Size(f: Field, v: Val): nat
    requires Typed(f, v)
  {
    match f
    case Num(w) => w
    case Bool => 1
    case Str => LENGTH + |v.s|
    case Arr(_) => |v.s|
  }

  /** The bytes of one field. */
  function Image(f: Field, v: Val): (b: Bytes)
    requires Typed(f, v)
    ensures |b| == Size(f, v)
  {
    match f
    case Num(w) => Encode(v.n, w)
    case Bool => [if v.b then 1 else 0]
    case Str => Encode(|v.s|, LENGTH) + v.s
    case Arr(_) => v.s
  }

  function Images(fs: seq<Field>, vs: seq<Val>): Bytes
    requires AllTyped(fs, vs)
  {
    if fs == [] then [] else Image(fs[0], vs[0]) + Images(fs[1..], vs[1..])
  }

  /** What packing gives; nothing when a string is too long. */
  function Packed(fs: seq<Field>, vs: seq<Val>): Option<Bytes>
    requires AllTyped(fs, vs)
  {
    if AllFit(fs, vs) then Some(Images(fs, vs)) else None
  }

  // ---------------------------------------------------------------- reading

  /** The bounds check, in 64-bit arithmetic. */
  predicate OutOfBoundary(size: nat, pos: nat, sz: nat) {
    !(pos <= size && (pos + sz) % SIZE_LIMIT >= pos && (pos + sz) % SIZE_LIMIT <= size)
  }

  /** The check is exact: wrap-around never lets an access through and never refuses a good one. */
  lemma BoundaryExactly(size: nat, pos: nat, sz: nat)
    requires size < SIZE_LIMIT && pos < SIZE_LIMIT && sz < SIZE_LIMIT
    ensures OutOfBoundary(size, pos, sz) <==> pos + sz > size
  {
    if pos + sz >= SIZE_LIMIT {
      assert (pos + sz) % SIZE_LIMIT == pos + sz - SIZE_LIMIT;
    }
  }

  lemma LengthBelow(b: Bytes)
    requires |b| == LENGTH
    ensures Value(b) <= U32_MAX
  {
    EncodeOfValue(b);
    Widths();
  }

  /** Room taken by the field found at a position (`psize`); nothing when it would reach past the end. */
  function Extent(f: Field, b: Bytes, pos: nat): (r: Option<nat>)
    requires |b| < SIZE_LIMIT && pos <= |b| && FieldOk(f)
    ensures r.Some? ==> pos + r.value <= |b| && (f.Str? ==> r.value >= LENGTH)
  {
    match f
    case Num(w) => BoundaryExactly(|b|, pos, w); if OutOfBoundary(|b|, pos, w) then None else Some(w)
    case Bool => BoundaryExactly(|b|, pos, 1); if OutOfBoundary(|b|, pos, 1) then None else Some(1)
    case Str =>
      BoundaryExactly(|b|, pos, LENGTH);
      if OutOfBoundary(|b|, pos, LENGTH) then None
      else
        var len := Value(b[pos..pos + LENGTH]);
        LengthBelow(b[pos..pos + LENGTH]);
        BoundaryExactly(|b|, pos + LENGTH, len);
        if OutOfBoundary(|b|, pos + LENGTH, len) then None else Some(LENGTH + len)
    case Arr(k) => BoundaryExactly(|b|, pos, k); if OutOfBoundary(|b|, pos, k) then None else Some(k)
  }

  /** Sizes known at compile time are 64-bit sizes. */
  predicate FieldOk(f: Field) {
    match f
    case Num(w) => w < SIZE_LIMIT
    case Arr(k) => k < SIZE_LIMIT
    case _ => true
  }

  predicate AllOk(fs: seq<Field>) { fs == [] || (FieldOk(fs[0]) && AllOk(fs[1..])) }

  function Unpack1(f: Field, b: Bytes, pos: nat): (r: Option<Val>)
    requires |b| < SIZE_LIMIT && pos <= |b| && FieldOk(f)
    ensures r.Some? <==> Extent(f, b, pos).Some?
    ensures r.Some? ==> Typed(f, r.value) && Fits(f, r.value) && Size(f, r.value) == Extent(f, b, pos).value
  {
    var e := Extent(f, b, pos);
    if e.None? then None
    else
      var raw := b[pos..pos + e.value];
      match f
      case Num(w) => EncodeOfValue(raw); Some(N(Value(raw)))
      case Bool => Some(B(raw[0] != 0))
      case Str => LengthBelow(b[pos..pos + LENGTH]); Some(S(raw[LENGTH..]))
      case Arr(_) => Some(S(raw))
  }

  function Unpack(fs: seq<Field>, b: Bytes, pos: nat): (r: Option<seq<Val>>)
    requires |b| < SIZE_LIMIT && pos <= |b| && AllOk(fs)
    ensures r.Some? ==> AllTyped(fs, r.value) && AllFit(fs, r.value) && pos + |Images(fs, r.value)| <= |b|
  {
    if fs == [] then Some([])
    else
      var v := Unpack1(fs[0], b, pos);
      if v.None? then None
      else
        var rest := Unpack(fs[1..], b, pos + Size(fs[0], v.value));
        if rest.None? then None
        else
          var r := [v.value] + rest.value;
          assert r[1..] == rest.value;
          Some(r)
  }

  // ---------------------------------------------------------------- round trips

  /** The bytes of a field stand at a position. */
  predicate At(b: Bytes, pos: nat, image: Bytes) {
    pos + |image| <= |b| && b[pos..pos + |image|] == image
  }

  lemma Unpack1OfImage(f: Field, v: Val, b: Bytes, pos: nat)
    requires |b| < SIZE_LIMIT && pos <= |b| && FieldOk(f)
    requires Typed(f, v) && Fits(f, v) && At(b, pos, Image(f, v))
    ensures Unpack1(f, b, pos) == Some(v)
  {
    Widths();
    match f
    case Num(w) =>
      BoundaryExactly(|b|, pos, w);
      ValueOfEncode(v.n, w);
    case Bool =>
      BoundaryExactly(|b|, pos, 1);
      assert b[pos..pos + 1][0] == Image(f, v)[0];
    case Str =>
      var image := Image(f, v);
      BoundaryExactly(|b|, pos, LENGTH);
      BoundaryExactly(|b|, pos + LENGTH, |v.s|);
      ValueOfEncode(|v.s|, LENGTH);
      assert b[pos..pos + LENGTH] == image[..LENGTH] == Encode(|v.s|, LENGTH);
      assert image[LENGTH..] == v.s;
    case Arr(k) => BoundaryExactly(|b|, pos, k);
  }

  lemma AtSplit(b: Bytes, pos: nat, x: Bytes, y: Bytes)
    ensures At(b, pos, x + y) <==> At(b, pos, x) && At(b, pos + |x|, y)
  {
    if pos + |x| + |y| <= |b| {
      var s := b[pos..pos + |x + y|];
      assert s == b[pos..pos + |x|] + b[pos + |x|..pos + |x| + |y|];
      assert s[..|x|] == b[pos..pos + |x|] && s[|x|..] == b[pos + |x|..pos + |x| + |y|];
      assert (x + y)[..|x|] == x && (x + y)[|x|..] == y;
    }
  }

  lemma {:induction false} UnpackAtImages(fs: seq<Field>, vs: seq<Val>, b: Bytes, pos: nat)
    requires |b| < SIZE_LIMIT && pos <= |b| && AllOk(fs)
    requires AllTyped(fs, vs) && AllFit(fs, vs) && At(b, pos, Images(fs, vs))
    ensures Unpack(fs, b, pos) == Some(vs)
  {
    hide Unpack1; hide Image; hide Extent; hide Typed; hide Fits; hide FieldOk; hide Size;
    if fs != [] {
      AtSplit(b, pos, Image(fs[0], vs[0]), Images(fs[1..], vs[1..]));
      Unpack1OfImage(fs[0], vs[0], b, pos);
      UnpackAtImages(fs[1..], vs[1..], b, pos + Size(fs[0], vs[0]));
      assert vs == [vs[0]] + vs[1..];
    } else {
      assert vs == [];
    }
  }

  /** Whatever fields were packed, and whatever follows them, unpacking gives them back. */
  lemma UnpackOfPacked(fs: seq<Field>, vs: seq<Val>, suffix: Bytes)
    requires AllOk(fs) && AllTyped(fs, vs) && Packed(fs, vs).Some?
    requires |Packed(fs, vs).value + suffix| < SIZE_LIMIT
    ensures Unpack(fs, Packed(fs, vs).value + suffix, 0) == Some(vs)
  {
    var b := Packed(fs, vs).value;
    assert (b + suffix)[0..|b|] == b;
    UnpackAtImages(fs, vs, b + suffix, 0);
  }

  /** The byte read for each boolean is 0 or 1. */
  predicate CleanBools(fs: seq<Field>, b: Bytes, pos: nat)
    requires |b| < SIZE_LIMIT && pos <= |b| && AllOk(fs)
  {
    fs == [] ||
    var v := Unpack1(fs[0], b, pos);
    v.Some? && (fs[0].Bool? ==> b[pos] <= 1) && CleanBools(fs[1..], b, pos + Size(fs[0], v.value))
  }

  lemma ImageOfUnpack1(f: Field, b: Bytes, pos: nat)
    requires |b| < SIZE_LIMIT && pos <= |b| && FieldOk(f) && Unpack1(f, b, pos).Some?
    ensures At(b, pos, Image(f, Unpack1(f, b, pos).value)) <==> (f.Bool? ==> b[pos] <= 1)
  {
    hide Encode; hide Value; hide Pow256;
    var v := Unpack1(f, b, pos).value;
    var raw := b[pos..pos + Size(f, v)];
    match f
    case Num(w) => EncodeOfValue(raw);
    case Bool => assert raw == [b[pos]];
    case Str =>
      EncodeOfValue(b[pos..pos + LENGTH]);
      assert raw[..LENGTH] == b[pos..pos + LENGTH] == Encode(|v.s|, LENGTH);
      assert raw == raw[..LENGTH] + raw[LENGTH..];
    case Arr(_) =>
  }

  /** Packing what was unpacked gives back the bytes consumed, exactly when the booleans among them were 0 or 1. */
  lemma {:induction false} RepackExactly(fs: seq<Field>, b: Bytes, pos: nat)
    requires |b| < SIZE_LIMIT && pos <= |b| && AllOk(fs) && Unpack(fs, b, pos).Some?
    ensures var vs := Unpack(fs, b, pos).value;
            && Packed(fs, vs) == Some(Images(fs, vs))
            && (At(b, pos, Images(fs, vs)) <==> CleanBools(fs, b, pos))
  {
    hide Unpack1; hide Image; hide Extent; hide Typed; hide Fits; hide FieldOk; hide Size;
    if fs != [] {
      var v := Unpack1(fs[0], b, pos).value;
      var rest := Unpack(fs[1..], b, pos + Size(fs[0], v)).value;
      var vs := Unpack(fs, b, pos).value;
      assert vs == [v] + rest && vs[1..] == rest;
      ImageOfUnpack1(fs[0], b, pos);
      RepackExactly(fs[1..], b, pos + Size(fs[0], v));
      AtSplit(b, pos, Image(fs[0], v), Images(fs[1..], rest));
    }
  }

  lemma {:induction false} NoBoolsAreClean(fs: seq<Field>, b: Bytes, pos: nat)
    requires |b| < SIZE_LIMIT && pos <= |b| && AllOk(fs) && Unpack(fs, b, pos).Some? && Bool !in fs
    ensures CleanBools(fs, b, pos)
  {
    if fs != [] {
      NoBoolsAreClean(fs[1..], b, pos + Size(fs[0], Unpack1(fs[0], b, pos).value));
    }
  }

  /** Without boolean fields, unpacking succeeds exactly on the extensions of what some values pack to. */
  lemma UnpackExactly(fs: seq<Field>, b: Bytes)
    requires |b| < SIZE_LIMIT && AllOk(fs) && Bool !in fs
    ensures Unpack(fs, b, 0).Some? <==>
            exists vs :: AllTyped(fs, vs) && Packed(fs, vs).Some? && Packed(fs, vs).value <= b
  {
    if Unpack(fs, b, 0).Some? {
      var vs := Unpack(fs, b, 0).value;
      NoBoolsAreClean(fs, b, 0);
      RepackExactly(fs, b, 0);
      assert Packed(fs, vs).value <= b;
    }
    if vs :| AllTyped(fs, vs) && Packed(fs, vs).Some? && Packed(fs, vs).value <= b {
      UnpackAtImages(fs, vs, b, 0);
    }
  }

  // ---------------------------------------------------------------- the layout

  /** A boolean is the byte 1 or 0, a string its length in four bytes and its contents, an array its contents. */
  lemma ImageLayout(f: Field, v: Val)
    requires Typed(f, v)
    ensures f == Bool ==> Image(f, v) == if v.b then [1] else [0]
    ensures f == Str ==> Image(f, v) == Encode(|v.s|, 4) + v.s
    ensures f.Arr? ==> Image(f, v) == v.s
    ensures f.Num? ==> Image(f, v) == Encode(v.n, f.width)
  {
  }
}
