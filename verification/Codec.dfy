/** Topics and worker configurations as packed parts. */
module Codec {
  import opened Basics
  import opened Integers
  import opened Wire
  import opened CountedLists

  const NAME_MAX: nat := 255
  const UUID_SIZE: nat := 16
  const SEQN_SIZE: nat := 8

  const TOPIC: seq<Field> := [Num(SEQN_SIZE), Num(1), Arr(UUID_SIZE), Arr(UUID_SIZE), Str, Str]
  const CONFIG: seq<Field> := [Arr(UUID_SIZE), Num(SEQN_SIZE), Bool, Str, Str, Str, Str]

  /** Decoding returns, throws, or fails an assertion. */
  datatype Outcome<T> = Good(value: T) | Throws | Aborts

  /** A name keeps at most 255 bytes. */
  function Cut(name: Bytes): (r: Bytes)
    ensures r <= name && |r| == if |name| <= 255 then |name| else 255
  {
    if |name| <= NAME_MAX then name else name[..NAME_MAX]
  }

  // ---------------------------------------------------------------- topics

  predicate TopicOk(t: Topic) {
    |t.broker| == UUID_SIZE && |t.worker| == UUID_SIZE && t.seqn < SEQ_LIMIT && |t.name| <= NAME_MAX
  }

  function KindCode(k: Kind): nat { if k.State? then 0 else 1 }

  function TopicVals(t: Topic): (vs: seq<Val>)
    requires TopicOk(t)
    ensures AllTyped(TOPIC, vs) && (AllFit(TOPIC, vs) <==> |t.data| <= U32_MAX)
  {
    Widths();
    var vs := [N(t.seqn), N(KindCode(t.kind)), S(t.broker), S(t.worker), S(t.name), S(t.data)];
    SixTyped(TOPIC, vs);
    vs
  }

  lemma SixTyped(fs: seq<Field>, vs: seq<Val>)
    requires |fs| == |vs| == 6 && forall i :: 0 <= i < 6 ==> Typed(fs[i], vs[i])
    ensures AllTyped(fs, vs)
    ensures AllFit(fs, vs) <==> (&& Fits(fs[0], vs[0]) && Fits(fs[1], vs[1]) && Fits(fs[2], vs[2])
                                 && Fits(fs[3], vs[3]) && Fits(fs[4], vs[4]) && Fits(fs[5], vs[5]))
  {
    EachTyped(fs, vs);
  }

  lemma {:induction false} EachTyped(fs: seq<Field>, vs: seq<Val>)
    requires |fs| == |vs|
    ensures AllTyped(fs, vs) <==> forall i :: 0 <= i < |fs| ==> Typed(fs[i], vs[i])
    ensures AllTyped(fs, vs) ==> (AllFit(fs, vs) <==> forall i :: 0 <= i < |fs| ==> Fits(fs[i], vs[i]))
  {
    if fs != [] {
      EachTyped(fs[1..], vs[1..]);
      assert forall i :: 1 <= i < |fs| ==> fs[i] == fs[1..][i - 1] && vs[i] == vs[1..][i - 1];
      assert forall i :: 0 <= i < |fs| - 1 ==> fs[1..][i] == fs[i + 1] && vs[1..][i] == vs[i + 1];
    }
  }

  lemma FieldsOk()
    ensures AllOk(TOPIC) && AllOk(CONFIG)
  {
    EachOk(TOPIC);
    EachOk(CONFIG);
  }

  lemma {:induction false} EachOk(fs: seq<Field>)
    requires forall i :: 0 <= i < |fs| ==> FieldOk(fs[i])
    ensures AllOk(fs)
  {
    if fs != [] { EachOk(fs[1..]); }
  }

  /** `toPart`: nothing when the data is too long. */
  function TopicPart(t: Topic): Option<Bytes>
    requires TopicOk(t)
  {
    Packed(TOPIC, TopicVals(t))
  }

  /** The fields of a packed topic, in their order. */
  function TopicOf(vs: seq<Val>): (t: Topic)
    requires AllTyped(TOPIC, vs)
    ensures TopicOk(t)
  {
    EachTyped(TOPIC, vs);
    Widths();
    assert Typed(TOPIC[0], vs[0]) && Typed(TOPIC[1], vs[1]) && Typed(TOPIC[2], vs[2]);
    assert Typed(TOPIC[3], vs[3]) && Typed(TOPIC[4], vs[4]) && Typed(TOPIC[5], vs[5]);
    Topic(vs[2].s, vs[3].s, vs[0].n, Cut(vs[4].s), vs[5].s, if vs[1].n == 0 then State else Event)
  }

  predicate KnownKind(vs: seq<Val>)
    requires AllTyped(TOPIC, vs)
  {
    EachTyped(TOPIC, vs);
    assert Typed(TOPIC[1], vs[1]);
    vs[1].n <= 1
  }

  /** `fromPart`: an unknown kind fails an assertion. */
  function TopicFrom(b: Bytes): Outcome<Topic>
    requires |b| < SIZE_LIMIT
  {
    FieldsOk();
    var vs := Unpack(TOPIC, b, 0);
    if vs.None? then Throws
    else if !KnownKind(vs.value) then Aborts
    else Good(TopicOf(vs.value))
  }

  /** Decoding what was encoded gives the topic back, whatever follows it. */
  lemma TopicRoundTrip(t: Topic, suffix: Bytes)
    requires TopicOk(t) && TopicPart(t).Some? && |TopicPart(t).value + suffix| < SIZE_LIMIT
    ensures TopicFrom(TopicPart(t).value + suffix) == Good(t)
  {
    FieldsOk();
    UnpackOfPacked(TOPIC, TopicVals(t), suffix);
  }

  /** The fields of an encoded topic, in order: number, kind, broker, worker, name and data. */
  lemma TopicLayout(t: Topic)
    requires TopicOk(t) && TopicPart(t).Some?
    ensures TopicPart(t).value ==
            Encode(t.seqn, 8) + ([if t.kind.State? then 0 else 1] + (t.broker + (t.worker +
            ((Encode(|t.name|, 4) + t.name) + (Encode(|t.data|, 4) + t.data)))))
  {
    var vs := TopicVals(t);
    OneByte(KindCode(t.kind));
    hide Encode;
    SixImages(TOPIC, vs);
  }

  lemma OneByte(n: nat)
    requires n < 256
    ensures Encode(n, 1) == [n]
  {
  }

  lemma SixImages(fs: seq<Field>, vs: seq<Val>)
    requires |fs| == |vs| == 6 && AllTyped(fs, vs) && forall i :: 0 <= i < 6 ==> Typed(fs[i], vs[i])
    ensures Images(fs, vs) ==
            Image(fs[0], vs[0]) + (Image(fs[1], vs[1]) + (Image(fs[2], vs[2]) + (Image(fs[3], vs[3]) +
            (Image(fs[4], vs[4]) + Image(fs[5], vs[5])))))
  {
    hide Image;
    LastImages(fs[2..], vs[2..]);
    assert fs[1..][1..] == fs[2..] && vs[1..][1..] == vs[2..];
  }

  lemma LastImages(fs: seq<Field>, vs: seq<Val>)
    requires |fs| == |vs| == 4 && AllTyped(fs, vs) && forall i :: 0 <= i < 4 ==> Typed(fs[i], vs[i])
    ensures Images(fs, vs) ==
            Image(fs[0], vs[0]) + (Image(fs[1], vs[1]) + (Image(fs[2], vs[2]) + Image(fs[3], vs[3])))
  {
    hide Image;
    var f, v := fs[2..], vs[2..];
    assert fs[1..][1..] == f && vs[1..][1..] == v && f[1..][1..] == [] && v[1..][1..] == [];
    assert Images(f[1..], v[1..]) == Image(fs[3], vs[3]) + [];
    assert Images(f, v) == Image(fs[2], vs[2]) + Image(fs[3], vs[3]);
    assert Images(fs[1..], vs[1..]) == Image(fs[1], vs[1]) + Images(f, v);
  }

  /** The name as it stands in the buffer, before it is cut. */
  function RawName(b: Bytes): Bytes
    requires |b| < SIZE_LIMIT && TopicFrom(b).Good?
  {
    FieldsOk();
    EachTyped(TOPIC, Unpack(TOPIC, b, 0).value);
    assert Typed(TOPIC[4], Unpack(TOPIC, b, 0).value[4]);
    Unpack(TOPIC, b, 0).value[4].s
  }

  lemma TopicOfVals(vs: seq<Val>)
    requires AllTyped(TOPIC, vs) && KnownKind(vs)
    ensures vs[4].S? && TopicVals(TopicOf(vs)) == vs[4 := S(Cut(vs[4].s))]
  {
    EachTyped(TOPIC, vs);
    assert Typed(TOPIC[0], vs[0]) && Typed(TOPIC[1], vs[1]) && Typed(TOPIC[2], vs[2]);
    assert Typed(TOPIC[3], vs[3]) && Typed(TOPIC[4], vs[4]) && Typed(TOPIC[5], vs[5]);
    var t := TopicOf(vs);
    assert [N(t.seqn), N(KindCode(t.kind)), S(t.broker), S(t.worker), S(t.name), S(t.data)] == vs[4 := S(Cut(vs[4].s))];
  }

  /** What was decoded can be encoded, and gives back the bytes read exactly when the name among them was not cut. */
  lemma TopicRepack(b: Bytes)
    requires |b| < SIZE_LIMIT && TopicFrom(b).Good?
    ensures var p := TopicPart(TopicFrom(b).value);
            p.Some? && (p.value <= b <==> |RawName(b)| <= NAME_MAX)
  {
    FieldsOk();
    var vs := Unpack(TOPIC, b, 0).value;
    var t := TopicOf(vs);
    TopicOfVals(vs);
    EachTyped(TOPIC, vs);
    assert Fits(TOPIC[5], vs[5]);
    if |RawName(b)| <= NAME_MAX {
      assert vs[4 := S(Cut(vs[4].s))] == vs;
      NoBoolsAreClean(TOPIC, b, 0);
      RepackExactly(TOPIC, b, 0);
    } else if TopicPart(t).value <= b {
      UnpackAtImages(TOPIC, TopicVals(t), b, 0);
      assert false;
    }
  }

  // ---------------------------------------------------------------- patching the number

  /** The first eight bytes replaced, unless there are fewer. */
  function Patched(b: Bytes, seqn: nat): Option<Bytes> {
    if |b| < SEQN_SIZE then None else Some(Encode(seqn, SEQN_SIZE) + b[SEQN_SIZE..])
  }

  /** Patching an encoded topic is the same as encoding it with the other number. */
  lemma PatchIsReencoding(t: Topic, seqn: nat)
    requires TopicOk(t) && seqn < SEQ_LIMIT && TopicPart(t).Some?
    ensures Patched(TopicPart(t).value, seqn) == TopicPart(t.(seqn := seqn))
  {
    var v, w := TopicVals(t), TopicVals(t.(seqn := seqn));
    var head := Encode(t.seqn, SEQN_SIZE);
    assert v[1..] == w[1..];
    assert TopicPart(t).value == head + Images(TOPIC[1..], v[1..]);
    assert (head + Images(TOPIC[1..], v[1..]))[SEQN_SIZE..] == Images(TOPIC[1..], v[1..]);
  }

  /** On any buffer, patching is decoding, setting the number and keeping everything else; it turns no error into
      a success and no success into an error. */
  lemma PatchThenDecode(b: Bytes, seqn: nat)
    requires SEQN_SIZE <= |b| < SIZE_LIMIT && seqn < SEQ_LIMIT
    ensures var r := TopicFrom(Patched(b, seqn).value);
            if TopicFrom(b).Good? then r == Good(TopicFrom(b).value.(seqn := seqn)) else r == TopicFrom(b)
  {
    FieldsOk();
    var c := Patched(b, seqn).value;
    assert c[SEQN_SIZE..] == b[SEQN_SIZE..];
    SameSlices(b, c, SEQN_SIZE);
    SameTail(TOPIC[1..], b, c, SEQN_SIZE, SEQN_SIZE);
    assert At(c, 0, Image(Num(SEQN_SIZE), N(seqn)));
    Widths();
    Unpack1OfImage(Num(SEQN_SIZE), N(seqn), c, 0);
    BoundaryExactly(|b|, 0, SEQN_SIZE);
    PatchedVals(b, c, seqn);
  }

  lemma PatchedVals(b: Bytes, c: Bytes, seqn: nat)
    requires SEQN_SIZE <= |b| == |c| < SIZE_LIMIT && AllOk(TOPIC) && Typed(Num(SEQN_SIZE), N(seqn))
    requires Unpack1(TOPIC[0], b, 0).Some? && Unpack1(TOPIC[0], c, 0) == Some(N(seqn))
    requires Unpack(TOPIC[1..], b, SEQN_SIZE) == Unpack(TOPIC[1..], c, SEQN_SIZE)
    ensures var x, y := Unpack(TOPIC, b, 0), Unpack(TOPIC, c, 0);
            && (x.None? <==> y.None?)
            && (x.Some? ==> y.value == x.value[0 := N(seqn)])
  {
    var x, y := Unpack(TOPIC, b, 0), Unpack(TOPIC, c, 0);
    if x.Some? {
      assert y.value == [N(seqn)] + x.value[1..];
    }
  }

  // ---------------------------------------------------------------- configurations

  function Strings(xs: seq<Bytes>): (vs: seq<Val>)
    ensures |vs| == |xs| && Items(Str, vs)
  {
    if xs == [] then []
    else
      var vs := [S(xs[0])] + Strings(xs[1..]);
      assert vs[1..] == Strings(xs[1..]);
      vs
  }

  function Texts(vs: seq<Val>): (xs: seq<Bytes>)
    requires Items(Str, vs)
    ensures |xs| == |vs|
  {
    if vs == [] then [] else [vs[0].s] + Texts(vs[1..])
  }

  function CutAll(names: seq<Bytes>): (r: seq<Bytes>)
    ensures |r| == |names| && forall i :: 0 <= i < |r| ==> r[i] == Cut(names[i])
  {
    if names == [] then [] else [Cut(names[0])] + CutAll(names[1..])
  }

  function StringList(xs: seq<Bytes>): Option<Bytes> { PackedList(Str, Strings(xs)) }

  function ReadStrings(b: Bytes): Option<seq<Bytes>>
    requires |b| < SIZE_LIMIT
  {
    var r := ReadList(Str, b);
    if r.None? then None else Some(Texts(r.value))
  }

  lemma {:induction false} TextsOfStrings(xs: seq<Bytes>)
    ensures Texts(Strings(xs)) == xs
  {
    if xs != [] {
      TextsOfStrings(xs[1..]);
      assert Strings(xs)[1..] == Strings(xs[1..]);
      assert xs == [xs[0]] + xs[1..];
    }
  }

  lemma {:induction false} StringsOfTexts(vs: seq<Val>)
    requires Items(Str, vs)
    ensures Strings(Texts(vs)) == vs
  {
    if vs != [] {
      assert Repeat(Str, |vs|)[1..] == Repeat(Str, |vs| - 1);
      StringsOfTexts(vs[1..]);
      assert Texts(vs)[1..] == Texts(vs[1..]);
      assert vs == [vs[0]] + vs[1..];
    }
  }

  lemma StringsRoundTrip(xs: seq<Bytes>)
    requires StringList(xs).Some?
    ensures |StringList(xs).value| <= U32_MAX && ReadStrings(StringList(xs).value) == Some(xs)
  {
    hide Items; hide Images; hide Strings; hide Texts; hide Encode;
    var p := StringList(xs).value;
    assert p + [] == p;
    ListRoundTrip(Str, Strings(xs), []);
    TextsOfStrings(xs);
  }

  predicate ConfigOk(c: WorkerConfig) { |c.uuid| == UUID_SIZE && c.seqNum < SEQ_LIMIT }

  function ConfigVals(c: WorkerConfig, names: Bytes, delivery: Bytes, dispatch: Bytes, snapshot: Bytes): (vs: seq<Val>)
    requires ConfigOk(c) && |names| <= U32_MAX && |delivery| <= U32_MAX
    requires |dispatch| <= U32_MAX && |snapshot| <= U32_MAX
    ensures AllTyped(CONFIG, vs) && AllFit(CONFIG, vs)
  {
    Widths();
    var vs := [S(c.uuid), N(c.seqNum), B(c.topicsAll), S(names), S(delivery), S(dispatch), S(snapshot)];
    EachTyped(CONFIG, vs);
    vs
  }

  /** `toPart`: nothing when one of the four lists cannot be packed. */
  function ConfigPart(c: WorkerConfig): Option<Bytes>
    requires ConfigOk(c)
  {
    var names, delivery := StringList(c.topicsNames), StringList(c.endpDelivery);
    var dispatch, snapshot := StringList(c.endpDispatch), StringList(c.endpSnapshot);
    if names.None? || delivery.None? || dispatch.None? || snapshot.None? then None
    else Packed(CONFIG, ConfigVals(c, names.value, delivery.value, dispatch.value, snapshot.value))
  }

  function ConfigOf(vs: seq<Val>): Option<WorkerConfig>
    requires AllTyped(CONFIG, vs) && AllFit(CONFIG, vs)
  {
    EachTyped(CONFIG, vs);
    assert Typed(CONFIG[0], vs[0]) && Typed(CONFIG[1], vs[1]) && Typed(CONFIG[2], vs[2]) && Typed(CONFIG[3], vs[3]);
    assert Typed(CONFIG[4], vs[4]) && Typed(CONFIG[5], vs[5]) && Typed(CONFIG[6], vs[6]);
    assert Fits(CONFIG[3], vs[3]) && Fits(CONFIG[4], vs[4]) && Fits(CONFIG[5], vs[5]) && Fits(CONFIG[6], vs[6]);
    var names, delivery, dispatch, snapshot :=
      ReadStrings(vs[3].s), ReadStrings(vs[4].s), ReadStrings(vs[5].s), ReadStrings(vs[6].s);
    if names.None? || delivery.None? || dispatch.None? || snapshot.None? then None
    else Some(WorkerConfig(vs[0].s, vs[1].n, vs[2].b,
                           CutAll(names.value), delivery.value, dispatch.value, snapshot.value))
  }

  function ConfigFrom(b: Bytes): Option<WorkerConfig>
    requires |b| < SIZE_LIMIT
  {
    FieldsOk();
    var vs := Unpack(CONFIG, b, 0);
    if vs.None? then None else ConfigOf(vs.value)
  }

  /** Decoding an encoded configuration gives it back with every list in order, names cut to 255 bytes. */
  lemma ConfigRoundTrip(c: WorkerConfig, suffix: Bytes)
    requires ConfigOk(c) && ConfigPart(c).Some? && |ConfigPart(c).value + suffix| < SIZE_LIMIT
    ensures ConfigFrom(ConfigPart(c).value + suffix) == Some(c.(topicsNames := CutAll(c.topicsNames)))
  {
    hide ReadStrings; hide StringList; hide CutAll; hide Images; hide Unpack;
    StringsRoundTrip(c.topicsNames);
    StringsRoundTrip(c.endpDelivery);
    StringsRoundTrip(c.endpDispatch);
    StringsRoundTrip(c.endpSnapshot);
    FieldsOk();
    var vs := ConfigVals(c, StringList(c.topicsNames).value, StringList(c.endpDelivery).value,
                         StringList(c.endpDispatch).value, StringList(c.endpSnapshot).value);
    UnpackOfPacked(CONFIG, vs, suffix);
  }

  lemma MoreBy(n: nat, k: nat)
    requires n > 0
    ensures n * k == k + (n - 1) * k
  {
  }

  lemma {:induction false} ImagesBound(fs: seq<Field>, vs: seq<Val>, k: nat)
    requires AllTyped(fs, vs) && forall i :: 0 <= i < |fs| ==> Typed(fs[i], vs[i]) && Size(fs[i], vs[i]) <= k
    ensures |Images(fs, vs)| <= |fs| * k
  {
    hide Image; hide Typed; hide Size;
    if fs != [] {
      ImagesBound(fs[1..], vs[1..], k);
      MoreBy(|fs|, k);
    }
  }

  lemma {:induction false} CutShrinks(xs: seq<Bytes>)
    ensures Total(Str, Strings(CutAll(xs))) <= Total(Str, Strings(xs))
  {
    if xs != [] {
      var cut := CutAll(xs);
      assert cut[1..] == CutAll(xs[1..]);
      CutShrinks(xs[1..]);
      TotalStep(xs);
      TotalStep(cut);
    }
  }

  lemma TotalStep(xs: seq<Bytes>)
    requires xs != []
    ensures Total(Str, Strings(xs)) == LENGTH + |xs[0]| + Total(Str, Strings(xs[1..]))
  {
    assert Strings(xs)[1..] == Strings(xs[1..]);
    assert Repeat(Str, |xs|)[1..] == Repeat(Str, |xs| - 1);
  }

  /** A list that was read from a short enough buffer can be packed, as it is and with its names cut. */
  lemma ReadCanBePacked(b: Bytes)
    requires |b| <= U32_MAX && ReadStrings(b).Some?
    ensures StringList(ReadStrings(b).value).Some? && StringList(CutAll(ReadStrings(b).value)).Some?
  {
    hide Strings; hide Texts; hide Images; hide Items; hide CutAll;
    var vs := ReadList(Str, b).value;
    StringsOfTexts(vs);
    CountBelow(b);
    CutShrinks(Texts(vs));
  }

  lemma CutTwice(xs: seq<Bytes>)
    ensures CutAll(CutAll(xs)) == CutAll(xs)
  {
  }

  /** Any decoded configuration is in normal form: it can be encoded, and decodes to itself. */
  lemma DecodedIsNormal(b: Bytes)
    requires |b| < SIZE_LIMIT && ConfigFrom(b).Some?
    ensures var c := ConfigFrom(b).value;
            && ConfigOk(c) && ConfigPart(c).Some? && |ConfigPart(c).value| < SIZE_LIMIT
            && ConfigFrom(ConfigPart(c).value) == Some(c)
  {
    FieldsOk();
    var vs := Unpack(CONFIG, b, 0).value;
    var c := ConfigFrom(b).value;
    NormalParts(vs);
    CutTwice(ReadStrings(vs[3].s).value);
    var p := ConfigPart(c).value;
    assert p + [] == p;
    ConfigRoundTrip(c, []);
  }

  lemma NormalParts(vs: seq<Val>)
    requires AllTyped(CONFIG, vs) && AllFit(CONFIG, vs) && ConfigOf(vs).Some?
    ensures var c := ConfigOf(vs).value;
            && vs[3].S? && |vs[3].s| < SIZE_LIMIT && ReadStrings(vs[3].s).Some?
            && c.topicsNames == CutAll(ReadStrings(vs[3].s).value)
            && ConfigOk(c) && ConfigPart(c).Some? && |ConfigPart(c).value| < SIZE_LIMIT
  {
    hide ReadStrings; hide StringList; hide CutAll; hide Images;
    EachTyped(CONFIG, vs);
    assert Typed(CONFIG[0], vs[0]) && Typed(CONFIG[1], vs[1]) && Typed(CONFIG[2], vs[2]) && Typed(CONFIG[3], vs[3]);
    assert Typed(CONFIG[4], vs[4]) && Typed(CONFIG[5], vs[5]) && Typed(CONFIG[6], vs[6]);
    assert Fits(CONFIG[3], vs[3]) && Fits(CONFIG[4], vs[4]) && Fits(CONFIG[5], vs[5]) && Fits(CONFIG[6], vs[6]);
    Widths();
    ReadCanBePacked(vs[3].s);
    ReadCanBePacked(vs[4].s);
    ReadCanBePacked(vs[5].s);
    ReadCanBePacked(vs[6].s);
    var c := ConfigOf(vs).value;
    StringsRoundTrip(c.topicsNames);
    StringsRoundTrip(c.endpDelivery);
    StringsRoundTrip(c.endpDispatch);
    StringsRoundTrip(c.endpSnapshot);
    var ws := ConfigVals(c, StringList(c.topicsNames).value, StringList(c.endpDelivery).value,
                         StringList(c.endpDispatch).value, StringList(c.endpSnapshot).value);
    EachTyped(CONFIG, ws);
    ImagesBound(CONFIG, ws, U32_MAX + LENGTH);
  }
}
