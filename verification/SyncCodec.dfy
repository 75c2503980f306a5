/** Snapshot requests and replies as the bytes that travel between a worker and a broker. */
module SyncCodec {
  import opened Basics
  import opened Integers
  import opened Wire
  import opened Codec

  const SYNC: Bytes := [83, 89, 78, 67]
  const BEGN: Bytes := [66, 69, 71, 78]
  const ELEM: Bytes := [69, 76, 69, 77]
  const SONC: Bytes := [83, 79, 78, 67]

  /** A word, an 8-bit request number, and parameters. */
  const MESSAGE: seq<Field> := [Str, Num(1), Str]

  /** What a received message turns out to be. */
  datatype Seen<T> = Message(value: T) | Ignored | Thrown | Aborted

  function Words(word: Bytes, seqn: nat, params: Bytes): (vs: seq<Val>)
    requires seqn < 256 && |word| <= U32_MAX
    ensures AllOk(MESSAGE) && AllTyped(MESSAGE, vs) && (AllFit(MESSAGE, vs) <==> |params| <= U32_MAX)
  {
    Widths();
    var vs := [S(word), N(seqn), S(params)];
    EachTyped(MESSAGE, vs);
    EachOk(MESSAGE);
    assert forall i :: 0 <= i < 3 ==> Typed(MESSAGE[i], vs[i]);
    assert AllFit(MESSAGE, vs) <==> Fits(MESSAGE[0], vs[0]) && Fits(MESSAGE[1], vs[1]) && Fits(MESSAGE[2], vs[2]);
    vs
  }

  function Framed(word: Bytes, seqn: nat, params: Bytes): Option<Bytes>
    requires seqn < 256 && |word| <= U32_MAX
  {
    Packed(MESSAGE, Words(word, seqn, params))
  }

  /** The word, the number and the parameters of a message. */
  function Opened(b: Bytes): (r: Option<(Bytes, nat, Bytes)>)
    requires |b| < SIZE_LIMIT
    ensures r.Some? ==> r.value.1 < 256 && |r.value.2| <= U32_MAX
  {
    EachOk(MESSAGE);
    var vs := Unpack(MESSAGE, b, 0);
    if vs.None? then None
    else
      EachTyped(MESSAGE, vs.value);
      Widths();
      assert Typed(MESSAGE[0], vs.value[0]) && Typed(MESSAGE[1], vs.value[1]) && Typed(MESSAGE[2], vs.value[2]);
      assert Fits(MESSAGE[2], vs.value[2]);
      Some((vs.value[0].s, vs.value[1].n, vs.value[2].s))
  }

  lemma OpenFramed(word: Bytes, seqn: nat, params: Bytes)
    requires seqn < 256 && |word| <= U32_MAX
    ensures Framed(word, seqn, params).Some? <==> |params| <= U32_MAX
    ensures Framed(word, seqn, params).Some? && |Framed(word, seqn, params).value| < SIZE_LIMIT ==>
              Opened(Framed(word, seqn, params).value) == Some((word, seqn, params))
  {
    var vs := Words(word, seqn, params);
    if Framed(word, seqn, params).Some? && |Framed(word, seqn, params).value| < SIZE_LIMIT {
      var b := Framed(word, seqn, params).value;
      assert b + [] == b;
      UnpackOfPacked(MESSAGE, vs, []);
    }
  }

  lemma FrameSize(word: Bytes, seqn: nat, params: Bytes)
    requires seqn < 256 && |word| <= U32_MAX && |params| <= U32_MAX
    ensures Framed(word, seqn, params).Some? && |Framed(word, seqn, params).value| < SIZE_LIMIT
  {
    var vs := Words(word, seqn, params);
    EachTyped(MESSAGE, vs);
    ImagesBound(MESSAGE, vs, U32_MAX + LENGTH);
  }

  // ---------------------------------------------------------------- requests

  function RequestPart(seqn: nat, c: WorkerConfig): Option<Bytes>
    requires ConfigOk(c) && seqn < 256
  {
    var params := ConfigPart(c);
    if params.None? then None else Framed(SYNC, seqn, params.value)
  }

  /** What a broker makes of a command: other words are ignored. */
  function ReadRequest(b: Bytes): Seen<(nat, WorkerConfig)>
    requires |b| < SIZE_LIMIT
  {
    var m := Opened(b);
    if m.None? then Thrown
    else if m.value.0 != SYNC then Ignored
    else
      var c := ConfigFrom(m.value.2);
      if c.None? then Thrown else Message((m.value.1, c.value))
  }

  /** The broker reads what the worker asked for: its number and its whole configuration, names cut to 255 bytes. */
  lemma RequestRoundTrip(seqn: nat, c: WorkerConfig)
    requires ConfigOk(c) && seqn < 256 && RequestPart(seqn, c).Some?
    ensures |RequestPart(seqn, c).value| < SIZE_LIMIT
    ensures ReadRequest(RequestPart(seqn, c).value) == Message((seqn, c.(topicsNames := CutAll(c.topicsNames))))
  {
    hide ConfigPart; hide ConfigFrom; hide CutAll; hide Framed; hide Opened;
    var params := ConfigPart(c).value;
    OpenFramed(SYNC, seqn, params);
    FrameSize(SYNC, seqn, params);
    assert params + [] == params;
    ConfigRoundTrip(c, []);
  }

  // ---------------------------------------------------------------- replies

  predicate ReplyOk(m: SnapMsg) {
    && m.seqn < 256
    && (m.Elem? ==> TopicOk(m.topic))
    && (!m.Elem? ==> |m.broker| == UUID_SIZE)
  }

  function ReplyPart(m: SnapMsg): Option<Bytes>
    requires ReplyOk(m)
  {
    match m
    case Begin(n, u) => Framed(BEGN, n, u)
    case Elem(n, t) => if TopicPart(t).None? then None else Framed(ELEM, n, TopicPart(t).value)
    case Compl(n, u) => Framed(SONC, n, u)
  }

  /** A uuid is the first 16 bytes. */
  function UuidFrom(b: Bytes): Option<Uuid> { if |b| < UUID_SIZE then None else Some(b[..UUID_SIZE]) }

  /** What a worker makes of a reply. */
  function ReadReply(b: Bytes): Seen<SnapMsg>
    requires |b| < SIZE_LIMIT
  {
    var m := Opened(b);
    if m.None? then Thrown
    else
      var (word, seqn, params) := m.value;
      if word == BEGN then
        if UuidFrom(params).None? then Thrown else Message(Begin(seqn, UuidFrom(params).value))
      else if word == ELEM then
        var t := TopicFrom(params);
        if t.Throws? then Thrown else if t.Aborts? then Aborted else Message(Elem(seqn, t.value))
      else if word == SONC then
        if UuidFrom(params).None? then Thrown else Message(Compl(seqn, UuidFrom(params).value))
      else Ignored
  }

  /** The worker reads the reply the broker sent. */
  lemma ReplyRoundTrip(m: SnapMsg)
    requires ReplyOk(m) && ReplyPart(m).Some?
    ensures |ReplyPart(m).value| < SIZE_LIMIT && ReadReply(ReplyPart(m).value) == Message(m)
  {
    hide TopicPart; hide TopicFrom; hide Framed; hide Opened;
    match m
    case Begin(n, u) =>
      FrameSize(BEGN, n, u);
      OpenFramed(BEGN, n, u);
      assert u[..UUID_SIZE] == u;
    case Elem(n, t) =>
      var p := TopicPart(t).value;
      OpenFramed(ELEM, n, p);
      FrameSize(ELEM, n, p);
      assert p + [] == p;
      TopicRoundTrip(t, []);
    case Compl(n, u) =>
      FrameSize(SONC, n, u);
      OpenFramed(SONC, n, u);
      assert u[..UUID_SIZE] == u;
  }

  // ---------------------------------------------------------------- the layout

  /** Three fields: the word, one byte for the number, the parameters. */
  lemma FrameLayout(word: Bytes, seqn: nat, params: Bytes)
    requires seqn < 256 && |word| <= U32_MAX && |params| <= U32_MAX
    ensures Framed(word, seqn, params) ==
            Some((Encode(|word|, 4) + word) + ([seqn] + (Encode(|params|, 4) + params)))
  {
    var vs := Words(word, seqn, params);
    OneByte(seqn);
    hide Encode; hide Images;
    EachTyped(MESSAGE, vs);
    ThreeImages(MESSAGE, vs);
  }

  lemma ThreeImages(fs: seq<Field>, vs: seq<Val>)
    requires |fs| == |vs| == 3 && AllTyped(fs, vs) && forall i :: 0 <= i < 3 ==> Typed(fs[i], vs[i])
    ensures Images(fs, vs) == Image(fs[0], vs[0]) + (Image(fs[1], vs[1]) + Image(fs[2], vs[2]))
  {
    hide Image; hide Typed;
    var f, v := fs[1..], vs[1..];
    assert f[1..][1..] == [] && v[1..][1..] == [];
    assert Images(f[1..], v[1..]) == Image(fs[2], vs[2]) + [];
  }

  /** The words as they travel: "BEGN", "ELEM" and "SONC" from the broker, "SYNC" to it. */
  lemma WordsOnTheWire(m: SnapMsg, seqn: nat, c: WorkerConfig)
    requires ReplyOk(m) && ReplyPart(m).Some? && ConfigOk(c) && seqn < 256 && RequestPart(seqn, c).Some?
    ensures |ReplyPart(m).value| >= 8 && |RequestPart(seqn, c).value| >= 8
    ensures ReplyPart(m).value[4..8] ==
            if m.Begin? then [66, 69, 71, 78] else if m.Elem? then [69, 76, 69, 77] else [83, 79, 78, 67]
    ensures RequestPart(seqn, c).value[4..8] == [83, 89, 78, 67]
  {
    hide TopicPart; hide ConfigPart; hide Encode; hide Framed;
    OpenFramed(SYNC, seqn, ConfigPart(c).value);
    WordStands(SYNC, seqn, ConfigPart(c).value);
    var params := if m.Elem? then TopicPart(m.topic).value else m.broker;
    var word := if m.Begin? then BEGN else if m.Elem? then ELEM else SONC;
    OpenFramed(word, m.seqn, params);
    WordStands(word, m.seqn, params);
  }

  lemma WordStands(word: Bytes, seqn: nat, params: Bytes)
    requires seqn < 256 && |word| == 4 && |params| <= U32_MAX
    ensures var b := Framed(word, seqn, params); b.Some? && |b.value| >= 8 && b.value[4..8] == word
  {
    hide Framed;
    FrameLayout(word, seqn, params);
  }
}
