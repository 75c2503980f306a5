/** Values shared by every part of the model: bytes, uuids, topics and configurations. */
module Basics {

  datatype Option<+T> = None | Some(value: T)

  type byte = b: int | 0 <= b < 256

  type Bytes = seq<byte>

  /** A uuid is compared only for equality; on the wire it is a 16-byte array. */
  type Uuid = Bytes

  const NIL_UUID: Uuid := [0, 0, 0, 0, 0, 0, 0, 0, 0, 0, 0, 0, 0, 0, 0, 0]

  /** Sequence numbers are unsigned 64-bit integers. */
  const SEQ_LIMIT: nat := 0x1_0000_0000_0000_0000

  datatype Kind = State | Event

  datatype Topic = Topic(broker: Uuid, worker: Uuid, seqn: nat, name: Bytes, data: Bytes, kind: Kind)

  datatype WorkerConfig = WorkerConfig(
    uuid: Uuid, seqNum: nat, topicsAll: bool, topicsNames: seq<Bytes>,
    endpDelivery: seq<Bytes>, endpDispatch: seq<Bytes>, endpSnapshot: seq<Bytes>)

  /** The messages of a snapshot reply; `seqn` is the 8-bit number of the request. */
  datatype SnapMsg = Begin(seqn: nat, broker: Uuid) | Elem(seqn: nat, topic: Topic) | Compl(seqn: nat, broker: Uuid)

  /** Group names: "HUGZ" for keepalives, "UPDT" for topics. */
  const HUGZ: Bytes := [72, 85, 71, 90]
  const UPDT: Bytes := [85, 80, 68, 84]

  /** A name used as a group ends before its first zero byte. */
  function CString(s: Bytes): Bytes {
    if s == [] || s[0] == 0 then [] else [s[0]] + CString(s[1..])
  }

  /** It is the longest prefix without a zero byte, and so the whole of a name that has none. */
  lemma {:induction false} CStringExactly(s: Bytes)
    ensures CString(s) <= s && 0 !in CString(s)
    ensures CString(s) == s || s[|CString(s)|] == 0
    ensures 0 !in s <==> CString(s) == s
  {
    if s != [] {
      CStringExactly(s[1..]);
      assert s == [s[0]] + s[1..];
    }
  }

  /** A single-slot expiry notification: `stop` and `start` leave a pending expiry in place. */
  datatype Timer = Timer(armed: bool, pending: bool) {
    function Start(): Timer { this.(armed := true) }
    function Stop(): Timer { this.(armed := false) }
    function Consume(): Timer { this.(pending := false) }
    /** The interval elapses; a single-shot timer disarms itself. */
    function Expire(singleShot: bool): Timer {
      if armed then Timer(!singleShot, true) else this
    }
  }
}
