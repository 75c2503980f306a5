/** The broker's topic store as a function of the topics it has received, and what it guarantees. */
module BrokerModel {
  import opened Basics
  import opened LruModel

  const NAMES: nat := 1024
  const PER_NAME: nat := 8
  const WORKERS: nat := 64

  type Inner = seq<(Uuid, Topic)>

  /** `topics`: stored names, each with its latest topic per worker. `workers`: last number per worker. */
  datatype Store = Store(topics: seq<(Bytes, Inner)>, workers: seq<(Uuid, nat)>)

  const EMPTY: Store := Store([], [])

  predicate Accepts(st: Store, t: Topic) {
    t.seqn > LastNumber(st.workers, t.worker)
  }

  /** The entry of a name is created, empty, before the topic is filtered. */
  function WithEntry(topics: seq<(Bytes, Inner)>, name: Bytes): seq<(Bytes, Inner)> {
    if Has(topics, name) then topics else Put(NAMES, topics, name, [])
  }

  /** Puts a topic into the inner cache of its name; the name keeps its place. */
  function PutInner(topics: seq<(Bytes, Inner)>, t: Topic): seq<(Bytes, Inner)> {
    if topics == [] then []
    else if topics[0].0 == t.name then [(t.name, Put(PER_NAME, topics[0].1, t.worker, t))] + topics[1..]
    else [topics[0]] + PutInner(topics[1..], t)
  }

  function StoreTopic(st: Store, t: Topic): Store {
    var topics := WithEntry(st.topics, t.name);
    if Accepts(st, t)
    then Store(PutInner(topics, t), Put(WORKERS, st.workers, t.worker, t.seqn))
    else Store(topics, st.workers)
  }

  /** The store after the first n of the received topics. */
  function After(ts: seq<Topic>, n: nat): Store
    requires n <= |ts|
  {
    if n == 0 then EMPTY else StoreTopic(After(ts, n - 1), ts[n - 1])
  }

  /** What the filter said of each of the first n topics. */
  function Verdicts(ts: seq<Topic>, n: nat): (r: seq<bool>)
    requires n <= |ts|
    ensures |r| == n
  {
    if n == 0 then [] else Verdicts(ts, n - 1) + [Accepts(After(ts, n - 1), ts[n - 1])]
  }

  predicate Accepted(ts: seq<Topic>, i: nat)
    requires i < |ts|
  {
    Verdicts(ts, |ts|)[i]
  }

  lemma AcceptedMeans(ts: seq<Topic>, i: nat)
    requires i < |ts|
    ensures Accepted(ts, i) <==> Accepts(After(ts, i), ts[i])
  {
    VerdictAt(ts, |ts|, i);
  }

  lemma {:induction false} VerdictAt(ts: seq<Topic>, n: nat, i: nat)
    requires i < n <= |ts|
    ensures Verdicts(ts, n)[i] <==> Accepts(After(ts, i), ts[i])
  {
    hide StoreTopic;
    if i < n - 1 { VerdictAt(ts, n - 1, i); }
  }

  // ---------------------------------------------------------------- the duplicate filter

  lemma WorkersStep(st: Store, t: Topic)
    ensures StoreTopic(st, t).workers ==
            if Accepts(st, t) then Put(WORKERS, st.workers, t.worker, t.seqn) else st.workers
  {
  }

  lemma {:induction false} WorkersInvariant(ts: seq<Topic>, n: nat)
    requires n <= |ts|
    ensures Distinct(After(ts, n).workers) && |After(ts, n).workers| <= WORKERS
  {
    hide StoreTopic; hide Put;
    if n > 0 {
      WorkersInvariant(ts, n - 1);
      WorkersStep(After(ts, n - 1), ts[n - 1]);
      PutBasics(WORKERS, After(ts, n - 1).workers, ts[n - 1].worker, ts[n - 1].seqn);
    }
  }

  /** The workers other than `w` with a topic accepted strictly between positions i and n. */
  ghost function OthersBetween(ts: seq<Topic>, i: nat, n: nat, w: Uuid): set<Uuid>
    requires n <= |ts|
  {
    set k | i < k < n && Accepted(ts, k) && ts[k].worker != w :: ts[k].worker
  }

  lemma {:induction false} RememberedUntilCrowdedOut(ts: seq<Topic>, i: nat, n: nat)
    requires i < n <= |ts| && Accepted(ts, i)
    requires |OthersBetween(ts, i, n, ts[i].worker)| < WORKERS
    ensures var w := ts[i].worker;
            var ws := After(ts, n).workers;
            && Has(ws, w) && LastNumber(ws, w) >= ts[i].seqn
            && LruModel.After(ws, w) <= OthersBetween(ts, i, n, w)
  {
    hide StoreTopic; hide Put;
    var w := ts[i].worker;
    var ws := After(ts, n - 1).workers;
    var x := ts[n - 1];
    WorkersStep(After(ts, n - 1), x);
    AcceptedMeans(ts, n - 1);
    WorkersInvariant(ts, n - 1);
    PutBasics(WORKERS, ws, x.worker, x.seqn);
    if i < n - 1 {
      var d := OthersBetween(ts, i, n - 1, w);
      var d' := OthersBetween(ts, i, n, w);
      assert d <= d';
      SubsetCardinality(d, d');
      RememberedUntilCrowdedOut(ts, i, n - 1);
      if Accepted(ts, n - 1) && x.worker != w {
        PutKeepsOrEvicts(WORKERS, ws, x.worker, x.seqn, w);
        assert LruModel.After(ws, w) + {x.worker} <= d';
        SubsetCardinality(LruModel.After(ws, w) + {x.worker}, d');
      }
    }
  }

  lemma {:induction false} SubsetCardinality<T>(a: set<T>, b: set<T>)
    requires a <= b
    ensures |a| <= |b|
  {
    if a != {} {
      var x :| x in a;
      SubsetCardinality(a - {x}, b - {x});
    }
  }

  /** A number not above an earlier accepted one of the same worker is accepted again only after
      at least 64 other workers had topics accepted in between. */
  lemma ReacceptanceNeedsEviction(ts: seq<Topic>, i: nat, j: nat)
    requires i < j < |ts| && Accepted(ts, i) && Accepted(ts, j)
    requires ts[i].worker == ts[j].worker && ts[j].seqn <= ts[i].seqn
    ensures |OthersBetween(ts, i, j, ts[i].worker)| >= 64
  {
    if |OthersBetween(ts, i, j, ts[i].worker)| < WORKERS {
      AcceptedMeans(ts, j);
      RememberedUntilCrowdedOut(ts, i, j);
    }
  }

  /** The number 0 is never accepted. */
  lemma ZeroNeverAccepted(ts: seq<Topic>, i: nat)
    requires i < |ts| && Accepted(ts, i)
    ensures ts[i].seqn > 0
  {
    AcceptedMeans(ts, i);
  }

  /** With at most 64 workers, accepted numbers per worker increase for ever; with any number of workers, accepted
      numbers are never 0. */
  lemma AtMostOnceForFewWorkers(ts: seq<Topic>)
    ensures forall i :: 0 <= i < |ts| && Accepted(ts, i) ==> ts[i].seqn > 0
    ensures |set k | 0 <= k < |ts| :: ts[k].worker| <= 64 ==> NumbersIncrease(ts)
  {
    forall i | 0 <= i < |ts| && Accepted(ts, i) ensures ts[i].seqn > 0 { ZeroNeverAccepted(ts, i); }
    if |set k | 0 <= k < |ts| :: ts[k].worker| <= 64 { FewWorkersIncrease(ts); }
  }

  /** The accepted numbers of each worker strictly increase. */
  ghost predicate NumbersIncrease(ts: seq<Topic>) {
    forall i, j :: 0 <= i < j < |ts| && Accepted(ts, i) && Accepted(ts, j) && ts[i].worker == ts[j].worker
      ==> ts[i].seqn < ts[j].seqn
  }

  lemma FewWorkersIncrease(ts: seq<Topic>)
    requires |set k | 0 <= k < |ts| :: ts[k].worker| <= WORKERS
    ensures NumbersIncrease(ts)
  {
    var all := set k | 0 <= k < |ts| :: ts[k].worker;
    forall i, j | 0 <= i < j < |ts| && Accepted(ts, i) && Accepted(ts, j) && ts[i].worker == ts[j].worker
      ensures ts[i].seqn < ts[j].seqn
    {
      var others := OthersBetween(ts, i, j, ts[i].worker);
      assert others <= all - {ts[i].worker};
      SubsetCardinality(others, all - {ts[i].worker});
      if ts[j].seqn <= ts[i].seqn {
        ReacceptanceNeedsEviction(ts, i, j);
      }
    }
  }

  /** The accepted topics among the first n, as (worker, number). */
  function AcceptedPairs(ts: seq<Topic>, n: nat): seq<(Uuid, nat)>
    requires n <= |ts|
  {
    if n == 0 then []
    else if Accepted(ts, n - 1) then AcceptedPairs(ts, n - 1) + [(ts[n - 1].worker, ts[n - 1].seqn)]
    else AcceptedPairs(ts, n - 1)
  }

  /** Exactly when a topic is accepted: its number must exceed the last accepted one of its worker, where only
      the 64 workers accepted most recently are remembered and the others count as 0. */
  lemma {:induction false} AcceptanceExactly(ts: seq<Topic>, n: nat)
    requires n <= |ts|
    ensures After(ts, n).workers == Suffix(Latest(AcceptedPairs(ts, n)), 64)
    ensures n < |ts| ==> (Accepted(ts, n) <==>
                          ts[n].seqn > LastNumber(Suffix(Latest(AcceptedPairs(ts, n)), 64), ts[n].worker))
  {
    assert After(ts, n).workers == Puts(WORKERS, AcceptedPairs(ts, n)) by { WorkersArePuts(ts, n); }
    PutsIsSuffixOfLatest(WORKERS, AcceptedPairs(ts, n));
    if n < |ts| { AcceptedMeans(ts, n); }
  }

  lemma {:induction false} WorkersArePuts(ts: seq<Topic>, n: nat)
    requires n <= |ts|
    ensures After(ts, n).workers == Puts(WORKERS, AcceptedPairs(ts, n))
  {
    hide StoreTopic; hide Put; hide Accepts;
    if n > 0 {
      WorkersStep(After(ts, n - 1), ts[n - 1]);
      WorkersArePuts(ts, n - 1);
      AcceptedMeans(ts, n - 1);
      PutsSnoc(WORKERS, AcceptedPairs(ts, n - 1), (ts[n - 1].worker, ts[n - 1].seqn));
    }
  }

  /** The bound is exact: 64 topics from distinct other workers always make room for a repeat. */
  lemma SixtyFourOthersSuffice(t: Topic, us: seq<Topic>)
    requires |us| == 64 && t.seqn > 0
    requires forall k :: 0 <= k < |us| ==> us[k].worker != t.worker && us[k].seqn > 0
    requires forall k, l :: 0 <= k < l < |us| ==> us[k].worker != us[l].worker
    ensures var ts := [t] + us + [t]; Accepted(ts, 0) && Accepted(ts, |ts| - 1)
  {
    var ts := [t] + us + [t];
    AcceptedMeans(ts, 0);
    AcceptedMeans(ts, |ts| - 1);
    FreshWorkersFill(ts, WORKERS);
    var ws := After(ts, WORKERS).workers;
    var x := ts[WORKERS];
    FreshIsAbsent(ts, 0, WORKERS, x.worker);
    assert After(ts, WORKERS + 1).workers == ws[1..] + [(x.worker, x.seqn)];
    FreshIsAbsent(ts, 1, WORKERS, t.worker);
    assert ws[1..] == Pairs(ts, 1, WORKERS);
    Snoc(ws[1..], (x.worker, x.seqn), t.worker);
  }

  function Pairs(ts: seq<Topic>, from: nat, n: nat): seq<(Uuid, nat)>
    requires from <= n <= |ts|
  {
    seq(n - from, i requires 0 <= i < n - from => (ts[from + i].worker, ts[from + i].seqn))
  }

  lemma {:induction false} FreshIsAbsent(ts: seq<Topic>, from: nat, n: nat, w: Uuid)
    requires from <= n <= |ts|
    requires forall k :: from <= k < n ==> ts[k].worker != w
    ensures !Has(Pairs(ts, from, n), w)
    decreases n - from
  {
    if from < n {
      assert Pairs(ts, from, n)[1..] == Pairs(ts, from + 1, n);
      FreshIsAbsent(ts, from + 1, n, w);
    }
  }

  lemma {:induction false} FreshWorkersFill(ts: seq<Topic>, n: nat)
    requires n <= |ts| && n <= WORKERS
    requires forall k :: 0 <= k < n ==> ts[k].seqn > 0
    requires forall k, l :: 0 <= k < l < n ==> ts[k].worker != ts[l].worker
    ensures After(ts, n).workers == Pairs(ts, 0, n)
  {
    if n > 0 {
      FreshWorkersFill(ts, n - 1);
      FreshIsAbsent(ts, 0, n - 1, ts[n - 1].worker);
      assert Pairs(ts, 0, n) == Pairs(ts, 0, n - 1) + [(ts[n - 1].worker, ts[n - 1].seqn)];
    }
  }

  // ---------------------------------------------------------------- the stored topics

  /** The position of the topic that created the present entry of a stored name. */
  ghost function EntryStart(ts: seq<Topic>, n: nat, name: Bytes): nat
    requires n <= |ts|
    ensures n > 0 ==> EntryStart(ts, n, name) < n
  {
    if n <= 1 then 0
    else if Has(After(ts, n - 1).topics, name) then EntryStart(ts, n - 1, name)
    else n - 1
  }

  /** The topics of a name accepted at positions from..n-1, in order. */
  ghost function AcceptedIn(ts: seq<Topic>, from: nat, n: nat, name: Bytes): Inner
    requires n <= |ts|
  {
    if n <= from then []
    else if Accepted(ts, n - 1) && ts[n - 1].name == name
    then AcceptedIn(ts, from, n - 1, name) + [(ts[n - 1].worker, ts[n - 1])]
    else AcceptedIn(ts, from, n - 1, name)
  }

  lemma {:induction false} PutInnerEffect(topics: seq<(Bytes, Inner)>, t: Topic, name: Bytes)
    requires Distinct(topics)
    ensures var r := PutInner(topics, t);
            && Distinct(r) && |r| == |topics| && KeySet(r) == KeySet(topics)
            && (Has(r, name) <==> Has(topics, name))
            && (name != t.name ==> Lookup(r, name) == Lookup(topics, name))
            && (Has(topics, t.name) ==>
                Lookup(r, t.name) == Some(Put(PER_NAME, Lookup(topics, t.name).value, t.worker, t)))
  {
    if topics != [] {
      PutInnerEffect(topics[1..], t, name);
      PutInnerEffect(topics[1..], t, topics[0].0);
    }
  }

  lemma {:induction false} TopicsInvariant(ts: seq<Topic>, n: nat)
    requires n <= |ts|
    ensures Distinct(After(ts, n).topics) && |After(ts, n).topics| <= NAMES
  {
    hide Put;
    if n > 0 {
      TopicsInvariant(ts, n - 1);
      var t := ts[n - 1];
      PutBasics(NAMES, After(ts, n - 1).topics, t.name, []);
      PutInnerEffect(WithEntry(After(ts, n - 1).topics, t.name), t, t.name);
    }
  }

  /** One step on the entry of one name: created empty, extended by an accepted topic, kept, or evicted. */
  lemma EntryStep(st: Store, t: Topic, name: Bytes)
    requires Distinct(st.topics) && |st.topics| <= NAMES
    ensures var r := StoreTopic(st, t).topics;
            var before := if Has(st.topics, name) then Lookup(st.topics, name).value else [];
            var after := if Accepts(st, t) then Put(PER_NAME, before, t.worker, t) else before;
            && (name == t.name ==> Lookup(r, name) == Some(after))
            && (name != t.name && Has(r, name) ==> Lookup(r, name) == Lookup(st.topics, name))
  {
    var topics := WithEntry(st.topics, t.name);
    if !Has(st.topics, t.name) {
      PutBasics(NAMES, st.topics, t.name, []);
      if name != t.name && Has(st.topics, name) {
        PutKeepsOrEvicts(NAMES, st.topics, t.name, [], name);
      } else if name != t.name {
        Snoc(st.topics, (t.name, []), name);
        if |st.topics| >= NAMES { Snoc(st.topics[1..], (t.name, []), name); }
      }
    }
    PutInnerEffect(topics, t, name);
  }

  /** Every stored name holds the last 8 workers' topics accepted since its entry was created, latest last. */
  lemma {:induction false} EntryHoldsAcceptedSinceCreation(ts: seq<Topic>, n: nat, name: Bytes)
    requires n <= |ts| && Has(After(ts, n).topics, name)
    ensures Lookup(After(ts, n).topics, name)
              == Some(Puts(8, AcceptedIn(ts, EntryStart(ts, n, name), n, name)))
    ensures ts[EntryStart(ts, n, name)].name == name
  {
    hide StoreTopic; hide Put; hide Accepts; hide Lookup;
    var st := After(ts, n - 1);
    var s := EntryStart(ts, n, name);
    var h := AcceptedIn(ts, s, n - 1, name);
    TopicsInvariant(ts, n - 1);
    AcceptedMeans(ts, n - 1);
    EntryStep(st, ts[n - 1], name);
    if Has(st.topics, name) {
      EntryHoldsAcceptedSinceCreation(ts, n - 1, name);
      assert Lookup(st.topics, name) == Some(Puts(PER_NAME, h));
    } else {
      assert Puts(PER_NAME, h) == [];
    }
    ExtendEntry(ts, s, n, name);
  }

  lemma ExtendEntry(ts: seq<Topic>, from: nat, n: nat, name: Bytes)
    requires from < n <= |ts|
    ensures var t := ts[n - 1];
            var h := AcceptedIn(ts, from, n - 1, name);
            Puts(PER_NAME, AcceptedIn(ts, from, n, name)) ==
            if Accepted(ts, n - 1) && t.name == name then Put(PER_NAME, Puts(PER_NAME, h), t.worker, t)
            else Puts(PER_NAME, h)
  {
    PutsSnoc(PER_NAME, AcceptedIn(ts, from, n - 1, name), (ts[n - 1].worker, ts[n - 1]));
  }

  /** A topic of the name was accepted after its present entry was created. */
  ghost predicate AcceptedSinceCreation(ts: seq<Topic>, n: nat, name: Bytes)
    requires n <= |ts| && Has(After(ts, n).topics, name)
  {
    exists k :: EntryStart(ts, n, name) <= k < n && Accepted(ts, k) && ts[k].name == name
  }

  lemma {:induction false} AcceptedInEmpty(ts: seq<Topic>, from: nat, n: nat, name: Bytes)
    requires n <= |ts|
    ensures AcceptedIn(ts, from, n, name) != [] <==> exists k :: from <= k < n && Accepted(ts, k) && ts[k].name == name
  {
    hide Accepted;
    if n > from {
      AcceptedInEmpty(ts, from, n - 1, name);
      if Accepted(ts, n - 1) && ts[n - 1].name == name {
        assert from <= n - 1 < n;
      }
    }
  }

  /** An inner cache is empty exactly when no topic of its name was accepted since its entry was created. */
  lemma EmptyEntryExactly(ts: seq<Topic>, n: nat, name: Bytes)
    requires n <= |ts| && Has(After(ts, n).topics, name)
    ensures Lookup(After(ts, n).topics, name).value != [] <==> AcceptedSinceCreation(ts, n, name)
  {
    var h := AcceptedIn(ts, EntryStart(ts, n, name), n, name);
    EntryHoldsAcceptedSinceCreation(ts, n, name);
    AcceptedInEmpty(ts, EntryStart(ts, n, name), n, name);
    PutsLast(PER_NAME, h);
  }

  lemma PutsLast<K, V>(capacity: nat, h: seq<(K, V)>)
    ensures h == [] ==> Puts(capacity, h) == []
    ensures h != [] ==> Puts(capacity, h) != [] && Puts(capacity, h)[|Puts(capacity, h)| - 1] == h[|h| - 1]
  {
  }

  // ---------------------------------------------------------------- against an append-only log

  /** The distinct names received, in order of first arrival. */
  function Arrivals(ts: seq<Topic>, n: nat): seq<Bytes>
    requires n <= |ts|
  {
    if n == 0 then []
    else
      var a := Arrivals(ts, n - 1);
      if ts[n - 1].name in a then a else a + [ts[n - 1].name]
  }

  function Keys(topics: seq<(Bytes, Inner)>): seq<Bytes> {
    if topics == [] then [] else [topics[0].0] + Keys(topics[1..])
  }

  /** The last accepted topic of a name. */
  ghost function LastAccepted(ts: seq<Topic>, n: nat, name: Bytes): Option<Topic>
    requires n <= |ts|
  {
    if n == 0 then None
    else if Accepted(ts, n - 1) && ts[n - 1].name == name then Some(ts[n - 1])
    else LastAccepted(ts, n - 1, name)
  }

  lemma {:induction false} KeysFacts(s: seq<(Bytes, Inner)>, x: (Bytes, Inner), k: Bytes)
    ensures Keys(s + [x]) == Keys(s) + [x.0]
    ensures k in Keys(s) <==> Has(s, k)
    ensures |Keys(s)| == |s|
  {
    if s == [] {
      assert s + [x] == [x];
    } else {
      assert (s + [x])[1..] == s[1..] + [x];
      KeysFacts(s[1..], x, k);
    }
  }

  lemma {:induction false} PutInnerKeys(topics: seq<(Bytes, Inner)>, t: Topic)
    ensures Keys(PutInner(topics, t)) == Keys(topics)
  {
    if topics != [] && topics[0].0 != t.name {
      PutInnerKeys(topics[1..], t);
    }
  }

  /** The names among the first n topics. */
  function NamesOf(ts: seq<Topic>, n: nat): set<Bytes>
    requires n <= |ts|
  {
    set k | 0 <= k < n :: ts[k].name
  }

  lemma NamesOfNext(ts: seq<Topic>, n: nat)
    requires 0 < n <= |ts|
    ensures NamesOf(ts, n) == NamesOf(ts, n - 1) + {ts[n - 1].name}
  {
  }

  lemma {:induction false} ArrivalsCount(ts: seq<Topic>, n: nat)
    requires n <= |ts|
    ensures |Arrivals(ts, n)| == |NamesOf(ts, n)|
    ensures forall x :: x in Arrivals(ts, n) <==> x in NamesOf(ts, n)
  {
    if n > 0 {
      ArrivalsCount(ts, n - 1);
      NamesOfNext(ts, n);
      hide NamesOf;
      var a, last := Arrivals(ts, n - 1), ts[n - 1].name;
      WithOne(NamesOf(ts, n - 1), last);
      assert Arrivals(ts, n) == if last in a then a else a + [last];
      assert last in a <==> last in NamesOf(ts, n - 1);
    }
  }

  lemma WithOne<T>(s: set<T>, x: T)
    ensures |s + {x}| == |s| + if x in s then 0 else 1
  {
    if x in s { assert s + {x} == s; }
  }

  lemma {:induction false} NamesInArrivalOrder(ts: seq<Topic>, n: nat)
    requires n <= |ts| && |Arrivals(ts, n)| <= 1024
    ensures Keys(After(ts, n).topics) == Arrivals(ts, n)
  {
    if n > 0 {
      NamesInArrivalOrder(ts, n - 1);
      var st := After(ts, n - 1);
      var t := ts[n - 1];
      KeysFacts(st.topics, (t.name, []), t.name);
      PutInnerKeys(WithEntry(st.topics, t.name), t);
    }
  }

  /** A name that has not arrived has no entry, so the first arrival is what created the entry. */
  lemma {:induction false} NothingBeforeEntry(ts: seq<Topic>, n: nat, name: Bytes)
    requires n <= |ts| && |Arrivals(ts, n)| <= NAMES && Has(After(ts, n).topics, name)
    ensures AcceptedIn(ts, EntryStart(ts, n, name), n, name) == AcceptedIn(ts, 0, n, name)
  {
    var st := After(ts, n - 1);
    hide StoreTopic;
    if Has(st.topics, name) {
      NothingBeforeEntry(ts, n - 1, name);
    } else {
      NamesInArrivalOrder(ts, n - 1);
      KeysFacts(st.topics, (name, []), name);
      ArrivalsCount(ts, n - 1);
      AcceptedInEmpty(ts, 0, n - 1, name);
    }
  }

  lemma {:induction false} LastOfAccepted(ts: seq<Topic>, n: nat, name: Bytes)
    requires n <= |ts|
    ensures var h := AcceptedIn(ts, 0, n, name);
            LastAccepted(ts, n, name) == if h == [] then None else Some(h[|h| - 1].1)
  {
    if n > 0 { LastOfAccepted(ts, n - 1, name); }
  }

  lemma {:induction false} LastAcceptedArrived(ts: seq<Topic>, n: nat, name: Bytes)
    requires n <= |ts| && LastAccepted(ts, n, name).Some?
    ensures name in Arrivals(ts, n)
  {
    hide Accepted;
    if !(Accepted(ts, n - 1) && ts[n - 1].name == name) { LastAcceptedArrived(ts, n - 1, name); }
  }

  /** The last topic of an inner cache, if any. */
  function Back(inner: Inner): Option<Topic> {
    if inner == [] then None else Some(inner[|inner| - 1].1)
  }

  /** While at most 1024 names have been received, the store is the log read back: names in order of first
      arrival, and behind each name the last topic accepted for it, whatever was evicted inside. */
  lemma StoreRefinesLog(ts: seq<Topic>, n: nat)
    requires n <= |ts| && |NamesOf(ts, n)| <= 1024
    ensures Keys(After(ts, n).topics) == Arrivals(ts, n)
    ensures forall name :: Has(After(ts, n).topics, name) ==>
              Back(Lookup(After(ts, n).topics, name).value) == LastAccepted(ts, n, name)
  {
    ArrivalsCount(ts, n);
    NamesInArrivalOrder(ts, n);
    forall name | Has(After(ts, n).topics, name)
      ensures Back(Lookup(After(ts, n).topics, name).value) == LastAccepted(ts, n, name)
    {
      EntryHoldsAcceptedSinceCreation(ts, n, name);
      NothingBeforeEntry(ts, n, name);
      LastOfAccepted(ts, n, name);
      PutsLast(PER_NAME, AcceptedIn(ts, 0, n, name));
    }
  }

  // ---------------------------------------------------------------- snapshot replies

  predicate Wanted(conf: WorkerConfig, t: Topic) {
    t.kind != Event && (conf.topicsAll || t.name in conf.topicsNames)
  }

  /** The elements sent, in store order, up to the first empty entry. */
  function Elements(topics: seq<(Bytes, Inner)>, seqn: nat, conf: WorkerConfig): seq<SnapMsg> {
    if topics == [] || topics[0].1 == [] then []
    else
      var t := Back(topics[0].1).value;
      (if Wanted(conf, t) then [Elem(seqn, t)] else []) + Elements(topics[1..], seqn, conf)
  }

  /** The assertion made on every entry while a snapshot is sent. */
  predicate NoEmptyEntry(topics: seq<(Bytes, Inner)>) {
    topics == [] || (topics[0].1 != [] && NoEmptyEntry(topics[1..]))
  }

  /** Everything a request is answered with when no send fails; an empty entry stops it before the end. */
  function FullReply(st: Store, broker: Uuid, seqn: nat, conf: WorkerConfig): seq<SnapMsg> {
    [Begin(seqn, broker)] + Elements(st.topics, seqn, conf) +
    if NoEmptyEntry(st.topics) then [Compl(seqn, broker)] else []
  }

  lemma {:induction false} NonEmptyAt(topics: seq<(Bytes, Inner)>, name: Bytes)
    requires NoEmptyEntry(topics) && Has(topics, name)
    ensures Lookup(topics, name).value != []
  {
    if topics[0].0 != name { NonEmptyAt(topics[1..], name); }
  }

  lemma {:induction false} SomeEmpty(topics: seq<(Bytes, Inner)>) returns (name: Bytes)
    requires Distinct(topics) && !NoEmptyEntry(topics)
    ensures Has(topics, name) && Lookup(topics, name).value == []
  {
    if topics[0].1 == [] {
      name := topics[0].0;
    } else {
      name := SomeEmpty(topics[1..]);
    }
  }

  lemma NoEmptyEntryMeans(topics: seq<(Bytes, Inner)>)
    requires Distinct(topics)
    ensures NoEmptyEntry(topics) <==> forall name :: Has(topics, name) ==> Lookup(topics, name).value != []
  {
    hide NoEmptyEntry; hide Has; hide Lookup; hide Distinct;
    if NoEmptyEntry(topics) {
      forall name | Has(topics, name) ensures Lookup(topics, name).value != [] {
        NonEmptyAt(topics, name);
      }
    } else {
      var name := SomeEmpty(topics);
    }
  }

  /** The snapshot's assertion holds exactly when every stored name had a topic accepted since its entry was created. */
  lemma SnapshotAssertionExactly(ts: seq<Topic>, n: nat)
    requires n <= |ts|
    ensures NoEmptyEntry(After(ts, n).topics) <==>
            forall name :: Has(After(ts, n).topics, name) ==> AcceptedSinceCreation(ts, n, name)
  {
    TopicsInvariant(ts, n);
    NoEmptyEntryMeans(After(ts, n).topics);
    forall name | Has(After(ts, n).topics, name)
      ensures Lookup(After(ts, n).topics, name).value != [] <==> AcceptedSinceCreation(ts, n, name)
    {
      EmptyEntryExactly(ts, n, name);
    }
  }

  /** The assertion is not an invariant: two topics of one worker under different names, received in the wrong order,
      leave an empty entry under the name of the late one. */
  lemma LateTopicBreaksSnapshot(t: Topic, late: Topic)
    requires t.worker == late.worker && late.seqn <= t.seqn && t.name != late.name
    ensures !NoEmptyEntry(After([t, late], 2).topics)
  {
    var ts := [t, late];
    assert After(ts, 0) == EMPTY;
    var a := After(ts, 1);
    assert WithEntry(EMPTY.topics, t.name) == [(t.name, [])];
    assert |a.topics| == 1 && a.topics[0].0 == t.name && !Has(a.topics, late.name) && !Accepts(a, late);
    assert After(ts, 2).topics == WithEntry(a.topics, late.name) == a.topics + [(late.name, [])];
    LastEmpty(a.topics, late.name);
  }

  lemma {:induction false} LastEmpty(topics: seq<(Bytes, Inner)>, name: Bytes)
    ensures !NoEmptyEntry(topics + [(name, [])])
  {
    if topics != [] {
      assert (topics + [(name, [])])[1..] == topics[1..] + [(name, [])];
      LastEmpty(topics[1..], name);
    }
  }

  /** So does a first topic numbered 0, which is never accepted. */
  lemma RejectedFirstTopicBreaksSnapshot(t: Topic)
    requires t.seqn == 0
    ensures !NoEmptyEntry(After([t], 1).topics)
  {
    assert After([t], 0) == EMPTY;
  }

  /** The wanted last accepted topics of some names, in the order of the names. */
  ghost function LogElements(ts: seq<Topic>, n: nat, names: seq<Bytes>, seqn: nat, conf: WorkerConfig): seq<SnapMsg>
    requires n <= |ts|
  {
    if names == [] then []
    else
      var last := LastAccepted(ts, n, names[0]);
      (if last.Some? && Wanted(conf, last.value) then [Elem(seqn, last.value)] else [])
      + LogElements(ts, n, names[1..], seqn, conf)
  }

  lemma {:induction false} ElementsFromLog(
    ts: seq<Topic>, n: nat, topics: seq<(Bytes, Inner)>, seqn: nat, conf: WorkerConfig)
    requires n <= |ts| && Distinct(topics) && NoEmptyEntry(topics)
    requires forall name :: Has(topics, name) ==> Back(Lookup(topics, name).value) == LastAccepted(ts, n, name)
    ensures Elements(topics, seqn, conf) == LogElements(ts, n, Keys(topics), seqn, conf)
  {
    if topics != [] {
      assert Has(topics, topics[0].0);
      assert forall name :: Has(topics[1..], name) ==>
               Has(topics, name) && Lookup(topics, name) == Lookup(topics[1..], name);
      ElementsFromLog(ts, n, topics[1..], seqn, conf);
    }
  }

  /** While at most 1024 names have been received, a complete reply lists, in order of first arrival of the
      names, exactly the last accepted topics that are of State kind and subscribed. */
  lemma ReplyIsLogProjection(ts: seq<Topic>, n: nat, broker: Uuid, seqn: nat, conf: WorkerConfig)
    requires n <= |ts| && |NamesOf(ts, n)| <= 1024
    requires NoEmptyEntry(After(ts, n).topics)
    ensures FullReply(After(ts, n), broker, seqn, conf) ==
            [Begin(seqn, broker)] + LogElements(ts, n, Arrivals(ts, n), seqn, conf) + [Compl(seqn, broker)]
  {
    StoreRefinesLog(ts, n);
    TopicsInvariant(ts, n);
    ElementsFromLog(ts, n, After(ts, n).topics, seqn, conf);
  }

  lemma {:induction false} LogElementsComplete(
    ts: seq<Topic>, n: nat, names: seq<Bytes>, seqn: nat, conf: WorkerConfig, name: Bytes)
    requires n <= |ts| && name in names && LastAccepted(ts, n, name).Some?
    requires var t := LastAccepted(ts, n, name).value; t.kind.State? && (conf.topicsAll || t.name in conf.topicsNames)
    ensures Elem(seqn, LastAccepted(ts, n, name).value) in LogElements(ts, n, names, seqn, conf)
  {
    if names[0] != name { LogElementsComplete(ts, n, names[1..], seqn, conf, name); }
  }

  // ---------------------------------------------------------------- where stored topics come from

  function Values<K, V>(s: seq<(K, V)>): set<V> {
    if s == [] then {} else {s[0].1} + Values(s[1..])
  }

  function StoredTopics(topics: seq<(Bytes, Inner)>): set<Topic> {
    if topics == [] then {} else Values(topics[0].1) + StoredTopics(topics[1..])
  }

  lemma {:induction false} ValuesSnoc<K, V>(s: seq<(K, V)>, x: (K, V))
    ensures Values(s + [x]) == Values(s) + {x.1}
  {
    if s == [] {
      assert s + [x] == [x];
    } else {
      assert (s + [x])[1..] == s[1..] + [x];
      ValuesSnoc(s[1..], x);
    }
  }

  lemma {:induction false} ValuesWithout<K, V>(s: seq<(K, V)>, k: K)
    ensures Values(Without(s, k)) <= Values(s)
  {
    if s != [] { ValuesWithout(s[1..], k); }
  }

  lemma PutValues<K, V>(capacity: nat, s: seq<(K, V)>, k: K, v: V)
    ensures Values(Put(capacity, s, k, v)) <= Values(s) + {v}
  {
    ValuesWithout(s, k);
    ValuesSnoc(Without(s, k), (k, v));
    ValuesSnoc(s, (k, v));
    if s != [] { ValuesSnoc(s[1..], (k, v)); }
  }

  lemma {:induction false} StoredSnoc(s: seq<(Bytes, Inner)>, name: Bytes)
    ensures StoredTopics(s + [(name, [])]) == StoredTopics(s)
  {
    if s == [] {
      assert s + [(name, [])] == [(name, [])];
    } else {
      assert (s + [(name, [])])[1..] == s[1..] + [(name, [])];
      StoredSnoc(s[1..], name);
    }
  }

  lemma {:induction false} StoredPutInner(topics: seq<(Bytes, Inner)>, t: Topic)
    ensures StoredTopics(PutInner(topics, t)) <= StoredTopics(topics) + {t}
  {
    hide Put;
    if topics != [] {
      if topics[0].0 == t.name {
        PutValues(PER_NAME, topics[0].1, t.worker, t);
      } else {
        StoredPutInner(topics[1..], t);
      }
    }
  }

  /** A store holds only topics it was given. */
  lemma StoredComeFromReceived(st: Store, t: Topic)
    ensures StoredTopics(StoreTopic(st, t).topics) <= StoredTopics(st.topics) + {t}
  {
    var topics := WithEntry(st.topics, t.name);
    StoredSnoc(st.topics, t.name);
    if st.topics != [] { StoredSnoc(st.topics[1..], t.name); }
    assert StoredTopics(topics) <= StoredTopics(st.topics);
    StoredPutInner(topics, t);
  }

  lemma {:induction false} BackIsStored(inner: Inner)
    requires inner != []
    ensures Back(inner).value in Values(inner)
  {
    if |inner| > 1 { BackIsStored(inner[1..]); }
  }

  /** A snapshot sends only stored topics. */
  lemma {:induction false} ElementsAreStored(topics: seq<(Bytes, Inner)>, seqn: nat, conf: WorkerConfig, m: SnapMsg)
    requires m in Elements(topics, seqn, conf)
    ensures m.Elem? && m.seqn == seqn && m.topic in StoredTopics(topics)
    ensures m.topic.kind.State? && (conf.topicsAll || m.topic.name in conf.topicsNames)
  {
    BackIsStored(topics[0].1);
    if m in Elements(topics[1..], seqn, conf) {
      ElementsAreStored(topics[1..], seqn, conf, m);
    }
  }
}
