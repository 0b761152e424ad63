/**
  * The Kafka path of the queue consumer (src/queue_consumer.py): deterministic document ids, keyed
  * puts, and the deliver/commit loop under redelivery, rebalances and crashes. The redaction service
  * is a function of the message, and the date suffixes of the index names are fixed.
  */
module Kafka {
  import opened Decimal

  /** A message's value after `json.loads`; `.get` fails on a value that is not an object. */
  datatype Value = Unparseable | NotAnObject | Event(text: string, logType: string)

  datatype Message = Message(topic: string, partition: nat, offset: nat, value: Value)

  datatype Reply = Failed(reason: string) | Redacted(text: string, spanCount: int, audits: seq<string>)

  datatype Doc =
    | Quarantined(text: string, logType: string, reason: string)
    | Anonymized(text: string, logType: string, spanCount: int)
    | Audit(event: string, logType: string)

  datatype Key = Key(index: string, id: string)

  datatype Put = Put(key: Key, doc: Doc)

  type Docs = map<Key, Doc>

  datatype Config = Config(service: (string, string) -> Reply, day: string, month: string)

  function DocIdBase(m: Message): string
  {
    m.topic + "-" + Dec(m.partition) + "-" + Dec(m.offset)
  }

  function AuditId(base: string, i: nat): string
  {
    base + "-audit-" + Dec(i)
  }

  function AuditPut(cfg: Config, base: string, logType: string, audits: seq<string>, i: nat): Put
    requires i < |audits|
  {
    Put(Key("redact-audit-trail-" + cfg.month, AuditId(base, i)), Audit(audits[i], logType))
  }

  /** The puts of one complete `process_event` call, in order. */
  function Plan(cfg: Config, value: Value, base: string): seq<Put>
  {
    if !value.Event? || value.text == "" then [] else
      match cfg.service(value.text, value.logType)
      case Failed(reason) =>
        [Put(Key("security-logs-quarantine-" + cfg.day, base), Quarantined(value.text, value.logType, reason))]
      case Redacted(text, spanCount, audits) =>
        [Put(Key("security-logs-anonymized-" + cfg.day, base), Anonymized(text, value.logType, spanCount))]
        + seq(|audits|, i requires 0 <= i < |audits| => AuditPut(cfg, base, value.logType, audits, i))
  }

  function Apply(docs: Docs, puts: seq<Put>): Docs
  {
    var n := |puts|;
    if n == 0 then docs else Apply(docs, puts[..n - 1])[puts[n - 1].key := puts[n - 1].doc]
  }

  class DocumentStore {
    var docs: Docs

    constructor ()
      ensures docs == map[]
    {
      docs := map[];
    }

    /** PUT /<index>/_doc/<id>: overwrites whatever is under that key. */
    method IndexDocument(index: string, id: string, doc: Doc)
      modifies this
      ensures docs == old(docs)[Key(index, id) := doc]
    {
      docs := docs[Key(index, id) := doc];
    }
  }

  method ProcessEvent(cfg: Config, store: DocumentStore, value: Value, base: string)
    requires value.Event?
    modifies store
    ensures store.docs == Apply(old(store.docs), Plan(cfg, value, base))
  {
    if value.text == "" {
      return;
    }
    ghost var plan := Plan(cfg, value, base);
    match cfg.service(value.text, value.logType) {
      case Failed(reason) =>
        store.IndexDocument("security-logs-quarantine-" + cfg.day, base, Quarantined(value.text, value.logType, reason));
        assert |plan| == 1 && |plan[..0]| == 0;
      case Redacted(text, spanCount, audits) =>
        store.IndexDocument("security-logs-anonymized-" + cfg.day, base, Anonymized(text, value.logType, spanCount));
        assert |plan[..1][..0]| == 0;
        for i := 0 to |audits|
          invariant store.docs == Apply(old(store.docs), plan[..i + 1])
        {
          assert plan[..i + 2][..i + 1] == plan[..i + 1];
          store.IndexDocument("redact-audit-trail-" + cfg.month, AuditId(base, i), Audit(audits[i], value.logType));
        }
        assert plan[..|audits| + 1] == plan;
    }
  }

  // ------------------------------------------------------------------ identifiers

  /** Different messages never share a document id. */
  lemma DocIdsDiffer(a: Message, b: Message)
    requires DocIdBase(a) == DocIdBase(b)
    ensures a.topic == b.topic && a.partition == b.partition && a.offset == b.offset
  {
    DecHasNoDash(a.offset);
    DecHasNoDash(b.offset);
    LastDashSplits(a.topic + "-" + Dec(a.partition), Dec(a.offset), b.topic + "-" + Dec(b.partition), Dec(b.offset));
    DecInjective(a.offset, b.offset);
    DecHasNoDash(a.partition);
    DecHasNoDash(b.partition);
    LastDashSplits(a.topic, Dec(a.partition), b.topic, Dec(b.partition));
    DecInjective(a.partition, b.partition);
  }

  lemma AuditIdsDiffer(a: string, i: nat, b: string, j: nat)
    requires AuditId(a, i) == AuditId(b, j)
    ensures a == b && i == j
  {
    DecHasNoDash(i);
    DecHasNoDash(j);
    assert AuditId(a, i) == (a + "-audit") + "-" + Dec(i);
    assert AuditId(b, j) == (b + "-audit") + "-" + Dec(j);
    LastDashSplits(a + "-audit", Dec(i), b + "-audit", Dec(j));
    DecInjective(i, j);
    assert a == (a + "-audit")[..|a|] && b == (b + "-audit")[..|b|];
  }

  lemma IndicesDiffer(cfg: Config)
    ensures "redact-audit-trail-" + cfg.month != "security-logs-anonymized-" + cfg.day
    ensures "redact-audit-trail-" + cfg.month != "security-logs-quarantine-" + cfg.day
  {
    assert ("redact-audit-trail-" + cfg.month)[0] == 'r';
    assert ("security-logs-anonymized-" + cfg.day)[0] == 's';
    assert ("security-logs-quarantine-" + cfg.day)[0] == 's';
  }

  /** Within one plan, and across the plans of two values, a shared key names the same put. */
  lemma PlanKeysDiffer(cfg: Config, v: Value, w: Value, a: string, b: string, i: nat, j: nat)
    requires i < |Plan(cfg, v, a)| && j < |Plan(cfg, w, b)|
    requires Plan(cfg, v, a)[i].key == Plan(cfg, w, b)[j].key
    ensures a == b && i == j
  {
    IndicesDiffer(cfg);
    PlanKey(cfg, v, a, i);
    PlanKey(cfg, w, b, j);
    if i > 0 && j > 0 {
      AuditIdsDiffer(a, i - 1, b, j - 1);
    }
  }

  /** The document itself comes first, under its own id, and its audit entries after it. */
  lemma PlanKey(cfg: Config, v: Value, a: string, i: nat)
    requires i < |Plan(cfg, v, a)|
    ensures var key := Plan(cfg, v, a)[i].key;
      if i > 0 then key == Key("redact-audit-trail-" + cfg.month, AuditId(a, i - 1))
      else key.id == a && (key.index == "security-logs-quarantine-" + cfg.day || key.index == "security-logs-anonymized-" + cfg.day)
  {
  }

  // ------------------------------------------------------------------ processing once

  /** The topic's partitions with everything ever published to them. */
  datatype Topic = Topic(cfg: Config, name: string, log: seq<seq<Value>>)

  predicate ValidAt(t: Topic, p: nat, o: nat)
  {
    p < |t.log| && o < |t.log[p]|
  }

  function PlanAt(t: Topic, p: nat, o: nat): seq<Put>
    requires ValidAt(t, p, o)
  {
    Plan(t.cfg, t.log[p][o], DocIdBase(Message(t.name, p, o, t.log[p][o])))
  }

  /** Processing every message before offset `o` of partition `p` exactly once, in order. */
  function OnceUpto(t: Topic, p: nat, o: nat): Docs
    requires p <= |t.log| && o <= if p < |t.log| then |t.log[p]| else 0
    decreases p, o
  {
    if o > 0 then Apply(OnceUpto(t, p, o - 1), PlanAt(t, p, o - 1))
    else if p > 0 then OnceUpto(t, p - 1, |t.log[p - 1]|)
    else map[]
  }

  function Once(t: Topic): Docs
  {
    OnceUpto(t, |t.log|, 0)
  }

  ghost predicate IsPut(t: Topic, put: Put)
  {
    exists p: nat, o: nat, i: nat :: ValidAt(t, p, o) && i < |PlanAt(t, p, o)| && PlanAt(t, p, o)[i] == put
  }

  /** Puts commute: the topic never asks for two documents under one key. */
  lemma PutsNeverConflict(t: Topic, x: Put, y: Put)
    requires IsPut(t, x) && IsPut(t, y) && x.key == y.key
    ensures x == y
  {
    var p: nat, o: nat, i: nat :| ValidAt(t, p, o) && i < |PlanAt(t, p, o)| && PlanAt(t, p, o)[i] == x;
    var q: nat, u: nat, j: nat :| ValidAt(t, q, u) && j < |PlanAt(t, q, u)| && PlanAt(t, q, u)[j] == y;
    var a, b := Message(t.name, p, o, t.log[p][o]), Message(t.name, q, u, t.log[q][u]);
    PlanKeysDiffer(t.cfg, a.value, b.value, DocIdBase(a), DocIdBase(b), i, j);
    DocIdsDiffer(a, b);
  }

  ghost predicate Agrees(t: Topic, docs: Docs)
  {
    forall k :: k in docs ==> IsPut(t, Put(k, docs[k]))
  }

  ghost predicate HasAll(docs: Docs, puts: seq<Put>)
  {
    forall i :: 0 <= i < |puts| ==> puts[i].key in docs
  }

  lemma PutAgrees(t: Topic, docs: Docs, put: Put)
    requires Agrees(t, docs) && IsPut(t, put)
    ensures Agrees(t, docs[put.key := put.doc])
  {
    assert put == Put(put.key, put.doc);
  }

  lemma {:induction false} ApplyGrows(docs: Docs, puts: seq<Put>)
    ensures HasAll(Apply(docs, puts), puts)
    ensures docs.Keys <= Apply(docs, puts).Keys
  {
    var n := |puts| - 1;
    if n >= 0 {
      ApplyGrows(docs, puts[..n]);
      forall i | 0 <= i < |puts| ensures puts[i].key in Apply(docs, puts) {
        assert i < n ==> puts[..n][i] == puts[i];
      }
    }
  }

  lemma {:induction false} ApplyAgrees(t: Topic, docs: Docs, puts: seq<Put>)
    requires Agrees(t, docs) && forall i :: 0 <= i < |puts| ==> IsPut(t, puts[i])
    ensures Agrees(t, Apply(docs, puts))
  {
    var n := |puts| - 1;
    if n >= 0 {
      ApplyAgrees(t, docs, puts[..n]);
      PutAgrees(t, Apply(docs, puts[..n]), puts[n]);
    }
  }

  lemma PlanIsPuts(t: Topic, p: nat, o: nat)
    requires ValidAt(t, p, o)
    ensures forall i :: 0 <= i < |PlanAt(t, p, o)| ==> IsPut(t, PlanAt(t, p, o)[i])
  {
  }

  predicate Before(p: nat, o: nat, q: nat, u: nat)
  {
    p < q || (p == q && o < u)
  }

  lemma {:induction false} OnceHoldsAll(t: Topic, p: nat, o: nat)
    requires p <= |t.log| && o <= if p < |t.log| then |t.log[p]| else 0
    ensures Agrees(t, OnceUpto(t, p, o))
    ensures forall q: nat, u: nat :: ValidAt(t, q, u) && Before(q, u, p, o) ==> HasAll(OnceUpto(t, p, o), PlanAt(t, q, u))
    decreases p, o
  {
    if o > 0 {
      OnceHoldsAll(t, p, o - 1);
      PlanIsPuts(t, p, o - 1);
      ApplyAgrees(t, OnceUpto(t, p, o - 1), PlanAt(t, p, o - 1));
      ApplyGrows(OnceUpto(t, p, o - 1), PlanAt(t, p, o - 1));
      forall q: nat, u: nat | ValidAt(t, q, u) && Before(q, u, p, o) ensures HasAll(OnceUpto(t, p, o), PlanAt(t, q, u)) {
        if !(q == p && u == o - 1) {
          assert Before(q, u, p, o - 1);
          assert HasAll(OnceUpto(t, p, o - 1), PlanAt(t, q, u));
        }
      }
    } else if p > 0 {
      OnceHoldsAll(t, p - 1, |t.log[p - 1]|);
      forall q: nat, u: nat | ValidAt(t, q, u) && Before(q, u, p, o) ensures HasAll(OnceUpto(t, p, o), PlanAt(t, q, u)) {
        assert Before(q, u, p - 1, |t.log[p - 1]|);
      }
    }
  }

  lemma OnceIsComplete(t: Topic)
    ensures Agrees(t, Once(t))
    ensures forall put :: IsPut(t, put) ==> put.key in Once(t) && Once(t)[put.key] == put.doc
  {
    OnceHoldsAll(t, |t.log|, 0);
    forall put | IsPut(t, put) ensures put.key in Once(t) && Once(t)[put.key] == put.doc {
      var p: nat, o: nat, i: nat :| ValidAt(t, p, o) && i < |PlanAt(t, p, o)| && PlanAt(t, p, o)[i] == put;
      assert Before(p, o, |t.log|, 0);
      assert HasAll(Once(t), PlanAt(t, p, o));
      PutsNeverConflict(t, put, Put(put.key, Once(t)[put.key]));
    }
  }

  // ------------------------------------------------------------------ the consumer group

  datatype Work = Idle | Busy(p: nat, o: nat, done: nat)

  /** `position` holds the next offset of each assigned partition. */
  datatype Consumer = Consumer(position: map<nat, nat>, work: Work)

  /** `completed`, `failed` and `dropped` record how each handling of a message ended. */
  datatype State = State(
    docs: Docs, committed: map<nat, nat>, consumers: map<nat, Consumer>,
    completed: set<(nat, nat)>, failed: set<(nat, nat)>, dropped: set<(nat, nat)>)

  datatype Action =
    | Join(c: nat)
    | Assign(c: nat, p: nat)
    | Revoke(c: nat, p: nat)
    | Deliver(c: nat, p: nat)
    | MakePut(c: nat, answered: bool)
    | Finish(c: nat, commits: bool)
    | Drop(c: nat, commits: bool)
    | Fail(c: nat)
    | Crash(c: nat)

  function Init(): State
  {
    State(map[], map[], map[], {}, {}, {})
  }

  predicate Enabled(t: Topic, s: State, a: Action)
  {
    if a.Join? then a.c !in s.consumers else
      a.c in s.consumers &&
      var w, position := s.consumers[a.c].work, s.consumers[a.c].position;
      match a
      case Assign(_, p) => w.Idle? && p < |t.log|
      case Revoke(_, p) => w.Idle?
      case Deliver(_, p) => w.Idle? && p in position && ValidAt(t, p, position[p])
      case MakePut(_, _) => w.Busy? && ValidAt(t, w.p, w.o) && w.done < |PlanAt(t, w.p, w.o)|
      case Finish(_, _) =>
        w.Busy? && ValidAt(t, w.p, w.o) && w.done == |PlanAt(t, w.p, w.o)| && t.log[w.p][w.o].Event?
      case Drop(_, _) => w.Busy? && ValidAt(t, w.p, w.o) && t.log[w.p][w.o].Unparseable?
      case Fail(_) => w.Busy? && ValidAt(t, w.p, w.o) && !t.log[w.p][w.o].Unparseable?
      case Crash(_) => true
  }

  function WithConsumer(s: State, c: nat, k: Consumer): State
  {
    s.(consumers := s.consumers[c := k])
  }

  /** `commit()` stores the consumer's position in every partition it holds. */
  function Commit(s: State, position: map<nat, nat>, commits: bool): State
  {
    if commits then s.(committed := s.committed + position) else s
  }

  function CommittedAt(s: State, p: nat): nat
  {
    if p in s.committed then s.committed[p] else 0
  }

  function Step(t: Topic, s: State, a: Action): State
    requires Enabled(t, s, a)
  {
    if a.Join? then WithConsumer(s, a.c, Consumer(map[], Idle)) else
      var k := s.consumers[a.c];
      match a
      case Assign(c, p) => WithConsumer(s, c, k.(position := k.position[p := CommittedAt(s, p)]))
      case Revoke(c, p) => WithConsumer(s, c, k.(position := k.position - {p}))
      case Deliver(c, p) =>
        WithConsumer(s, c, Consumer(k.position[p := k.position[p] + 1], Busy(p, k.position[p], 0)))
      case MakePut(c, answered) =>
        var put := PlanAt(t, k.work.p, k.work.o)[k.work.done];
        WithConsumer(s.(docs := s.docs[put.key := put.doc]), c,
                     if answered then k.(work := k.work.(done := k.work.done + 1)) else k)
      case Finish(c, commits) =>
        Commit(WithConsumer(s, c, k.(work := Idle)).(completed := s.completed + {(k.work.p, k.work.o)}), k.position, commits)
      case Drop(c, commits) =>
        Commit(WithConsumer(s, c, k.(work := Idle)).(dropped := s.dropped + {(k.work.p, k.work.o)}), k.position, commits)
      case Fail(c) => WithConsumer(s, c, k.(work := Idle)).(failed := s.failed + {(k.work.p, k.work.o)})
      case Crash(c) => s.(consumers := s.consumers - {c})
  }

  function Handled(s: State): set<(nat, nat)>
  {
    s.completed + s.failed + s.dropped
  }

  ghost predicate ConsumerOk(t: Topic, s: State, k: Consumer)
  {
    && (k.work.Busy? ==>
          && ValidAt(t, k.work.p, k.work.o) && k.work.done <= |PlanAt(t, k.work.p, k.work.o)|
          && (forall i :: 0 <= i < k.work.done ==> PlanAt(t, k.work.p, k.work.o)[i].key in s.docs))
    && (forall p: nat, o: nat :: p in k.position && o < k.position[p] ==>
          (p, o) in Handled(s) || (k.work.Busy? && k.work.p == p && k.work.o == o))
  }

  ghost predicate DocsOk(t: Topic, s: State)
  {
    && Agrees(t, s.docs)
    && (forall p: nat, o: nat :: (p, o) in s.completed ==> ValidAt(t, p, o) && HasAll(s.docs, PlanAt(t, p, o)))
    && (forall p: nat, o: nat :: (p, o) in s.dropped ==> ValidAt(t, p, o) && t.log[p][o].Unparseable?)
  }

  ghost predicate OffsetsOk(s: State)
  {
    forall p: nat, o: nat :: p in s.committed && o < s.committed[p] ==> (p, o) in Handled(s)
  }

  ghost predicate Inv(t: Topic, s: State)
  {
    && DocsOk(t, s) && OffsetsOk(s)
    && (forall c :: c in s.consumers ==> ConsumerOk(t, s, s.consumers[c]))
  }

  ghost predicate IsRun(t: Topic, states: seq<State>, actions: seq<Action>)
  {
    && |states| == |actions| + 1 && states[0] == Init()
    && (forall i :: 0 <= i < |actions| ==> Enabled(t, states[i], actions[i]) && states[i + 1] == Step(t, states[i], actions[i]))
  }

  lemma DocsGrow(t: Topic, s: State, docs: Docs, k: Consumer)
    requires s.docs.Keys <= docs.Keys && ConsumerOk(t, s, k)
    ensures ConsumerOk(t, s.(docs := docs), k)
  {
  }

  lemma HandledGrows(t: Topic, s: State, u: State, k: Consumer)
    requires ConsumerOk(t, s, k) && u.docs == s.docs && Handled(s) <= Handled(u)
    ensures ConsumerOk(t, u, k)
  {
  }

  /** Membership changes and deliveries. */
  lemma GroupSteps(t: Topic, s: State, a: Action)
    requires Inv(t, s) && Enabled(t, s, a) && (a.Join? || a.Assign? || a.Revoke? || a.Deliver? || a.Crash?)
    ensures Inv(t, Step(t, s, a))
  {
    var u := Step(t, s, a);
    assert u.docs == s.docs && Handled(u) == Handled(s);
    if a.Join? {
      assert ConsumerOk(t, u, Consumer(map[], Idle));
    } else {
      assert ConsumerOk(t, s, s.consumers[a.c]);
      if a.Assign? {
        AssignedOk(t, s, s.consumers[a.c], a.p);
      }
    }
    forall c | c in u.consumers ensures ConsumerOk(t, u, u.consumers[c]) {
      if c != a.c {
        assert c in s.consumers && u.consumers[c] == s.consumers[c];
        HandledGrows(t, s, u, s.consumers[c]);
      }
    }
  }

  lemma AssignedOk(t: Topic, s: State, k: Consumer, p: nat)
    requires OffsetsOk(s) && ConsumerOk(t, s, k)
    ensures ConsumerOk(t, s, k.(position := k.position[p := CommittedAt(s, p)]))
  {
  }

  lemma PutDocsOk(t: Topic, s: State, put: Put)
    requires DocsOk(t, s) && IsPut(t, put)
    ensures DocsOk(t, s.(docs := s.docs[put.key := put.doc]))
  {
    var u := s.(docs := s.docs[put.key := put.doc]);
    PutAgrees(t, s.docs, put);
    forall p: nat, o: nat | (p, o) in u.completed ensures ValidAt(t, p, o) && HasAll(u.docs, PlanAt(t, p, o)) {
      assert HasAll(s.docs, PlanAt(t, p, o));
    }
  }

  lemma PutMade(t: Topic, s: State, k: Consumer, answered: bool)
    requires ConsumerOk(t, s, k) && k.work.Busy? && k.work.done < |PlanAt(t, k.work.p, k.work.o)|
    requires PlanAt(t, k.work.p, k.work.o)[k.work.done].key in s.docs
    ensures ConsumerOk(t, s, if answered then k.(work := k.work.(done := k.work.done + 1)) else k)
  {
  }

  lemma PutStep(t: Topic, s: State, a: Action)
    requires Inv(t, s) && a.MakePut? && Enabled(t, s, a)
    ensures Inv(t, Step(t, s, a))
  {
    var u, k := Step(t, s, a), s.consumers[a.c];
    var put := PlanAt(t, k.work.p, k.work.o)[k.work.done];
    var mid := s.(docs := s.docs[put.key := put.doc]);
    PlanIsPuts(t, k.work.p, k.work.o);
    PutDocsOk(t, s, put);
    DocsGrow(t, s, mid.docs, k);
    PutMade(t, mid, k, a.answered);
    forall c | c in u.consumers ensures ConsumerOk(t, u, u.consumers[c]) {
      if c != a.c {
        DocsGrow(t, s, mid.docs, s.consumers[c]);
      }
      HandledGrows(t, mid, u, u.consumers[c]);
    }
  }

  lemma CommitCovers(t: Topic, s: State, u: State, k: Consumer)
    requires OffsetsOk(s) && ConsumerOk(t, s, k) && k.work.Busy?
    requires Handled(u) == Handled(s) + {(k.work.p, k.work.o)}
    requires u.committed == s.committed || u.committed == s.committed + k.position
    ensures OffsetsOk(u)
  {
    forall p: nat, o: nat | p in u.committed && o < u.committed[p] ensures (p, o) in Handled(u) {
      if p in k.position && u.committed[p] == k.position[p] {
        assert (p, o) in Handled(s) || (k.work.p == p && k.work.o == o);
      } else {
        assert p in s.committed && u.committed[p] == s.committed[p];
      }
    }
  }

  lemma EndEffects(t: Topic, s: State, a: Action)
    requires Enabled(t, s, a) && (a.Finish? || a.Drop? || a.Fail?)
    ensures var u, k := Step(t, s, a), s.consumers[a.c];
            && u.docs == s.docs && u.consumers == s.consumers[a.c := k.(work := Idle)]
            && Handled(u) == Handled(s) + {(k.work.p, k.work.o)}
            && (u.committed == s.committed || u.committed == s.committed + k.position)
  {
  }

  lemma EndDocsOk(t: Topic, s: State, a: Action)
    requires Inv(t, s) && Enabled(t, s, a) && (a.Finish? || a.Drop? || a.Fail?)
    ensures DocsOk(t, Step(t, s, a))
  {
    assert ConsumerOk(t, s, s.consumers[a.c]);
  }

  lemma Idles(t: Topic, s: State, u: State, k: Consumer)
    requires ConsumerOk(t, s, k) && k.work.Busy? && Handled(u) == Handled(s) + {(k.work.p, k.work.o)} && u.docs == s.docs
    ensures ConsumerOk(t, u, k.(work := Idle))
  {
  }

  /** The three ways a handling ends; a commit covers everything delivered to the consumer before. */
  lemma EndSteps(t: Topic, s: State, a: Action)
    requires Inv(t, s) && Enabled(t, s, a) && (a.Finish? || a.Drop? || a.Fail?)
    ensures Inv(t, Step(t, s, a))
  {
    var u, k := Step(t, s, a), s.consumers[a.c];
    assert ConsumerOk(t, s, k);
    EndEffects(t, s, a);
    EndDocsOk(t, s, a);
    forall c | c in u.consumers ensures ConsumerOk(t, u, u.consumers[c]) {
      if c == a.c {
        Idles(t, s, u, k);
      } else {
        HandledGrows(t, s, u, s.consumers[c]);
      }
    }
    CommitCovers(t, s, u, k);
  }

  lemma StepKeepsInv(t: Topic, s: State, a: Action)
    requires Inv(t, s) && Enabled(t, s, a)
    ensures Inv(t, Step(t, s, a))
  {
    if a.MakePut? {
      PutStep(t, s, a);
    } else if a.Finish? || a.Drop? || a.Fail? {
      EndSteps(t, s, a);
    } else {
      GroupSteps(t, s, a);
    }
  }

  lemma {:induction false} RunKeepsInv(t: Topic, states: seq<State>, actions: seq<Action>, n: nat)
    requires IsRun(t, states, actions) && n < |states|
    ensures Inv(t, states[n])
  {
    if n > 0 {
      RunKeepsInv(t, states, actions, n - 1);
      StepKeepsInv(t, states[n - 1], actions[n - 1]);
    }
  }

  // ------------------------------------------------------------------ what runs guarantee

  /** At no moment of any run does the store hold a document that processing each message once would not. */
  lemma StoreIsNeverWrong(t: Topic, states: seq<State>, actions: seq<Action>, n: nat)
    requires IsRun(t, states, actions) && n < |states|
    ensures forall k :: k in states[n].docs ==> k in Once(t) && states[n].docs[k] == Once(t)[k]
  {
    RunKeepsInv(t, states, actions, n);
    OnceIsComplete(t);
    forall k | k in states[n].docs ensures k in Once(t) && states[n].docs[k] == Once(t)[k] {
      assert IsPut(t, Put(k, states[n].docs[k]));
    }
  }

  /**
    * Fail closed: whatever the interleaving, a document in the anonymized index holds what the service
    * returned for some message, never text of a message the service failed on.
    */
  lemma AnonymizedIndexHoldsRedactedText(t: Topic, states: seq<State>, actions: seq<Action>, n: nat, k: Key)
    requires IsRun(t, states, actions) && n < |states|
    requires k in states[n].docs && k.index == "security-logs-anonymized-" + t.cfg.day
    ensures exists p: nat, o: nat :: ValidAt(t, p, o) && t.log[p][o].Event? && t.log[p][o].text != ""
              && var reply := t.cfg.service(t.log[p][o].text, t.log[p][o].logType);
              reply.Redacted? && states[n].docs[k] == Anonymized(reply.text, t.log[p][o].logType, reply.spanCount)
  {
    RunKeepsInv(t, states, actions, n);
    assert IsPut(t, Put(k, states[n].docs[k]));
    var p: nat, o: nat, i: nat :| ValidAt(t, p, o) && i < |PlanAt(t, p, o)| && PlanAt(t, p, o)[i] == Put(k, states[n].docs[k]);
    IndicesDiffer(t.cfg);
    QuarantineDiffers(t.cfg);
  }

  lemma QuarantineDiffers(cfg: Config)
    ensures "security-logs-anonymized-" + cfg.day != "security-logs-quarantine-" + cfg.day
  {
    assert ("security-logs-anonymized-" + cfg.day)[14] == 'a';
    assert ("security-logs-quarantine-" + cfg.day)[14] == 'q';
  }

  predicate AllCompleted(t: Topic, s: State)
  {
    forall p, o :: 0 <= p < |t.log| && 0 <= o < |t.log[p]| && t.log[p][o].Event? ==> (p, o) in s.completed
  }

  /**
    * Effectively once: however messages are redelivered, rebalanced and interrupted, once each has
    * been processed completely at least once the store is that of processing each exactly once.
    */
  lemma RedeliveryIsInvisible(t: Topic, states: seq<State>, actions: seq<Action>, n: nat)
    requires IsRun(t, states, actions) && n < |states| && AllCompleted(t, states[n])
    ensures states[n].docs == Once(t)
  {
    RunKeepsInv(t, states, actions, n);
    StoreIsNeverWrong(t, states, actions, n);
    OnceIsComplete(t);
    forall k | k in Once(t) ensures k in states[n].docs {
      assert IsPut(t, Put(k, Once(t)[k]));
      var p: nat, o: nat, i: nat :|
        ValidAt(t, p, o) && i < |PlanAt(t, p, o)| && PlanAt(t, p, o)[i] == Put(k, Once(t)[k]);
      assert t.log[p][o].Event?;
      assert HasAll(states[n].docs, PlanAt(t, p, o));
    }
  }

  /**
    * Below the committed offset every message has been handled, and those whose handling never failed
    * were processed completely or were unparseable.
    */
  lemma CommittedMeansAttempted(t: Topic, states: seq<State>, actions: seq<Action>, n: nat, p: nat, o: nat)
    requires IsRun(t, states, actions) && n < |states| && o < CommittedAt(states[n], p)
    ensures (p, o) in Handled(states[n])
    ensures (p, o) !in states[n].failed ==>
              ValidAt(t, p, o) && (t.log[p][o].Unparseable? || HasAll(states[n].docs, PlanAt(t, p, o)))
  {
    RunKeepsInv(t, states, actions, n);
  }

  // ------------------------------------------------------------------ when a commit means processed

  /** What committing is for: unparseable messages are given up, everything else is in the store. */
  ghost predicate Processed(t: Topic, docs: Docs, p: nat, o: nat)
  {
    ValidAt(t, p, o) && (t.log[p][o].Unparseable? || HasAll(docs, PlanAt(t, p, o)))
  }

  ghost predicate OnlyProcessed(t: Topic, s: State)
  {
    forall p: nat, o: nat :: o < CommittedAt(s, p) ==> Processed(t, s.docs, p, o)
  }

  /** Handling such a message can end in a commit: an object, or a value that does not parse. */
  predicate Committable(t: Topic, p: nat, o: nat)
  {
    ValidAt(t, p, o) && !t.log[p][o].NotAnObject?
  }

  predicate Writes(t: Topic, p: nat, o: nat)
  {
    ValidAt(t, p, o) && PlanAt(t, p, o) != []
  }

  /** The one can be handled after the other: it is later in its partition, or in another partition. */
  predicate CanFollow(p: nat, o: nat, q: nat, u: nat)
  {
    q != p || o < u
  }

  ghost predicate NothingToSkip(t: Topic)
  {
    forall p: nat, o: nat, q: nat, u: nat :: Writes(t, p, o) && Committable(t, q, u) ==> !CanFollow(p, o, q, u)
  }

  /** A busy consumer stands right behind its message, and only real messages fail. */
  ghost predicate InPlace(t: Topic, s: State)
  {
    && (forall c :: c in s.consumers && s.consumers[c].work.Busy? ==> BehindWork(s.consumers[c]))
    && (forall p: nat, o: nat :: (p, o) in s.failed ==> ValidAt(t, p, o))
  }

  predicate BehindWork(k: Consumer)
    requires k.work.Busy?
  {
    k.work.p in k.position && k.position[k.work.p] == k.work.o + 1
  }

  lemma StepKeepsPlace(t: Topic, s: State, a: Action)
    requires InPlace(t, s) && Enabled(t, s, a)
    ensures InPlace(t, Step(t, s, a))
  {
  }

  lemma DocsOnlyGrow(t: Topic, s: State, a: Action)
    requires Enabled(t, s, a)
    ensures s.docs.Keys <= Step(t, s, a).docs.Keys
  {
  }

  lemma StaysProcessed(t: Topic, docs: Docs, later: Docs, p: nat, o: nat)
    requires Processed(t, docs, p, o) && docs.Keys <= later.Keys
    ensures Processed(t, later, p, o)
  {
  }

  /** Everything behind a consumer that ends its handling with a commit has been processed. */
  lemma PositionIsProcessed(t: Topic, s: State, a: Action, p: nat, o: nat)
    requires NothingToSkip(t) && Inv(t, s) && InPlace(t, s) && Enabled(t, s, a) && (a.Finish? || a.Drop?)
    requires var k := s.consumers[a.c]; p in k.position && o < k.position[p]
    ensures Processed(t, s.docs, p, o)
  {
    var k := s.consumers[a.c];
    assert ConsumerOk(t, s, k) && BehindWork(k);
    if (p, o) != (k.work.p, k.work.o) {
      assert (p, o) in Handled(s) && ValidAt(t, p, o) && Committable(t, k.work.p, k.work.o);
      assert Writes(t, p, o) ==> !CanFollow(p, o, k.work.p, k.work.o);
    }
  }

  lemma StepKeepsProcessed(t: Topic, s: State, a: Action)
    requires NothingToSkip(t) && Inv(t, s) && InPlace(t, s) && OnlyProcessed(t, s) && Enabled(t, s, a)
    ensures OnlyProcessed(t, Step(t, s, a))
  {
    var u := Step(t, s, a);
    DocsOnlyGrow(t, s, a);
    forall p: nat, o: nat | o < CommittedAt(u, p) ensures Processed(t, u.docs, p, o) {
      if o < CommittedAt(s, p) {
        StaysProcessed(t, s.docs, u.docs, p, o);
      } else {
        PositionIsProcessed(t, s, a, p, o);
      }
    }
  }

  lemma {:induction false} SafeRun(t: Topic, states: seq<State>, actions: seq<Action>, n: nat)
    requires NothingToSkip(t) && IsRun(t, states, actions) && n < |states|
    ensures OnlyProcessed(t, states[n]) && InPlace(t, states[n])
  {
    if n > 0 {
      var k: nat := n - 1;
      SafeRun(t, states, actions, k);
      RunKeepsInv(t, states, actions, k);
      StepKeepsProcessed(t, states[k], actions[k]);
      StepKeepsPlace(t, states[k], actions[k]);
    }
  }

  // ------------------------------------------------------------------ the run that skips a message

  /** A stretch of a run. */
  ghost predicate Continues(t: Topic, s: State, states: seq<State>, actions: seq<Action>)
  {
    && |states| == |actions| + 1 && states[0] == s
    && (forall i :: 0 <= i < |actions| ==> Enabled(t, states[i], actions[i]) && states[i + 1] == Step(t, states[i], actions[i]))
  }

  lemma ContinuesOn(t: Topic, s: State, states: seq<State>, actions: seq<Action>, more: seq<State>, later: seq<Action>)
      returns (all: seq<State>, acts: seq<Action>)
    requires Continues(t, s, states, actions) && Continues(t, states[|actions|], more, later)
    ensures Continues(t, s, all, acts) && |acts| == |actions| + |later| && all[|acts|] == more[|later|]
  {
    all, acts := states + more[1..], actions + later;
    var n := |actions|;
    forall i | 0 <= i < |acts| ensures Enabled(t, all[i], acts[i]) && all[i + 1] == Step(t, all[i], acts[i]) {
      if i >= n {
        assert all[i] == more[i - n] && all[i + 1] == more[i - n + 1] && acts[i] == later[i - n];
      }
    }
  }

  /** Consumer 0 of a state, with the two stores that outlive it. */
  ghost predicate At(s: State, docs: Docs, committed: map<nat, nat>, k: Consumer)
  {
    0 in s.consumers && s.consumers[0] == k && s.docs == docs && s.committed == committed
  }

  lemma Joins(t: Topic, p: nat, q: nat) returns (states: seq<State>, actions: seq<Action>)
    requires p < |t.log| && q < |t.log|
    ensures Continues(t, Init(), states, actions)
    ensures At(states[|actions|], map[], map[], Consumer(map[p := 0, q := 0], Idle))
  {
    actions := [Join(0), Assign(0, p), Assign(0, q)];
    var s0 := Init();
    var s1 := Step(t, s0, actions[0]);
    var s2 := Step(t, s1, actions[1]);
    var s3 := Step(t, s2, actions[2]);
    states := [s0, s1, s2, s3];
    assert map[][p := 0][q := 0] == map[p := 0, q := 0];
  }

  /** One message goes by without a trace: it fails, or is dropped and the commit does not get through. */
  lemma SkipOne(t: Topic, s: State, docs: Docs, position: map<nat, nat>, p: nat)
      returns (states: seq<State>, actions: seq<Action>)
    requires At(s, docs, map[], Consumer(position, Idle)) && p in position && ValidAt(t, p, position[p])
    ensures Continues(t, s, states, actions)
    ensures At(states[|actions|], docs, map[], Consumer(position[p := position[p] + 1], Idle))
  {
    actions := [Deliver(0, p), if t.log[p][position[p]].Unparseable? then Drop(0, false) else Fail(0)];
    var s1 := Step(t, s, actions[0]);
    var s2 := Step(t, s1, actions[1]);
    states := [s, s1, s2];
  }

  lemma {:induction false} SkipTo(t: Topic, s: State, docs: Docs, position: map<nat, nat>, p: nat, o: nat)
      returns (states: seq<State>, actions: seq<Action>)
    requires At(s, docs, map[], Consumer(position, Idle)) && p in position && p < |t.log| && position[p] <= o <= |t.log[p]|
    ensures Continues(t, s, states, actions)
    ensures At(states[|actions|], docs, map[], Consumer(position[p := o], Idle))
    decreases o - position[p]
  {
    if position[p] == o {
      states, actions := [s], [];
      assert position[p := o] == position;
    } else {
      states, actions := SkipOne(t, s, docs, position, p);
      var next := position[p := position[p] + 1];
      var more, later := SkipTo(t, states[|actions|], docs, next, p, o);
      assert next[p := o] == position[p := o];
      states, actions := ContinuesOn(t, s, states, actions, more, later);
    }
  }

  function KeysOf(puts: seq<Put>): set<Key>
  {
    set i | 0 <= i < |puts| :: puts[i].key
  }

  /** The remaining puts of the message at hand, each answered. */
  lemma {:induction false} PutsAll(t: Topic, s: State, position: map<nat, nat>, p: nat, o: nat, done: nat)
      returns (states: seq<State>, actions: seq<Action>)
    requires At(s, s.docs, map[], Consumer(position, Busy(p, o, done))) && ValidAt(t, p, o) && done <= |PlanAt(t, p, o)|
    ensures Continues(t, s, states, actions)
    ensures states[|actions|].docs.Keys <= s.docs.Keys + KeysOf(PlanAt(t, p, o))
    ensures At(states[|actions|], states[|actions|].docs, map[], Consumer(position, Busy(p, o, |PlanAt(t, p, o)|)))
    decreases |PlanAt(t, p, o)| - done
  {
    if done == |PlanAt(t, p, o)| {
      states, actions := [s], [];
    } else {
      var s1 := Step(t, s, MakePut(0, true));
      assert PlanAt(t, p, o)[done].key in KeysOf(PlanAt(t, p, o));
      var more, later := PutsAll(t, s1, position, p, o, done + 1);
      states, actions := ContinuesOn(t, s, [s, s1], [MakePut(0, true)], more, later);
    }
  }

  /** A committable message is handled to the end, and the commit covers whatever went before. */
  lemma HandlesAndCommits(t: Topic, s: State, position: map<nat, nat>, p: nat)
      returns (states: seq<State>, actions: seq<Action>)
    requires At(s, map[], map[], Consumer(position, Idle)) && p in position && Committable(t, p, position[p])
    ensures Continues(t, s, states, actions)
    ensures states[|actions|].committed == position[p := position[p] + 1]
    ensures states[|actions|].docs.Keys <= KeysOf(PlanAt(t, p, position[p]))
  {
    var o, after := position[p], position[p := position[p] + 1];
    var s1 := Step(t, s, Deliver(0, p));
    var more, later := PutsAll(t, s1, after, p, o, 0);
    states, actions := ContinuesOn(t, s, [s, s1], [Deliver(0, p)], more, later);
    var s2 := states[|actions|];
    var last := if t.log[p][o].Unparseable? then Drop(0, true) else Finish(0, true);
    var s3 := Step(t, s2, last);
    assert map[] + after == after;
    states, actions := ContinuesOn(t, s, states, actions, [s2, s3], [last]);
  }

  lemma PlansAreApart(t: Topic, p: nat, o: nat, q: nat, u: nat)
    requires Writes(t, p, o) && ValidAt(t, q, u) && (p, o) != (q, u)
    ensures PlanAt(t, p, o)[0].key !in KeysOf(PlanAt(t, q, u))
  {
    var a, b := Message(t.name, p, o, t.log[p][o]), Message(t.name, q, u, t.log[q][u]);
    if j :| 0 <= j < |PlanAt(t, q, u)| && PlanAt(t, q, u)[j].key == PlanAt(t, p, o)[0].key {
      PlanKeysDiffer(t.cfg, a.value, b.value, DocIdBase(a), DocIdBase(b), 0, j);
      DocIdsDiffer(a, b);
    }
  }

  /**
    * "Attempted" cannot be strengthened to "processed": a message that writes something is skipped for
    * good when it fails and the same consumer then handles any committable message after it, in the same
    * partition or, since a commit stores every position, in any other.
    */
  lemma CommitMovesPastFailure(t: Topic, p: nat, o: nat, q: nat, u: nat) returns (states: seq<State>, actions: seq<Action>)
    requires Writes(t, p, o) && Committable(t, q, u) && CanFollow(p, o, q, u)
    ensures IsRun(t, states, actions)
    ensures o < CommittedAt(states[|actions|], p) && !Processed(t, states[|actions|].docs, p, o)
  {
    var s := Init();
    states, actions := Joins(t, p, q);
    var start := map[p := 0, q := 0];
    var more, later := SkipTo(t, states[|actions|], map[], start, p, o + 1);
    states, actions := ContinuesOn(t, s, states, actions, more, later);
    var beyond := start[p := o + 1];
    more, later := SkipTo(t, states[|actions|], map[], beyond, q, u);
    states, actions := ContinuesOn(t, s, states, actions, more, later);
    more, later := HandlesAndCommits(t, states[|actions|], beyond[q := u], q);
    states, actions := ContinuesOn(t, s, states, actions, more, later);
    PlansAreApart(t, p, o, q, u);
  }

  /**
    * The exact condition: every run commits only processed messages if and only if no message that
    * writes something can be followed by a committable one.
    */
  lemma CommittedMeansProcessedIff(t: Topic)
    ensures NothingToSkip(t)
       <==> forall states: seq<State>, actions: seq<Action>, n: nat ::
              IsRun(t, states, actions) && n < |states| ==> OnlyProcessed(t, states[n])
  {
    if NothingToSkip(t) {
      forall states: seq<State>, actions: seq<Action>, n: nat | IsRun(t, states, actions) && n < |states|
        ensures OnlyProcessed(t, states[n])
      {
        SafeRun(t, states, actions, n);
      }
    } else {
      var p: nat, o: nat, q: nat, u: nat :| Writes(t, p, o) && Committable(t, q, u) && CanFollow(p, o, q, u);
      var states, actions := CommitMovesPastFailure(t, p, o, q, u);
      assert IsRun(t, states, actions) && !OnlyProcessed(t, states[|actions|]);
    }
  }
}
