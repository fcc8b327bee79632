/**
 Whole runs of the table. A run is described twice: on the entry vector, which fixes the order
 of iteration, and on the map, which fixes every answer about keys.
 */
module TableRuns {
  import opened Sizing
  import opened Entries
  import opened HashTable

  datatype Op<K, V> =
    | Emplace(key: K, value: V)
    | TryEmplace(key: K, value: V)
    | InsertOrAssign(key: K, value: V)
    | EraseKey(key: K)
    | Find(key: K)
    | Clear
    | Reserve(count: nat)
    | Rehash(count: nat)
    | EraseAt(idx: nat)
    | EraseRange(first: nat, last: nat)
    | Replace(container: seq<Entry<K, V>>)

  datatype Answer<V> = Entered | WasThere | NoRoom | Erased(count: nat) | Found(value: V) | Missing | Done

  /** What the source leaves undefined: bad iterators and requests beyond the largest index. */
  ghost predicate Defined<K, V>(es: seq<Entry<K, V>>, op: Op<K, V>) {
    match op
    case Reserve(count) => count <= LoadLimit(MAX_BUCKETS) && |es| <= LoadLimit(MAX_BUCKETS)
    case Rehash(count) => count <= LoadLimit(MAX_BUCKETS) && |es| <= LoadLimit(MAX_BUCKETS)
    case EraseAt(idx) => idx < |es|
    case EraseRange(first, last) => first <= last <= |es|
    case Replace(container) => |container| <= LoadLimit(MAX_BUCKETS) || |container| > MAX_BUCKETS
    case _ => true
  }

  // ------------------------------------------------------ on the entry vector

  ghost function Insert<K, V>(es: seq<Entry<K, V>>, e: Entry<K, V>): (seq<Entry<K, V>>, Answer<V>) {
    if IndexOf(es, e.key) < |es| then (es, WasThere)
    else if |es| == MAX_BUCKETS then (es, NoRoom)
    else (es + [e], Entered)
  }

  ghost function Step<K, V>(es: seq<Entry<K, V>>, op: Op<K, V>): (seq<Entry<K, V>>, Answer<V>)
    requires Defined(es, op)
  {
    match op
    case Emplace(key, value) => Insert(es, Entry(key, value))
    case TryEmplace(key, value) => Insert(es, Entry(key, value))
    case InsertOrAssign(key, value) =>
      var i := IndexOf(es, key);
      if i < |es| then (es[i := Entry(key, value)], WasThere) else Insert(es, Entry(key, value))
    case EraseKey(key) =>
      var i := IndexOf(es, key);
      if i < |es| then (SwapRemove(es, i), Erased(1)) else (es, Erased(0))
    case Find(key) =>
      var i := IndexOf(es, key);
      (es, if i < |es| then Found(es[i].value) else Missing)
    case Clear => ([], Done)
    case Reserve(_) => (es, Done)
    case Rehash(_) => (es, Done)
    case EraseAt(idx) => (SwapRemove(es, idx), Done)
    case EraseRange(first, last) => (WithoutRange(es, first, last), Done)
    case Replace(container) => if |container| <= MAX_BUCKETS then (Dedup(container, 0), Done) else (es, NoRoom)
  }

  ghost predicate AllDefined<K, V>(es: seq<Entry<K, V>>, ops: seq<Op<K, V>>)
    decreases |ops|
  {
    ops == [] || (Defined(es, ops[0]) && AllDefined(Step(es, ops[0]).0, ops[1..]))
  }

  ghost function Run<K, V>(es: seq<Entry<K, V>>, ops: seq<Op<K, V>>): (seq<Entry<K, V>>, seq<Answer<V>>)
    requires AllDefined(es, ops)
    decreases |ops|
  {
    if ops == [] then (es, [])
    else
      var (fs, answer) := Step(es, ops[0]);
      var (gs, answers) := Run(fs, ops[1..]);
      (gs, [answer] + answers)
  }

  // --------------------------------------------------------------- on the map

  /** Operations that speak of keys only. */
  predicate ByKey<K, V>(op: Op<K, V>) {
    !op.EraseAt? && !op.EraseRange? && !op.Replace?
  }

  ghost function MapInsert<K, V>(m: map<K, V>, key: K, value: V): (map<K, V>, Answer<V>) {
    if key in m then (m, WasThere)
    else if |m| == MAX_BUCKETS then (m, NoRoom)
    else (m[key := value], Entered)
  }

  ghost function MapStep<K, V>(m: map<K, V>, op: Op<K, V>): (map<K, V>, Answer<V>)
    requires ByKey(op)
  {
    match op
    case Emplace(key, value) => MapInsert(m, key, value)
    case TryEmplace(key, value) => MapInsert(m, key, value)
    case InsertOrAssign(key, value) => if key in m then (m[key := value], WasThere) else MapInsert(m, key, value)
    case EraseKey(key) => (m - {key}, Erased(if key in m then 1 else 0))
    case Find(key) => (m, if key in m then Found(m[key]) else Missing)
    case Clear => (map[], Done)
    case Reserve(_) => (m, Done)
    case Rehash(_) => (m, Done)
  }

  ghost function MapRun<K, V>(m: map<K, V>, ops: seq<Op<K, V>>): (map<K, V>, seq<Answer<V>>)
    requires forall op :: op in ops ==> ByKey(op)
    decreases |ops|
  {
    if ops == [] then (m, [])
    else
      var (m', answer) := MapStep(m, ops[0]);
      var (m'', answers) := MapRun(m', ops[1..]);
      (m'', [answer] + answers)
  }

  /**
   What any operation does to the map. Iterators and ranges are positions in the vector `es`, and
   mean the keys there; a vector taken over gives all its keys, each bound as one of its entries.
   */
  ghost predicate MapEffect<K, V>(es: seq<Entry<K, V>>, op: Op<K, V>, m: map<K, V>, after: map<K, V>, answer: Answer<V>)
    requires Defined(es, op)
  {
    match op
    case EraseAt(idx) => after == m - {es[idx].key} && answer == Done
    case EraseRange(first, last) => after == m - Keys(es[first..last]) && answer == Done
    case Replace(container) =>
      if |container| <= MAX_BUCKETS then BoundAsIn(after, container) && answer == Done
      else after == m && answer == NoRoom
    case _ => (after, answer) == MapStep(m, op)
  }

  ghost predicate BoundAsIn<K, V>(m: map<K, V>, container: seq<Entry<K, V>>) {
    m.Keys == Keys(container) && forall k :: k in m ==> Entry(k, m[k]) in container
  }

  /** The vector before each operation of a run, and at its end. */
  ghost function Trace<K, V>(es: seq<Entry<K, V>>, ops: seq<Op<K, V>>): (trace: seq<seq<Entry<K, V>>>)
    requires AllDefined(es, ops)
    ensures |trace| == |ops| + 1 && trace[0] == es && trace[|ops|] == Run(es, ops).0
    ensures |Run(es, ops).1| == |ops|
    decreases |ops|
  {
    if ops == [] then [es] else [es] + Trace(Step(es, ops[0]).0, ops[1..])
  }

  /** Step by step, a run on the vector has the effects on the map that its operations have. */
  ghost predicate HasEffects<K, V>(trace: seq<seq<Entry<K, V>>>, ops: seq<Op<K, V>>, answers: seq<Answer<V>>) {
    && |trace| == |ops| + 1 && |answers| == |ops|
    && forall i :: 0 <= i < |ops| ==> HasEffectAt(trace, ops, answers, i)
  }

  ghost predicate HasEffectAt<K, V>(trace: seq<seq<Entry<K, V>>>, ops: seq<Op<K, V>>, answers: seq<Answer<V>>, i: nat)
    requires i < |ops| && |trace| == |ops| + 1 && |answers| == |ops|
  {
    && UniqueKeys(trace[i]) && UniqueKeys(trace[i + 1]) && Defined(trace[i], ops[i])
    && MapEffect(trace[i], ops[i], Contents(trace[i]), Contents(trace[i + 1]), answers[i])
  }

  // -------------------------------------------------------------- refinement

  /** Every operation keeps keys unique. */
  lemma StepUnique<K, V>(es: seq<Entry<K, V>>, op: Op<K, V>)
    requires UniqueKeys(es) && Defined(es, op)
    ensures UniqueKeys(Step(es, op).0)
  {
    match op
    case InsertOrAssign(key, value) =>
      if IndexOf(es, key) < |es| { ContentsSet(es, IndexOf(es, key), value); }
    case EraseKey(key) => IndexOfRemove(es, key);
    case EraseAt(idx) => ContentsRemove(es, idx);
    case EraseRange(first, last) => WithoutRangeContents(es, first, last);
    case Replace(container) => DedupCorrect(container, 0);
    case _ =>
  }

  /** One operation on the vector is that operation on the map, with the same answer. */
  lemma StepByKeyRefines<K, V>(es: seq<Entry<K, V>>, op: Op<K, V>)
    requires UniqueKeys(es) && Defined(es, op) && ByKey(op)
    ensures UniqueKeys(Step(es, op).0)
    ensures MapStep(Contents(es), op) == (Contents(Step(es, op).0), Step(es, op).1)
  {
    hide Contents, IndexOf, SwapRemove;
    StepUnique(es, op);
    ContentsSize(es);
    match op
    case Emplace(key, value) => InsertRefines(es, Entry(key, value));
    case TryEmplace(key, value) => InsertRefines(es, Entry(key, value));
    case InsertOrAssign(key, value) =>
      IndexOfContents(es, key);
      if IndexOf(es, key) < |es| {
        ContentsSet(es, IndexOf(es, key), value);
      } else {
        InsertRefines(es, Entry(key, value));
      }
    case EraseKey(key) => IndexOfRemove(es, key);
    case Find(key) => IndexOfContents(es, key);
    case Clear => ContentsSize<K, V>([]);
    case _ =>
  }

  /** Every operation on the vector has its effect on the map, with the same answer. */
  lemma StepRefines<K, V>(es: seq<Entry<K, V>>, op: Op<K, V>)
    requires UniqueKeys(es) && Defined(es, op)
    ensures UniqueKeys(Step(es, op).0)
    ensures MapEffect(es, op, Contents(es), Contents(Step(es, op).0), Step(es, op).1)
  {
    hide Contents, IndexOf, SwapRemove, WithoutRange, Dedup, UniqueKeys;
    StepUnique(es, op);
    match op
    case EraseAt(idx) => ContentsRemove(es, idx);
    case EraseRange(first, last) => WithoutRangeContents(es, first, last);
    case Replace(container) => DedupBound(container);
    case _ => StepByKeyRefines(es, op);
  }

  /** The map of a vector taken over. */
  lemma DedupBound<K, V>(es: seq<Entry<K, V>>)
    ensures UniqueKeys(Dedup(es, 0)) && BoundAsIn(Contents(Dedup(es, 0)), es)
  {
    DedupCorrect(es, 0);
    var fs := Dedup(es, 0);
    hide Dedup;
    ContentsEntries(fs);
    hide Contents, UniqueKeys, Keys;
    forall k | k in Contents(fs) ensures Entry(k, Contents(fs)[k]) in es {
      assert Entry(k, Contents(fs)[k]) in multiset(fs);
    }
  }

  lemma InsertRefines<K, V>(es: seq<Entry<K, V>>, e: Entry<K, V>)
    requires UniqueKeys(es)
    ensures UniqueKeys(Insert(es, e).0)
    ensures MapInsert(Contents(es), e.key, e.value) == (Contents(Insert(es, e).0), Insert(es, e).1)
  {
    ContentsSize(es);
    IndexOfContents(es, e.key);
    if IndexOf(es, e.key) == |es| { ContentsAppend(es, e); }
  }

  /** A whole run by keys gives the map's answers and ends with the map's contents. */
  lemma {:induction false} RunByKeyRefines<K, V>(es: seq<Entry<K, V>>, ops: seq<Op<K, V>>)
    requires UniqueKeys(es) && AllDefined(es, ops) && forall op :: op in ops ==> ByKey(op)
    ensures UniqueKeys(Run(es, ops).0)
    ensures MapRun(Contents(es), ops) == (Contents(Run(es, ops).0), Run(es, ops).1)
    decreases |ops|
  {
    if ops != [] {
      StepByKeyRefines(es, ops[0]);
      RunByKeyRefines(Step(es, ops[0]).0, ops[1..]);
    }
  }

  /** A whole run, iterators, ranges and vectors included, has the effects of its operations. */
  lemma {:induction false} RunRefines<K, V>(es: seq<Entry<K, V>>, ops: seq<Op<K, V>>)
    requires UniqueKeys(es) && AllDefined(es, ops)
    ensures HasEffects(Trace(es, ops), ops, Run(es, ops).1)
    decreases |ops|
  {
    if ops != [] {
      hide Contents, UniqueKeys, MapEffect, Defined, Step;
      var fs := Step(es, ops[0]).0;
      StepRefines(es, ops[0]);
      RunRefines(fs, ops[1..]);
      var trace, tail := Trace(es, ops), Trace(fs, ops[1..]);
      var answers, after := Run(es, ops).1, Run(fs, ops[1..]).1;
      assert trace == [es] + tail && answers == [Step(es, ops[0]).1] + after;
      forall i | 0 <= i < |ops|
        ensures HasEffectAt(trace, ops, answers, i)
      {
        if i > 0 { assert HasEffectAt(tail, ops[1..], after, i - 1); }
      }
    }
  }

  /** The real table performs one operation as the vector does. */
  method Perform<K(==), V(==)>(t: Table<K, V>, op: Op<K, V>) returns (answer: Answer<V>)
    requires t.Valid() && Defined(t.values, op)
    modifies t, t.buckets
    ensures t.Valid() && (t.buckets == old(t.buckets) || fresh(t.buckets))
    ensures (t.values, answer) == Step(old(t.values), op)
  {
    hide UniqueKeys, IndexOf, SwapRemove, WithoutRange, Dedup, Contents, LoadLimit, Table.Valid, Table.Map;
    match op
    case Emplace(key, value) =>
      var r := t.Emplace(key, value);
      answer := match r case Inserted(_) => Entered case Present(_) => WasThere case Overflow => NoRoom;
    case TryEmplace(key, value) =>
      var r := t.TryEmplace(key, value);
      answer := match r case Inserted(_) => Entered case Present(_) => WasThere case Overflow => NoRoom;
    case InsertOrAssign(key, value) =>
      var r := t.InsertOrAssign(key, value);
      answer := match r case Inserted(_) => Entered case Present(_) => WasThere case Overflow => NoRoom;
    case EraseKey(key) =>
      var count := t.EraseKey(key);
      answer := Erased(count);
    case Find(key) =>
      var i := t.Find(key);
      answer := if i < |t.values| then Found(t.values[i].value) else Missing;
    case Clear =>
      t.Clear();
      answer := Done;
    case Reserve(count) =>
      var _ := t.Reserve(count);
      answer := Done;
    case Rehash(count) =>
      var _ := t.Rehash(count);
      answer := Done;
    case EraseAt(idx) =>
      var _ := t.EraseAt(idx);
      answer := Done;
    case EraseRange(first, last) =>
      var _ := t.EraseRange(first, last);
      answer := Done;
    case Replace(container) =>
      var r := t.Replace(container);
      answer := if r.Taken? then Done else NoRoom;
  }

  /** A real table, with whatever hash, performs any run as the vector does. */
  method PerformAll<K(==), V(==)>(t: Table<K, V>, ops: seq<Op<K, V>>) returns (answers: seq<Answer<V>>)
    requires t.Valid() && AllDefined(t.values, ops)
    modifies t, t.buckets
    ensures t.Valid() && (t.values, answers) == Run(old(t.values), ops)
    ensures (forall op :: op in ops ==> ByKey(op)) ==> (t.Map(), answers) == MapRun(old(t.Map()), ops)
    ensures HasEffects(Trace(old(t.values), ops), ops, answers) && t.values == Trace(old(t.values), ops)[|ops|]
    decreases |ops|
  {
    RunRefines(t.values, ops);
    if forall op :: op in ops ==> ByKey(op) { RunByKeyRefines(t.values, ops); }
    if ops == [] { return []; }
    var answer := Perform(t, ops[0]);
    var rest := PerformAll(t, ops[1..]);
    answers := [answer] + rest;
  }
}
