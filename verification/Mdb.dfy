/**
 The in-memory table and its change stream. A mutation changes the row map at once and issues a
 change event to a detached thread; the callbacks may run in any order and at any later time. What
 that order means for a reader of the stream is in Schedules.dfy.
 */
module Mdb {
  import opened Bytes

  datatype Crud = CREATE | UPDATE | DELETE

  /** What a callback is given: key, operation and the values before and after it, as captured at issue time. */
  datatype Change<K, V> = Change(key: K, op: Crud, before: V, after: V)

  datatype Op<K, V> = Upsert(key: K, value: V) | Erase(key: K)

  // ----- one mutation, as a function -----

  function Mutate<K, V>(m: map<K, V>, op: Op<K, V>): map<K, V> {
    match op
    case Upsert(k, v) => m[k := v]
    case Erase(k) => m - {k}
  }

  /** The change event of a mutation; erasing an absent key issues none. dflt is the value_type{} of the row type. */
  function Issue<K, V>(m: map<K, V>, op: Op<K, V>, dflt: V): seq<Change<K, V>> {
    match op
    case Upsert(k, v) =>
      if k in m then [Change(k, UPDATE, m[k], v)] else [Change(k, CREATE, dflt, v)]
    case Erase(k) =>
      if k in m then [Change(k, DELETE, m[k], dflt)] else []
  }

  function MutateAll<K, V>(m: map<K, V>, ops: seq<Op<K, V>>): map<K, V> {
    if ops == [] then m else Mutate(MutateAll(m, ops[..|ops| - 1]), ops[|ops| - 1])
  }

  /** The change events of a sequence of mutations, in issue order. */
  function IssueAll<K, V>(m: map<K, V>, ops: seq<Op<K, V>>, dflt: V): seq<Change<K, V>> {
    if ops == [] then []
    else
      var before := ops[..|ops| - 1];
      IssueAll(m, before, dflt) + Issue(MutateAll(m, before), ops[|ops| - 1], dflt)
  }

  // ----- replaying and undoing events -----

  function Redo<K, V>(m: map<K, V>, c: Change<K, V>): map<K, V> {
    if c.op == DELETE then m - {c.key} else m[c.key := c.after]
  }

  function Replay<K, V>(m: map<K, V>, cs: seq<Change<K, V>>): map<K, V> {
    if cs == [] then m else Redo(Replay(m, cs[..|cs| - 1]), cs[|cs| - 1])
  }

  function Undo<K, V>(m: map<K, V>, c: Change<K, V>): map<K, V> {
    if c.op == CREATE then m - {c.key} else m[c.key := c.before]
  }

  /** Undoes the last event first. */
  function Unwind<K, V>(m: map<K, V>, cs: seq<Change<K, V>>): map<K, V>
    decreases |cs|
  {
    if cs == [] then m else Unwind(Undo(m, cs[|cs| - 1]), cs[..|cs| - 1])
  }

  lemma {:induction false} ReplayConcat<K, V>(m: map<K, V>, a: seq<Change<K, V>>, b: seq<Change<K, V>>)
    ensures Replay(m, a + b) == Replay(Replay(m, a), b)
  {
    if b == [] {
      assert a + b == a;
    } else {
      assert (a + b)[..|a + b| - 1] == a + b[..|b| - 1];
      ReplayConcat(m, a, b[..|b| - 1]);
    }
  }

  /** In issue order, the stream rebuilds the table. */
  lemma {:induction false} ReplayInIssueOrder<K, V>(m: map<K, V>, ops: seq<Op<K, V>>, dflt: V)
    ensures Replay(m, IssueAll(m, ops, dflt)) == MutateAll(m, ops)
  {
    if ops != [] {
      var before, op := ops[..|ops| - 1], ops[|ops| - 1];
      var issued := Issue(MutateAll(m, before), op, dflt);
      ReplayInIssueOrder(m, before, dflt);
      ReplayConcat(m, IssueAll(m, before, dflt), issued);
      OneStepReplay(MutateAll(m, before), op, dflt);
    }
  }

  lemma {:induction false} OneStepReplay<K, V>(m: map<K, V>, op: Op<K, V>, dflt: V)
    ensures Replay(m, Issue(m, op, dflt)) == Mutate(m, op)
  {
    var cs := Issue(m, op, dflt);
    if cs == [] {
      assert m - {op.key} == m;
    } else {
      assert cs[..0] == [] && Replay(m, cs) == Redo(m, cs[0]);
    }
  }

  // ----- events are reversible -----

  lemma OneStepUndo<K, V>(m: map<K, V>, op: Op<K, V>, dflt: V)
    ensures Unwind(Mutate(m, op), Issue(m, op, dflt)) == m
  {
    var cs := Issue(m, op, dflt);
    if cs == [] {
      assert m - {op.key} == m;
    } else {
      assert cs[..0] == [] && Unwind(Mutate(m, op), cs) == Undo(Mutate(m, op), cs[0]);
    }
  }

  lemma {:induction false} UnwindConcat<K, V>(m: map<K, V>, a: seq<Change<K, V>>, b: seq<Change<K, V>>)
    ensures Unwind(m, a + b) == Unwind(Unwind(m, b), a)
    decreases |b|
  {
    if b == [] {
      assert a + b == a;
    } else {
      assert (a + b)[..|a + b| - 1] == a + b[..|b| - 1];
      UnwindConcat(Undo(m, b[|b| - 1]), a, b[..|b| - 1]);
    }
  }

  /** The events issued after the first n mutations. */
  function IssuedSince<K, V>(m: map<K, V>, ops: seq<Op<K, V>>, n: nat, dflt: V): seq<Change<K, V>>
    requires n <= |ops|
  {
    IssueAll(MutateAll(m, ops[..n]), ops[n..], dflt)
  }

  lemma {:induction false} MutateAllConcat<K, V>(m: map<K, V>, a: seq<Op<K, V>>, b: seq<Op<K, V>>, dflt: V)
    ensures MutateAll(m, a + b) == MutateAll(MutateAll(m, a), b)
    ensures IssueAll(m, a + b, dflt) == IssueAll(m, a, dflt) + IssueAll(MutateAll(m, a), b, dflt)
  {
    if b == [] {
      assert a + b == a;
    } else {
      assert (a + b)[..|a + b| - 1] == a + b[..|b| - 1];
      MutateAllConcat(m, a, b[..|b| - 1], dflt);
    }
  }

  lemma {:induction false} UnwindAll<K, V>(m: map<K, V>, ops: seq<Op<K, V>>, dflt: V)
    ensures Unwind(MutateAll(m, ops), IssueAll(m, ops, dflt)) == m
  {
    if ops != [] {
      var before, op := ops[..|ops| - 1], ops[|ops| - 1];
      UnwindConcat(MutateAll(m, ops), IssueAll(m, before, dflt), Issue(MutateAll(m, before), op, dflt));
      OneStepUndo(MutateAll(m, before), op, dflt);
      UnwindAll(m, before, dflt);
    }
  }

  /** Undoing events in reverse issue order restores every earlier state of the table. */
  lemma {:induction false} UnwindRestoresEveryState<K, V>(m: map<K, V>, ops: seq<Op<K, V>>, n: nat, dflt: V)
    requires n <= |ops|
    ensures IssueAll(m, ops, dflt) == IssueAll(m, ops[..n], dflt) + IssuedSince(m, ops, n, dflt)
    ensures Unwind(MutateAll(m, ops), IssuedSince(m, ops, n, dflt)) == MutateAll(m, ops[..n])
  {
    assert ops == ops[..n] + ops[n..];
    MutateAllConcat(m, ops[..n], ops[n..], dflt);
    UnwindAll(MutateAll(m, ops[..n]), ops[n..], dflt);
  }

  // ----- the events of one key -----

  /** The events of one key, in order. */
  function ForKey<K(==), V>(cs: seq<Change<K, V>>, key: K): seq<Change<K, V>> {
    if cs == [] then []
    else ForKey(cs[..|cs| - 1], key) + if cs[|cs| - 1].key == key then [cs[|cs| - 1]] else []
  }

  lemma {:induction false} ForKeyConcat<K, V>(a: seq<Change<K, V>>, b: seq<Change<K, V>>, key: K)
    ensures ForKey(a + b, key) == ForKey(a, key) + ForKey(b, key)
  {
    if b == [] {
      assert a + b == a;
    } else {
      assert (a + b)[..|a + b| - 1] == a + b[..|b| - 1];
      ForKeyConcat(a, b[..|b| - 1], key);
    }
  }

  /** (CREATE UPDATE* DELETE)*, with each before the previous after and dflt around a deletion. */
  ghost predicate Chained<K, V>(cs: seq<Change<K, V>>, dflt: V) {
    && (cs != [] ==> cs[0].op == CREATE && cs[0].before == dflt)
    && (forall i :: 0 < i < |cs| ==>
          cs[i].before == cs[i - 1].after && (cs[i].op == CREATE <==> cs[i - 1].op == DELETE))
    && (forall i :: 0 <= i < |cs| && cs[i].op == DELETE ==> cs[i].after == dflt)
  }

  /** The last event of a key tells its current row. */
  ghost predicate TellsRow<K, V>(cs: seq<Change<K, V>>, m: map<K, V>, key: K) {
    if cs == [] then key !in m
    else var last := cs[|cs| - 1];
      if last.op == DELETE then key !in m else key in m && m[key] == last.after
  }

  /** From an empty table, the events of every key form a chain that ends in its current row. */
  lemma {:induction false} EveryKeyIsChained<K, V>(ops: seq<Op<K, V>>, key: K, dflt: V)
    ensures Chained(ForKey(IssueAll(map[], ops, dflt), key), dflt)
    ensures TellsRow(ForKey(IssueAll(map[], ops, dflt), key), MutateAll(map[], ops), key)
  {
    if ops != [] {
      var before, op := ops[..|ops| - 1], ops[|ops| - 1];
      var issued := Issue(MutateAll(map[], before), op, dflt);
      EveryKeyIsChained(before, key, dflt);
      ForKeyConcat(IssueAll(map[], before, dflt), issued, key);
      var cs, next := ForKey(IssueAll(map[], before, dflt), key), ForKey(issued, key);
      if issued == [] {
        assert next == [];
      } else {
        assert issued[..0] == [];
        assert next == if issued[0].key == key then [issued[0]] else [];
      }
      ChainGrows(cs, next, MutateAll(map[], before), op, key, dflt);
    }
  }

  lemma ChainGrows<K, V>(cs: seq<Change<K, V>>, next: seq<Change<K, V>>, m: map<K, V>, op: Op<K, V>, key: K, dflt: V)
    requires Chained(cs, dflt) && TellsRow(cs, m, key)
    requires next == if op.key == key then Issue(m, op, dflt) else []
    ensures Chained(cs + next, dflt) && TellsRow(cs + next, Mutate(m, op), key)
  {
    if next == [] {
      assert cs + next == cs;
    } else {
      assert forall i :: 0 <= i < |cs| ==> (cs + next)[i] == cs[i];
    }
  }

  // ----- events delivered in another order -----

  /** The row an event leaves for its key. */
  function RowAfter<K, V>(c: Change<K, V>): Option<V> {
    if c.op == DELETE then None else Some(c.after)
  }

  /** What a stream says about one key: the row its last event leaves, if any event mentions it. */
  function LastWord<K(==), V>(cs: seq<Change<K, V>>, key: K): Option<V> {
    if cs == [] then None
    else if cs[|cs| - 1].key == key then RowAfter(cs[|cs| - 1])
    else LastWord(cs[..|cs| - 1], key)
  }

  function Row<K, V>(m: map<K, V>, key: K): Option<V> {
    if key in m then Some(m[key]) else None
  }

  lemma {:induction false} ReplayIsLastWord<K, V>(cs: seq<Change<K, V>>, key: K)
    ensures Row(Replay(map[], cs), key) == LastWord(cs, key)
  {
    if cs != [] {
      ReplayIsLastWord(cs[..|cs| - 1], key);
    }
  }

  lemma {:induction false} LastWordOfKey<K, V>(cs: seq<Change<K, V>>, key: K)
    ensures LastWord(cs, key) == LastWord(ForKey(cs, key), key)
    ensures forall i :: 0 <= i < |ForKey(cs, key)| ==> ForKey(cs, key)[i].key == key
  {
    if cs != [] {
      LastWordOfKey(cs[..|cs| - 1], key);
    }
  }

  lemma SameRowsSameTable<K(!new), V>(m: map<K, V>, n: map<K, V>)
    requires forall k: K :: Row(m, k) == Row(n, k)
    ensures m == n
  {
    forall k: K
      ensures k in m <==> k in n
      ensures k in m ==> m[k] == n[k]
    {
      assert Row(m, k) == Row(n, k);
    }
  }

  /** For every key, two streams end in the same row. */
  ghost predicate SameLastWords<K(!new), V>(a: seq<Change<K, V>>, b: seq<Change<K, V>>) {
    forall k: K :: LastWord(a, k) == LastWord(b, k)
  }

  /** Two streams rebuild the same table exactly when they end in the same row for every key. */
  lemma {:induction false} SameTableIffSameLastWords<K(!new), V>(a: seq<Change<K, V>>, b: seq<Change<K, V>>)
    ensures Replay(map[], a) == Replay(map[], b) <==> SameLastWords(a, b)
  {
    var m, n := Replay(map[], a), Replay(map[], b);
    forall k: K
      ensures Row(m, k) == LastWord(a, k) && Row(n, k) == LastWord(b, k)
    {
      ReplayIsLastWord(a, k);
      ReplayIsLastWord(b, k);
    }
    if m == n {
      forall k: K
        ensures LastWord(a, k) == LastWord(b, k)
      {
        assert Row(m, k) == Row(n, k);
      }
    } else if SameLastWords(a, b) {
      forall k: K
        ensures Row(m, k) == Row(n, k)
      {
        assert LastWord(a, k) == LastWord(b, k);
      }
      SameRowsSameTable(m, n);
    }
  }

  /**
   When a delivered stream determines the table: exactly when, for every key, its last delivered event
   leaves the row that the last issued one does.
   */
  lemma {:induction false} StreamDeterminesTableIffLastWordsAgree<K(!new), V>(ops: seq<Op<K, V>>,
                                                                    delivered: seq<Change<K, V>>, dflt: V)
    ensures Replay(map[], delivered) == MutateAll(map[], ops)
       <==> SameLastWords(delivered, IssueAll(map[], ops, dflt))
  {
    ReplayInIssueOrder(map[], ops, dflt);
    SameTableIffSameLastWords(delivered, IssueAll(map[], ops, dflt));
  }

  /** Any order of delivery that keeps the order of the events of each key. */
  ghost predicate KeepsKeyOrder<K(!new), V>(issued: seq<Change<K, V>>, delivered: seq<Change<K, V>>) {
    forall k: K :: ForKey(delivered, k) == ForKey(issued, k)
  }

  /** Delivered in any order that keeps each key's order, the stream replayed on an empty map is the table. */
  lemma {:induction false} KeyOrderIsEnough<K(!new), V>(ops: seq<Op<K, V>>, delivered: seq<Change<K, V>>, dflt: V)
    requires KeepsKeyOrder(IssueAll(map[], ops, dflt), delivered)
    ensures Replay(map[], delivered) == MutateAll(map[], ops)
  {
    forall k: K
      ensures LastWord(delivered, k) == LastWord(IssueAll(map[], ops, dflt), k)
    {
      assert ForKey(delivered, k) == ForKey(IssueAll(map[], ops, dflt), k);
      LastWordOfKey(delivered, k);
      LastWordOfKey(IssueAll(map[], ops, dflt), k);
    }
    StreamDeterminesTableIffLastWordsAgree(ops, delivered, dflt);
  }

  // ----- mutations and detached threads, interleaved -----

  /** One mutation by the caller, or one detached thread running its callback: the i-th pending one. */
  datatype Step<K, V> = Do(op: Op<K, V>) | Deliver(i: nat)

  /** The mutations so far, the events still pending in the order of issue, and those delivered as they ran. */
  datatype Stream<K, V> = Stream(ops: seq<Op<K, V>>, pending: seq<Change<K, V>>, delivered: seq<Change<K, V>>)

  function Rows<K, V>(s: Stream<K, V>): map<K, V> {
    MutateAll(map[], s.ops)
  }

  function Without<T>(s: seq<T>, i: nat): seq<T>
    requires i < |s|
  {
    s[..i] + s[i + 1..]
  }

  predicate CanStep<K, V>(s: Stream<K, V>, step: Step<K, V>) {
    step.Deliver? ==> step.i < |s.pending|
  }

  function TakeStep<K(==), V>(s: Stream<K, V>, step: Step<K, V>, dflt: V): Stream<K, V>
    requires CanStep(s, step)
  {
    match step
    case Do(op) => s.(ops := s.ops + [op], pending := s.pending + Issue(Rows(s), op, dflt))
    case Deliver(i) => s.(pending := Without(s.pending, i), delivered := s.delivered + [s.pending[i]])
  }

  /** The stream after a schedule, if each step was possible when it was taken. */
  function Run<K(==), V>(s: Stream<K, V>, steps: seq<Step<K, V>>, dflt: V): Option<Stream<K, V>> {
    if steps == [] then Some(s)
    else
      var before := Run(s, steps[..|steps| - 1], dflt);
      var step := steps[|steps| - 1];
      if before.Some? && CanStep(before.value, step) then Some(TakeStep(before.value, step, dflt)) else None
  }

  lemma {:induction false} RunOneMore<K, V>(s: Stream<K, V>, steps: seq<Step<K, V>>, t: Stream<K, V>,
                                            step: Step<K, V>, dflt: V)
    requires Run(s, steps, dflt) == Some(t) && CanStep(t, step)
    ensures Run(s, steps + [step], dflt) == Some(TakeStep(t, step, dflt))
  {
    assert (steps + [step])[..|steps|] == steps;
  }

  // ----- the classes -----

  /** The row map; dflt is the value_type{} that out-parameters start from. */
  class Columns<K(==), V> {
    const dflt: V
    var data: map<K, V>

    constructor (dflt: V)
      ensures this.dflt == dflt && data == map[]
    {
      this.dflt, data := dflt, map[];
    }

    method Get(key: K, given: V) returns (found: bool, out: V)
      ensures Row(data, key) == if found then Some(out) else None
      ensures !found ==> out == given
    {
      if key !in data {
        return false, given;
      }
      return true, data[key];
    }

    method Upsert(key: K, newValue: V) returns (isCreate: bool, before: V)
      modifies this
      ensures data == old(data)[key := newValue] == Mutate(old(data), Op.Upsert(key, newValue))
      ensures isCreate <==> key !in old(data)
      ensures before == if key in old(data) then old(data)[key] else dflt
      ensures Issue(old(data), Op.Upsert(key, newValue), dflt)
           == [Change(key, if isCreate then CREATE else UPDATE, before, newValue)]
    {
      if key !in data {
        isCreate, before := true, dflt;
      } else {
        isCreate, before := false, data[key];
      }
      data := data[key := newValue];
    }

    method Erase(key: K, given: V) returns (ok: bool, before: V)
      modifies this
      ensures data == old(data) - {key} == Mutate(old(data), Op.Erase(key))
      ensures ok <==> key in old(data)
      ensures ok ==> before == old(data)[key]
      ensures Issue(old(data), Op.Erase(key), dflt) == if ok then [Change(key, DELETE, before, dflt)] else []
      ensures !ok ==> before == given
    {
      if key !in data {
        assert data - {key} == data;
        return false, given;
      }
      before := data[key];
      data := data - {key};
      return true, before;
    }
  }

  /** A table with its detached tasks: pending ones in the order of issue, delivered ones as they ran. */
  class Table<K(==), V(==)> {
    const record: Columns<K, V>
    const hasCallback: bool
    var pending: seq<Change<K, V>>
    var delivered: seq<Change<K, V>>
    ghost var ops: seq<Op<K, V>>
    ghost var steps: seq<Step<K, V>>

    /** The table as a stream, for the schedules of Schedules.dfy. */
    ghost function AsStream(): Stream<K, V>
      reads this
    {
      Stream(ops, pending, delivered)
    }

    /** The rows are what the mutations made them, and the events are where the schedule so far put them. */
    ghost predicate Valid()
      reads this, record
    {
      && record.data == Rows(AsStream())
      && if hasCallback then Run(Stream([], [], []), steps, record.dflt) == Some(AsStream())
         else pending == [] && delivered == []
    }

    constructor (dflt: V, hasCallback: bool)
      ensures Valid() && ops == [] && pending == [] && delivered == [] && this.hasCallback == hasCallback
      ensures fresh(record) && record.dflt == dflt && steps == []
    {
      record := new Columns(dflt);
      this.hasCallback := hasCallback;
      pending, delivered, ops, steps := [], [], [], [];
    }

    /** Returns whether the future it hands out is still waiting for a task. */
    method Upsert(key: K, value: V) returns (waiting: bool)
      requires Valid()
      modifies this, record
      ensures Valid() && ops == old(ops) + [Op.Upsert(key, value)] && delivered == old(delivered)
      ensures steps == old(steps) + [Do(Op.Upsert(key, value))]
      ensures record.data == old(record.data)[key := value]
      ensures pending == old(pending) + if !hasCallback then []
                else if key in old(record.data) then [Change(key, UPDATE, old(record.data)[key], value)]
                else [Change(key, CREATE, record.dflt, value)]
      ensures waiting == hasCallback
    {
      var isCreate, before := record.Upsert(key, value);
      var op := if isCreate then CREATE else UPDATE;
      Record(Op.Upsert(key, value));
      waiting := Dispatch(Change(key, op, before, value));
    }

    method Erase(key: K) returns (waiting: bool)
      requires Valid()
      modifies this, record
      ensures Valid() && ops == old(ops) + [Op.Erase(key)] && delivered == old(delivered)
      ensures steps == old(steps) + [Do(Op<K, V>.Erase(key))]
      ensures record.data == old(record.data) - {key}
      ensures pending == old(pending) + if hasCallback && key in old(record.data)
                then [Change(key, DELETE, old(record.data)[key], record.dflt)] else []
      ensures waiting == (hasCallback && key in old(record.data))
    {
      var ok, before := record.Erase(key, record.dflt);
      Record(Op.Erase(key));
      if !ok {
        assert pending + [] == pending;
        return false;
      }
      waiting := Dispatch(Change(key, DELETE, before, record.dflt));
    }

    /** Notes a mutation of the rows; its event is yet to be dispatched. */
    ghost method Record(op: Op<K, V>)
      modifies this`ops, this`steps
      ensures ops == old(ops) + [op] && steps == old(steps) + [Do(op)]
      ensures MutateAll(map[], ops) == Mutate(MutateAll(map[], old(ops)), op)
      ensures forall s :: Run(Stream([], [], []), old(steps), record.dflt) == Some(s) ==>
                Run(Stream([], [], []), steps, record.dflt) == Some(TakeStep(s, Do(op), record.dflt))
    {
      ops, steps := ops + [op], steps + [Do(op)];
      assert ops[..|ops| - 1] == old(ops) && steps[..|steps| - 1] == old(steps);
    }

    /** dispatch_callback_async: the task captures the event by value. */
    method Dispatch(c: Change<K, V>) returns (waiting: bool)
      modifies this`pending
      ensures pending == if hasCallback then old(pending) + [c] else old(pending)
      ensures waiting == hasCallback
    {
      if !hasCallback {
        return false;
      }
      pending := pending + [c];
      return true;
    }

    /** One detached thread gets to run its callback; which one is up to the scheduler. */
    method RunSomeTask() returns (i: nat)
      requires Valid() && pending != []
      modifies this`pending, this`delivered, this`steps
      ensures Valid() && i < |old(pending)| && steps == old(steps) + [Deliver(i)]
      ensures delivered == old(delivered) + [old(pending)[i]] && pending == Without(old(pending), i)
    {
      var chosen: int := *;
      i := if 0 <= chosen < |pending| then chosen else 0;
      RunOneMore(Stream([], [], []), steps, AsStream(), Deliver(i), record.dflt);
      delivered := delivered + [pending[i]];
      pending := pending[..i] + pending[i + 1..];
      steps := steps + [Deliver(i)];
    }

    method Get(key: K, given: V) returns (found: bool, out: V)
      requires Valid()
      ensures Row(MutateAll(map[], ops), key) == if found then Some(out) else None
      ensures !found ==> out == given
    {
      found, out := record.Get(key, given);
    }
  }
}
