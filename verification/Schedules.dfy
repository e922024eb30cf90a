/**
 What a reader of the change stream can rely on, under every schedule of the detached threads: the
 exact condition for the delivered events to rebuild the table, and what a caller has to do for it.
 */
module Schedules {
  import opened Bytes
  import opened Mdb

  predicate HasPending<K(==), V>(s: Stream<K, V>, key: K) {
    exists i :: 0 <= i < |s.pending| && s.pending[i].key == key
  }

  predicate AllDeliver<K, V>(steps: seq<Step<K, V>>) {
    forall i :: 0 <= i < |steps| ==> steps[i].Deliver?
  }

  /** The pending threads run to the end, in some order, without further mutations. */
  ghost predicate Drains<K, V>(s: Stream<K, V>, more: seq<Step<K, V>>, t: Stream<K, V>, dflt: V) {
    AllDeliver(more) && Run(s, more, dflt) == Some(t) && t.pending == []
  }

  /** In whatever order they do, the delivered events replayed on an empty map are the table. */
  ghost predicate AlwaysRebuilds<K(!new), V(!new)>(s: Stream<K, V>, dflt: V) {
    forall more, t :: Drains(s, more, t, dflt) ==> Replay(map[], t.delivered) == Rows(t)
  }

  /**
   For each key, every pending event leaves the row the key has now; with none pending, the last
   delivered one did.
   */
  ghost predicate Settled<K(!new), V>(s: Stream<K, V>) {
    && (forall i :: 0 <= i < |s.pending| ==> RowAfter(s.pending[i]) == Row(Rows(s), s.pending[i].key))
    && (forall k: K :: !HasPending(s, k) ==> LastWord(s.delivered, k) == Row(Rows(s), k))
  }

  // ----- one step -----

  lemma WithoutKeepsOthers<T>(s: seq<T>, i: nat, j: nat)
    requires i < |s| && j < |s| && j != i
    ensures j < i ==> Without(s, i)[j] == s[j]
    ensures j > i ==> Without(s, i)[j - 1] == s[j]
  {
  }

  lemma DeliverKeepsPending<K, V>(s: Stream<K, V>, i: nat, key: K, dflt: V)
    requires i < |s.pending| && HasPending(s, key) && s.pending[i].key != key
    ensures HasPending(TakeStep(s, Deliver(i), dflt), key)
  {
    var j :| 0 <= j < |s.pending| && s.pending[j].key == key;
    WithoutKeepsOthers(s.pending, i, j);
    assert TakeStep(s, Deliver(i), dflt).pending[if j < i then j else j - 1].key == key;
  }

  lemma {:induction false} LastWordStep<K, V>(cs: seq<Change<K, V>>, c: Change<K, V>, key: K)
    ensures LastWord(cs + [c], key) == if c.key == key then RowAfter(c) else LastWord(cs, key)
  {
    assert (cs + [c])[..|cs|] == cs;
  }

  lemma SettledDeliver<K(!new), V>(s: Stream<K, V>, i: nat, dflt: V)
    requires Settled(s) && i < |s.pending|
    ensures Settled(TakeStep(s, Deliver(i), dflt))
  {
    var t := TakeStep(s, Deliver(i), dflt);
    forall k: K | !HasPending(t, k)
      ensures LastWord(t.delivered, k) == Row(Rows(t), k)
    {
      LastWordStep(s.delivered, s.pending[i], k);
      if HasPending(s, k) && s.pending[i].key != k {
        DeliverKeepsPending(s, i, k, dflt);
      }
    }
  }

  // ----- every order of delivery -----

  lemma RunPrefix<K, V>(s: Stream<K, V>, more: seq<Step<K, V>>, t: Stream<K, V>, dflt: V)
    returns (before: Stream<K, V>)
    requires more != [] && Run(s, more, dflt) == Some(t)
    ensures Run(s, more[..|more| - 1], dflt) == Some(before)
    ensures CanStep(before, more[|more| - 1]) && t == TakeStep(before, more[|more| - 1], dflt)
  {
    before := Run(s, more[..|more| - 1], dflt).value;
  }

  lemma {:induction false} SettledUntilDrained<K(!new), V>(s: Stream<K, V>, more: seq<Step<K, V>>,
                                                           t: Stream<K, V>, dflt: V)
    requires Settled(s) && AllDeliver(more) && Run(s, more, dflt) == Some(t)
    ensures Settled(t) && t.ops == s.ops
  {
    if more != [] {
      var before := RunPrefix(s, more, t, dflt);
      SettledUntilDrained(s, more[..|more| - 1], before, dflt);
      SettledDeliver(before, more[|more| - 1].i, dflt);
    }
  }

  lemma QuietAndSettledRebuilds<K(!new), V>(s: Stream<K, V>)
    requires s.pending == []
    ensures Settled(s) <==> Replay(map[], s.delivered) == Rows(s)
  {
    var m := Replay(map[], s.delivered);
    forall k: K
      ensures Row(m, k) == LastWord(s.delivered, k) && !HasPending(s, k)
    {
      ReplayIsLastWord(s.delivered, k);
    }
    if Settled(s) {
      SameRowsSameTable(m, Rows(s));
    }
  }

  lemma {:induction false} RunAfterOne<K, V>(s: Stream<K, V>, step: Step<K, V>, more: seq<Step<K, V>>, dflt: V)
    requires CanStep(s, step)
    ensures Run(s, [step] + more, dflt) == Run(TakeStep(s, step, dflt), more, dflt)
  {
    if more == [] {
      assert [step] + more == [] + [step];
      RunOneMore(s, [], s, step, dflt);
    } else {
      var shorter, last := more[..|more| - 1], more[|more| - 1];
      RunAfterOne(s, step, shorter, dflt);
      assert [step] + more == ([step] + shorter) + [last];
      assert ([step] + more)[..|more|] == [step] + shorter;
    }
  }

  /** The scheduler can keep any one pending thread for the end. */
  lemma {:induction false} DrainWithLast<K, V>(s: Stream<K, V>, i: nat, dflt: V)
    returns (more: seq<Step<K, V>>, t: Stream<K, V>)
    requires i < |s.pending|
    ensures Drains(s, more, t, dflt) && t.ops == s.ops
    ensures t.delivered != [] && t.delivered[|t.delivered| - 1] == s.pending[i]
    decreases |s.pending|
  {
    var step := Deliver(if |s.pending| == 1 || i > 0 then 0 else 1);
    var after := TakeStep(s, step, dflt);
    if |s.pending| == 1 {
      more, t := [], after;
    } else {
      more, t := DrainWithLast(after, if i > 0 then i - 1 else 0, dflt);
    }
    RunAfterOne(s, step, more, dflt);
    more := [step] + more;
  }

  /** A key without pending events keeps its last word. */
  lemma {:induction false} DrainLeavesWord<K, V>(s: Stream<K, V>, more: seq<Step<K, V>>, t: Stream<K, V>,
                                                 key: K, dflt: V)
    requires AllDeliver(more) && Run(s, more, dflt) == Some(t) && !HasPending(s, key)
    ensures !HasPending(t, key) && LastWord(t.delivered, key) == LastWord(s.delivered, key)
  {
    if more != [] {
      var before := RunPrefix(s, more, t, dflt);
      var i := more[|more| - 1].i;
      DrainLeavesWord(s, more[..|more| - 1], before, key, dflt);
      LastWordStep(before.delivered, before.pending[i], key);
    }
  }

  lemma UnsettledCanGoWrong<K(!new), V(!new)>(s: Stream<K, V>, dflt: V)
    requires !Settled(s)
    ensures !AlwaysRebuilds(s, dflt)
  {
    var more, t;
    var k: K;
    if i :| 0 <= i < |s.pending| && RowAfter(s.pending[i]) != Row(Rows(s), s.pending[i].key) {
      more, t := DrainWithLast(s, i, dflt);
      k := s.pending[i].key;
    } else {
      k :| !HasPending(s, k) && LastWord(s.delivered, k) != Row(Rows(s), k);
      if s.pending == [] {
        more, t := [], s;
      } else {
        more, t := DrainWithLast(s, 0, dflt);
      }
      DrainLeavesWord(s, more, t, k, dflt);
    }
    assert Drains(s, more, t, dflt);
    ReplayIsLastWord(t.delivered, k);
  }

  /**
   At any point of any schedule: every order in which the pending callbacks can run rebuilds the table
   exactly when the stream is settled.
   */
  lemma EveryDrainRebuildsIffSettled<K(!new), V(!new)>(s: Stream<K, V>, dflt: V)
    ensures AlwaysRebuilds(s, dflt) <==> Settled(s)
  {
    if Settled(s) {
      forall more, t | Drains(s, more, t, dflt)
        ensures Replay(map[], t.delivered) == Rows(t)
      {
        SettledUntilDrained(s, more, t, dflt);
        QuietAndSettledRebuilds(t);
      }
    } else {
      UnsettledCanGoWrong(s, dflt);
    }
  }

  // ----- what a caller has to do -----

  /** Every event still pending for the key of a mutation leaves the row that the mutation leaves. */
  predicate Harmless<K(==), V(==)>(s: Stream<K, V>, op: Op<K, V>) {
    forall i :: 0 <= i < |s.pending| && s.pending[i].key == op.key ==>
      RowAfter(s.pending[i]) == Row(Mutate(Rows(s), op), op.key)
  }

  lemma RowsAfterDo<K, V>(s: Stream<K, V>, op: Op<K, V>, key: K, dflt: V)
    ensures Rows(TakeStep(s, Do(op), dflt)) == Mutate(Rows(s), op)
    ensures key != op.key ==> Row(Mutate(Rows(s), op), key) == Row(Rows(s), key)
  {
    assert (s.ops + [op])[..|s.ops|] == s.ops;
  }

  lemma IssuedLeavesTheRow<K, V>(m: map<K, V>, op: Op<K, V>, dflt: V)
    ensures forall c :: c in Issue(m, op, dflt) ==> c.key == op.key && RowAfter(c) == Row(Mutate(m, op), op.key)
    ensures Issue(m, op, dflt) == [] ==> Row(Mutate(m, op), op.key) == Row(m, op.key)
  {
  }

  lemma DoAddsPending<K, V>(s: Stream<K, V>, op: Op<K, V>, key: K, dflt: V)
    ensures HasPending(TakeStep(s, Do(op), dflt), key)
       <==> HasPending(s, key) || (key == op.key && Issue(Rows(s), op, dflt) != [])
  {
    var t := TakeStep(s, Do(op), dflt);
    if HasPending(s, key) {
      var i :| 0 <= i < |s.pending| && s.pending[i].key == key;
      assert t.pending[i].key == key;
    }
    if Issue(Rows(s), op, dflt) != [] {
      assert t.pending[|s.pending|].key == op.key;
    }
  }

  lemma HarmlessKeepsSettled<K(!new), V>(s: Stream<K, V>, op: Op<K, V>, dflt: V)
    requires Settled(s) && Harmless(s, op)
    ensures Settled(TakeStep(s, Do(op), dflt))
  {
    var t := TakeStep(s, Do(op), dflt);
    IssuedLeavesTheRow(Rows(s), op, dflt);
    forall i | 0 <= i < |t.pending|
      ensures RowAfter(t.pending[i]) == Row(Rows(t), t.pending[i].key)
    {
      RowsAfterDo(s, op, t.pending[i].key, dflt);
    }
    forall k: K | !HasPending(t, k)
      ensures LastWord(t.delivered, k) == Row(Rows(t), k)
    {
      DoAddsPending(s, op, k, dflt);
      RowsAfterDo(s, op, k, dflt);
    }
  }

  /**
   While the stream is rebuildable, a mutation keeps it so exactly when every event still pending for
   its key leaves the row that the mutation leaves; in particular when none is pending.
   */
  lemma MutationIsSafeIffHarmless<K(!new), V(!new)>(s: Stream<K, V>, op: Op<K, V>, dflt: V)
    requires AlwaysRebuilds(s, dflt)
    ensures AlwaysRebuilds(TakeStep(s, Do(op), dflt), dflt) <==> Harmless(s, op)
  {
    var t := TakeStep(s, Do(op), dflt);
    EveryDrainRebuildsIffSettled(s, dflt);
    EveryDrainRebuildsIffSettled(t, dflt);
    if Harmless(s, op) {
      HarmlessKeepsSettled(s, op, dflt);
    } else {
      var i :| 0 <= i < |s.pending| && s.pending[i].key == op.key
               && RowAfter(s.pending[i]) != Row(Mutate(Rows(s), op), op.key);
      RowsAfterDo(s, op, op.key, dflt);
      assert t.pending[i] == s.pending[i];
    }
  }

  // ----- whole schedules -----

  /** The table before its first mutation. */
  function Start<K, V>(): Stream<K, V> {
    Stream([], [], [])
  }

  ghost predicate RebuildsThroughout<K(!new), V(!new)>(steps: seq<Step<K, V>>, dflt: V) {
    forall n :: 0 <= n <= |steps| && Run(Start(), steps[..n], dflt).Some? ==>
      AlwaysRebuilds(Run(Start(), steps[..n], dflt).value, dflt)
  }

  ghost predicate HarmlessThroughout<K, V>(steps: seq<Step<K, V>>, dflt: V) {
    forall n :: 0 <= n < |steps| && steps[n].Do? && Run(Start(), steps[..n], dflt).Some? ==>
      Harmless(Run(Start(), steps[..n], dflt).value, steps[n].op)
  }

  lemma {:induction false} RunReaches<K, V>(steps: seq<Step<K, V>>, n: nat, dflt: V)
    requires n <= |steps| && Run(Start(), steps, dflt).Some?
    ensures Run(Start(), steps[..n], dflt).Some?
    ensures n < |steps| ==>
              var s := Run(Start(), steps[..n], dflt).value;
              CanStep(s, steps[n]) && Run(Start(), steps[..n + 1], dflt) == Some(TakeStep(s, steps[n], dflt))
    decreases |steps| - n
  {
    if n == |steps| {
      assert steps[..n] == steps;
    } else {
      RunReaches(steps, n + 1, dflt);
      assert steps[..n + 1][..n] == steps[..n];
    }
  }

  lemma {:induction false} RebuildsAt<K(!new), V(!new)>(steps: seq<Step<K, V>>, n: nat, s: Stream<K, V>, dflt: V)
    requires n <= |steps| && Run(Start(), steps, dflt).Some? && Run(Start(), steps[..n], dflt) == Some(s)
    requires HarmlessThroughout(steps, dflt)
    ensures AlwaysRebuilds(s, dflt)
  {
    EveryDrainRebuildsIffSettled(s, dflt);
    if n > 0 {
      RunReaches(steps, n - 1, dflt);
      var before := Run(Start(), steps[..n - 1], dflt).value;
      RebuildsAt(steps, n - 1, before, dflt);
      EveryDrainRebuildsIffSettled(before, dflt);
      match steps[n - 1]
      case Do(op) => HarmlessKeepsSettled(before, op, dflt);
      case Deliver(i) => SettledDeliver(before, i, dflt);
    }
  }

  /**
   For every schedule: the stream is rebuildable throughout, whatever order the callbacks run in,
   exactly when each mutation finds only such events pending for its key as leave the row it leaves.
   */
  lemma {:induction false} RebuildsThroughoutIffHarmless<K(!new), V(!new)>(steps: seq<Step<K, V>>, dflt: V)
    requires Run(Start(), steps, dflt).Some?
    ensures RebuildsThroughout(steps, dflt) <==> HarmlessThroughout(steps, dflt)
  {
    if HarmlessThroughout(steps, dflt) {
      forall n | 0 <= n <= |steps|
        ensures Run(Start(), steps[..n], dflt).Some? ==>
                  AlwaysRebuilds(Run(Start(), steps[..n], dflt).value, dflt)
      {
        RunReaches(steps, n, dflt);
        RebuildsAt(steps, n, Run(Start(), steps[..n], dflt).value, dflt);
      }
    }
    if RebuildsThroughout(steps, dflt) {
      forall n | 0 <= n < |steps| && steps[n].Do?
        ensures Run(Start(), steps[..n], dflt).Some? ==>
                  Harmless(Run(Start(), steps[..n], dflt).value, steps[n].op)
      {
        RunReaches(steps, n, dflt);
        assert AlwaysRebuilds(Run(Start(), steps[..n + 1], dflt).value, dflt);
        MutationIsSafeIffHarmless(Run(Start(), steps[..n], dflt).value, steps[n].op, dflt);
      }
    }
  }

  // ----- the events of one key, delivered in order -----

  /** Delivered, then pending: for each key these are the issued events, in order. */
  ghost predicate InKeyOrder<K(!new), V>(s: Stream<K, V>, dflt: V) {
    forall k: K :: ForKey(s.delivered, k) + ForKey(s.pending, k) == ForKey(IssueAll(map[], s.ops, dflt), k)
  }

  /** The i-th pending callback runs before an older one of the same key. */
  predicate Overtakes<K(==), V>(s: Stream<K, V>, i: nat)
    requires i < |s.pending|
  {
    exists j :: 0 <= j < i && s.pending[j].key == s.pending[i].key
  }

  lemma {:induction false} NoneForKey<K, V>(cs: seq<Change<K, V>>, key: K)
    requires forall i :: 0 <= i < |cs| ==> cs[i].key != key
    ensures ForKey(cs, key) == []
  {
    if cs != [] {
      NoneForKey(cs[..|cs| - 1], key);
    }
  }

  lemma {:induction false} ForKeySnoc<K, V>(cs: seq<Change<K, V>>, c: Change<K, V>, key: K)
    ensures ForKey(cs + [c], key) == if c.key == key then ForKey(cs, key) + [c] else ForKey(cs, key)
  {
    assert (cs + [c])[..|cs|] == cs;
  }

  lemma KeyOrderDeliver<K, V>(s: Stream<K, V>, i: nat, key: K)
    requires i < |s.pending| && !Overtakes(s, i)
    ensures ForKey(s.delivered + [s.pending[i]], key) + ForKey(Without(s.pending, i), key)
         == ForKey(s.delivered, key) + ForKey(s.pending, key)
  {
    var a, c, b := s.pending[..i], s.pending[i], s.pending[i + 1..];
    assert s.pending == a + [c] + b;
    DeliveredInTurn(s.delivered, a, c, b, key);
  }

  /** Delivering c, with no event of its key in front of it. */
  lemma {:induction false} DeliveredInTurn<K, V>(d: seq<Change<K, V>>, a: seq<Change<K, V>>, c: Change<K, V>,
                                                 b: seq<Change<K, V>>, key: K)
    requires forall i :: 0 <= i < |a| ==> a[i].key != c.key
    ensures ForKey(d + [c], key) + ForKey(a + b, key) == ForKey(d, key) + ForKey(a + [c] + b, key)
  {
    ForKeyConcat(a + [c], b, key);
    ForKeyConcat(a, b, key);
    ForKeySnoc(a, c, key);
    ForKeySnoc(d, c, key);
    if c.key == key {
      NoneForKey(a, key);
      Regroup(ForKey(d, key), [c], ForKey(b, key));
    }
  }

  lemma {:induction false} IssueOneMore<K, V>(ops: seq<Op<K, V>>, op: Op<K, V>, dflt: V)
    ensures IssueAll(map[], ops + [op], dflt) == IssueAll(map[], ops, dflt) + Issue(MutateAll(map[], ops), op, dflt)
  {
    assert (ops + [op])[..|ops|] == ops;
  }

  lemma KeyOrderDo<K, V>(s: Stream<K, V>, op: Op<K, V>, key: K, dflt: V)
    requires ForKey(s.delivered, key) + ForKey(s.pending, key) == ForKey(IssueAll(map[], s.ops, dflt), key)
    ensures var t := TakeStep(s, Do(op), dflt);
            ForKey(t.delivered, key) + ForKey(t.pending, key) == ForKey(IssueAll(map[], t.ops, dflt), key)
  {
    var issued, all := Issue(Rows(s), op, dflt), IssueAll(map[], s.ops, dflt);
    IssueOneMore(s.ops, op, dflt);
    ForKeyConcat(s.pending, issued, key);
    ForKeyConcat(all, issued, key);
    Regroup(ForKey(s.delivered, key), ForKey(s.pending, key), ForKey(issued, key));
  }

  /** A step keeps each key's order unless it delivers an event before an older one of its key. */
  lemma InKeyOrderStep<K(!new), V>(s: Stream<K, V>, step: Step<K, V>, dflt: V)
    requires InKeyOrder(s, dflt) && CanStep(s, step)
    requires step.Deliver? ==> !Overtakes(s, step.i)
    ensures InKeyOrder(TakeStep(s, step, dflt), dflt)
  {
    var t := TakeStep(s, step, dflt);
    forall k: K
      ensures ForKey(t.delivered, k) + ForKey(t.pending, k) == ForKey(IssueAll(map[], t.ops, dflt), k)
    {
      match step
      case Do(op) => KeyOrderDo(s, op, k, dflt);
      case Deliver(i) => KeyOrderDeliver(s, i, k);
    }
  }

  /** The caller mutates a key only after the futures of its earlier mutations are done. */
  ghost predicate Waits<K, V>(steps: seq<Step<K, V>>, dflt: V) {
    forall n :: 0 <= n < |steps| && steps[n].Do? && Run(Start(), steps[..n], dflt).Some? ==>
      !HasPending(Run(Start(), steps[..n], dflt).value, steps[n].op.key)
  }

  ghost predicate OnePerKey<K, V>(s: Stream<K, V>) {
    forall i, j :: 0 <= i < j < |s.pending| ==> s.pending[i].key != s.pending[j].key
  }

  lemma OnePerKeyStep<K, V>(s: Stream<K, V>, step: Step<K, V>, dflt: V)
    requires OnePerKey(s) && CanStep(s, step)
    requires step.Do? ==> !HasPending(s, step.op.key)
    ensures OnePerKey(TakeStep(s, step, dflt))
    ensures step.Deliver? ==> !Overtakes(s, step.i)
  {
    if step.Do? {
      IssuedLeavesTheRow(Rows(s), step.op, dflt);
    }
  }

  lemma {:induction false} WaitingKeepsOrder<K(!new), V>(steps: seq<Step<K, V>>, s: Stream<K, V>, dflt: V)
    requires Run(Start(), steps, dflt) == Some(s) && Waits(steps, dflt)
    ensures OnePerKey(s) && InKeyOrder(s, dflt)
  {
    if steps != [] {
      var shorter, step := steps[..|steps| - 1], steps[|steps| - 1];
      var before := RunPrefix(Start(), steps, s, dflt);
      assert forall n :: 0 <= n < |shorter| ==> shorter[..n] == steps[..n];
      WaitingKeepsOrder(shorter, before, dflt);
      OnePerKeyStep(before, step, dflt);
      InKeyOrderStep(before, step, dflt);
    }
  }

  /**
   A caller who waits for the futures of a key before mutating it again is safe under every schedule:
   each key's events are delivered in the order of issue, at most one at a time is pending, and the
   stream is rebuildable throughout.
   */
  lemma {:induction false} WaitingIsEnough<K(!new), V(!new)>(steps: seq<Step<K, V>>, s: Stream<K, V>, dflt: V)
    requires Run(Start(), steps, dflt) == Some(s) && Waits(steps, dflt)
    ensures OnePerKey(s) && InKeyOrder(s, dflt) && AlwaysRebuilds(s, dflt)
    ensures s.pending == [] ==> KeepsKeyOrder(IssueAll(map[], s.ops, dflt), s.delivered)
  {
    WaitingKeepsOrder(steps, s, dflt);
    assert HarmlessThroughout(steps, dflt);
    assert steps[..|steps|] == steps;
    RebuildsAt(steps, |steps|, s, dflt);
    if s.pending == [] {
      forall k: K
        ensures ForKey(s.delivered, k) == ForKey(IssueAll(map[], s.ops, dflt), k)
      {
        assert ForKey(s.delivered, k) + ForKey(s.pending, k) == ForKey(IssueAll(map[], s.ops, dflt), k);
      }
    }
  }

  /** A caller who does not can be lied to: a row is created and erased, and comes back. */
  lemma SwappedEventsResurrectARow<K, V>(key: K, value: V, dflt: V)
    returns (steps: seq<Step<K, V>>, s: Stream<K, V>)
    ensures Run(Start(), steps, dflt) == Some(s) && s.pending == []
    ensures s.ops == [Op.Upsert(key, value), Op.Erase(key)] && Rows(s) == map[]
    ensures Replay(map[], s.delivered) == map[key := value]
  {
    var created, erased := Change(key, CREATE, dflt, value), Change(key, DELETE, value, dflt);
    steps, s := CreateAndErase(key, value, dflt);
    steps, s := Next(steps, s, Deliver(1), dflt);
    assert s.pending == [created] && s.delivered == [erased];
    steps, s := Next(steps, s, Deliver(0), dflt);
    assert s.pending == [] && s.delivered == [erased, created];
    TwoEvents(erased, created);
  }

  lemma CreateAndErase<K, V>(key: K, value: V, dflt: V) returns (steps: seq<Step<K, V>>, s: Stream<K, V>)
    ensures Run(Start(), steps, dflt) == Some(s) && Rows(s) == map[]
    ensures s == Stream([Op.Upsert(key, value), Op.Erase(key)],
                        [Change(key, CREATE, dflt, value), Change(key, DELETE, value, dflt)], [])
  {
    steps, s := Next([], Start(), Do(Op.Upsert(key, value)), dflt);
    assert s == Stream([Op.Upsert(key, value)], [Change(key, CREATE, dflt, value)], []);
    TwoMutations(Op.Upsert(key, value), Op.Erase(key));
    steps, s := Next(steps, s, Do(Op.Erase(key)), dflt);
  }

  lemma TwoMutations<K, V>(a: Op<K, V>, b: Op<K, V>)
    ensures MutateAll(map[], [a]) == Mutate(map[], a) && MutateAll(map[], [a, b]) == Mutate(Mutate(map[], a), b)
  {
    assert [a][..0] == [] && [a, b][..1] == [a];
  }

  lemma TwoEvents<K, V>(c: Change<K, V>, d: Change<K, V>)
    ensures Replay(map[], [c, d]) == Redo(Redo(map[], c), d)
  {
    var m: map<K, V> := map[];
    assert [c][..0] == [] && Replay(m, [c]) == Redo(m, c);
    assert [c, d][..1] == [c];
  }

  lemma Next<K, V>(steps: seq<Step<K, V>>, s: Stream<K, V>, step: Step<K, V>, dflt: V)
    returns (longer: seq<Step<K, V>>, t: Stream<K, V>)
    requires Run(Start(), steps, dflt) == Some(s) && CanStep(s, step)
    ensures Run(Start(), longer, dflt) == Some(t) && t == TakeStep(s, step, dflt)
    ensures longer == steps + [step]
  {
    RunOneMore(Start(), steps, s, step, dflt);
    longer, t := steps + [step], TakeStep(s, step, dflt);
  }

  // ----- the class -----

  lemma TakeOut<T>(s: seq<T>, i: nat)
    requires i < |s|
    ensures multiset(Without(s, i)) + multiset{s[i]} == multiset(s)
  {
    assert s == s[..i] + [s[i]] + s[i + 1..];
  }

  /** Every issued event is pending or delivered, exactly once. */
  lemma {:induction false} EventsAreConserved<K, V>(steps: seq<Step<K, V>>, s: Stream<K, V>, dflt: V)
    requires Run(Start(), steps, dflt) == Some(s)
    ensures multiset(s.pending) + multiset(s.delivered) == multiset(IssueAll(map[], s.ops, dflt))
  {
    if steps != [] {
      var step := steps[|steps| - 1];
      var before := RunPrefix(Start(), steps, s, dflt);
      EventsAreConserved(steps[..|steps| - 1], before, dflt);
      match step
      case Do(op) => IssueOneMore(before.ops, op, dflt);
      case Deliver(i) => TakeOut(before.pending, i);
    }
  }

  /**
   For a table with a callback, at any time: each issued event is pending or was delivered, exactly once,
   with the values of issue time. The delivered events are bound to rebuild the rows once every thread
   has run exactly when the stream is settled, and it is if the caller has waited.
   */
  lemma TableIsReplayable<K(!new), V(!new)>(table: Table<K, V>)
    requires table.Valid() && table.hasCallback
    ensures multiset(table.pending) + multiset(table.delivered)
         == multiset(IssueAll(map[], table.ops, table.record.dflt))
    ensures AlwaysRebuilds(table.AsStream(), table.record.dflt) <==> Settled(table.AsStream())
    ensures table.pending == [] ==>
              (Settled(table.AsStream()) <==> Replay(map[], table.delivered) == table.record.data)
    ensures Waits(table.steps, table.record.dflt) ==> Settled(table.AsStream())
  {
    var s, dflt := table.AsStream(), table.record.dflt;
    EventsAreConserved(table.steps, s, dflt);
    EveryDrainRebuildsIffSettled(s, dflt);
    if s.pending == [] {
      QuietAndSettledRebuilds(s);
    }
    if Waits(table.steps, dflt) {
      WaitingIsEnough(table.steps, s, dflt);
    }
  }
}
