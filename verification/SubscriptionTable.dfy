/** The message-handler table: a fixed number of slots that stands for a multiset of subscriptions. */
module SubscriptionTable {
  import opened Prelude
  import opened Wire
  import opened SubscribeCodec

  /** `handler` identifies the application function; the filter's length is its text's length. */
  datatype Subscription = Subscription(filter: Text, qos: QoS, handler: nat)

  /** An empty slot has a null topic name in the source. */
  type Slot = Option<Subscription>

  /** The first empty slot, or the number of slots when the table is full. */
  function LowestFree(t: seq<Slot>): (i: nat)
    ensures i <= |t|
    ensures i < |t| ==> t[i].None?
    ensures forall j | 0 <= j < i :: t[j].Some?
  {
    if |t| == 0 || t[0].None? then 0 else 1 + LowestFree(t[1..])
  }

  predicate HasNoHandler(t: seq<Slot>) {
    forall i | 0 <= i < |t| :: t[i].None?
  }

  function Add(t: seq<Slot>, s: Subscription): (r: seq<Slot>)
    requires LowestFree(t) < |t|
  {
    t[LowestFree(t) := Some(s)]
  }

  function RemoveFilter(t: seq<Slot>, filter: Text): (r: seq<Slot>)
    ensures |r| == |t|
    ensures forall i | 0 <= i < |t| :: r[i] == if t[i].Some? && t[i].value.filter == filter then None else t[i]
  {
    seq(|t|, i requires 0 <= i < |t| => if t[i].Some? && t[i].value.filter == filter then None else t[i])
  }

  predicate HasFilter(t: seq<Slot>, filter: Text) {
    exists i | 0 <= i < |t| :: t[i].Some? && t[i].value.filter == filter
  }

  // ---------- The multiset a table stands for ----------

  function Live(t: seq<Slot>): (m: multiset<Subscription>) {
    if |t| == 0 then multiset{}
    else Contribution(t[0]) + Live(t[1..])
  }

  function Contribution(slot: Slot): (m: multiset<Subscription>) {
    match slot case None => multiset{} case Some(s) => multiset{s}
  }

  /** `m` without any subscription to `filter`. */
  ghost predicate Without(m: multiset<Subscription>, filter: Text, r: multiset<Subscription>) {
    forall s: Subscription :: r[s] == if s.filter == filter then 0 else m[s]
  }

  lemma {:induction false} LiveConcat(a: seq<Slot>, b: seq<Slot>)
    ensures Live(a + b) == Live(a) + Live(b)
    decreases |a|
  {
    if |a| == 0 {
      assert a + b == b;
    } else {
      assert (a + b)[1..] == a[1..] + b;
      LiveConcat(a[1..], b);
    }
  }

  lemma LiveSplit(t: seq<Slot>, i: nat)
    requires i < |t|
    ensures Live(t) == Live(t[..i]) + Contribution(t[i]) + Live(t[i + 1..])
  {
    var tail := t[i..];
    assert t == t[..i] + tail;
    LiveConcat(t[..i], tail);
    assert tail[0] == t[i] && tail[1..] == t[i + 1..];
  }

  /** Storing into a slot adds the subscription and loses whatever the slot held. */
  lemma StoreInSlot(t: seq<Slot>, i: nat, s: Subscription)
    requires i < |t|
    ensures Live(t[i := Some(s)]) + Contribution(t[i]) == Live(t) + multiset{s}
  {
    var t' := t[i := Some(s)];
    LiveSplit(t, i);
    LiveSplit(t', i);
    assert t'[..i] == t[..i] && t'[i + 1..] == t[i + 1..];
    Exchange(Live(t[..i]), multiset{s}, Live(t[i + 1..]), Contribution(t[i]));
  }

  lemma Exchange<T>(a: multiset<T>, b: multiset<T>, c: multiset<T>, d: multiset<T>)
    ensures (a + b + c) + d == (a + d + c) + b
  {
  }

  /** A store is an addition exactly when the slot is still empty at that moment. The slot is chosen
      before the wait for the SUBACK, so a handler that subscribes meanwhile takes the same slot and
      loses its subscription. */
  lemma StoreIsAdditionIffSlotEmpty(t: seq<Slot>, i: nat, s: Subscription)
    requires i < |t|
    ensures Live(t[i := Some(s)]) == Live(t) + multiset{s} <==> t[i].None?
  {
    StoreInSlot(t, i, s);
    if t[i].Some? {
      assert (Live(t[i := Some(s)]) + multiset{t[i].value})[t[i].value] == Live(t[i := Some(s)])[t[i].value] + 1;
    }
  }

  /** A subscribe to `a` picks slot 1 and waits; meanwhile a message comes for `c`, whose handler
      subscribes to `b`, which goes into slot 1 too; the store of `a` then loses `b`. */
  lemma NestedSubscribeIsLost(a: Subscription, b: Subscription, c: Subscription)
    ensures var table := [Some(c), None, None];
            var chosen := LowestFree(table);
            var between := Add(table, b);
            var after := between[chosen := Some(a)];
            && chosen == 1 && between == [Some(c), Some(b), None] && after == [Some(c), Some(a), None]
            && Live(after) + multiset{b} == Live(between) + multiset{a}
            && Live(after) != Live(between) + multiset{a}
  {
    var table, between: seq<Slot> := [Some(c), None, None], [Some(c), Some(b), None];
    assert table[1..] == [None, None];
    assert LowestFree(table) == 1;
    assert Add(table, b) == between && between[1 := Some(a)] == [Some(c), Some(a), None];
    StoreInSlot(between, 1, a);
    StoreIsAdditionIffSlotEmpty(between, 1, a);
  }

  lemma {:induction false} RemoveFilterMeaning(t: seq<Slot>, filter: Text)
    ensures Without(Live(t), filter, Live(RemoveFilter(t, filter)))
    decreases |t|
  {
    if |t| > 0 {
      assert RemoveFilter(t, filter)[1..] == RemoveFilter(t[1..], filter);
      RemoveFilterMeaning(t[1..], filter);
    }
  }

  lemma {:induction false} LiveCount(t: seq<Slot>)
    ensures |Live(t)| <= |t|
    ensures |Live(t)| == |t| <==> LowestFree(t) == |t|
    decreases |t|
  {
    if |t| > 0 {
      LiveCount(t[1..]);
    }
  }

  // ---------- Runs ----------

  datatype TableOp = Subscribe(s: Subscription) | Unsubscribe(filter: Text)

  /** A completed call on the table; a subscribe on a full table fails and changes nothing. */
  function Apply(t: seq<Slot>, op: TableOp): (r: seq<Slot>)
    ensures |r| == |t|
  {
    match op
    case Subscribe(s) => if LowestFree(t) < |t| then Add(t, s) else t
    case Unsubscribe(filter) => RemoveFilter(t, filter)
  }

  function RunTable(t: seq<Slot>, ops: seq<TableOp>): (r: seq<Slot>)
    ensures |r| == |t|
    decreases |ops|
  {
    if |ops| == 0 then t else RunTable(Apply(t, ops[0]), ops[1..])
  }

  lemma {:induction false} RunTableAppend(t: seq<Slot>, ops: seq<TableOp>, op: TableOp)
    ensures RunTable(t, ops + [op]) == Apply(RunTable(t, ops), op)
    decreases |ops|
  {
    if |ops| == 0 {
      assert ops + [op] == [op];
    } else {
      assert (ops + [op])[1..] == ops[1..] + [op];
      RunTableAppend(Apply(t, ops[0]), ops[1..], op);
    }
  }

  /** The same operation on a multiset with room for `capacity` subscriptions. */
  ghost predicate MultisetStep(m: multiset<Subscription>, op: TableOp, capacity: nat, r: multiset<Subscription>) {
    match op
    case Subscribe(s) => r == if |m| < capacity then m + multiset{s} else m
    case Unsubscribe(filter) => Without(m, filter, r)
  }

  ghost predicate MultisetRun(ms: seq<multiset<Subscription>>, ops: seq<TableOp>, capacity: nat) {
    && |ms| == |ops| + 1
    && (|ops| > 0 ==> MultisetStep(ms[0], ops[0], capacity, ms[1]) && MultisetRun(ms[1..], ops[1..], capacity))
  }

  function LiveAlong(t: seq<Slot>, ops: seq<TableOp>): (ms: seq<multiset<Subscription>>)
    ensures |ms| == |ops| + 1
    ensures ms[0] == Live(t)
    decreases |ops|
  {
    if |ops| == 0 then [Live(t)] else [Live(t)] + LiveAlong(Apply(t, ops[0]), ops[1..])
  }

  lemma ApplyRefines(t: seq<Slot>, op: TableOp)
    ensures MultisetStep(Live(t), op, |t|, Live(Apply(t, op)))
  {
    LiveCount(t);
    match op {
      case Subscribe(s) =>
        if LowestFree(t) < |t| {
          StoreIsAdditionIffSlotEmpty(t, LowestFree(t), s);
        }
      case Unsubscribe(filter) => RemoveFilterMeaning(t, filter);
    }
  }

  /** Over every run of completed calls the table behaves as a bounded multiset of subscriptions. */
  lemma {:induction false} TableRefinesMultiset(t: seq<Slot>, ops: seq<TableOp>)
    ensures MultisetRun(LiveAlong(t, ops), ops, |t|)
    ensures LiveAlong(t, ops)[|ops|] == Live(RunTable(t, ops))
    decreases |ops|
  {
    hide Apply, Live, MultisetStep;
    if |ops| > 0 {
      var t' := Apply(t, ops[0]);
      ApplyRefines(t, ops[0]);
      TableRefinesMultiset(t', ops[1..]);
      assert LiveAlong(t, ops)[1..] == LiveAlong(t', ops[1..]);
    }
  }

  // ---------- What a resubscription covers ----------

  /** The requests in the slots below `n`, in slot order. */
  function RequestsBelow(t: seq<Slot>, n: nat): (r: seq<Request>)
    requires n <= LowestFree(t)
    ensures |r| == n
  {
    seq(n, i requires 0 <= i < n => Request(t[i].value.filter, t[i].value.qos))
  }

  predicate OccupiedIsPrefix(t: seq<Slot>) {
    forall i, j | 0 <= i < j < |t| :: t[j].Some? ==> t[i].Some?
  }

  /** A resubscription stops at the first empty slot; it covers every live subscription exactly when
      the occupied slots form a prefix. */
  lemma ResubscribeCoversAllIffPrefix(t: seq<Slot>)
    ensures Live(t[..LowestFree(t)]) == Live(t) <==> OccupiedIsPrefix(t)
  {
    hide Live, LowestFree, OccupiedIsPrefix;
    var n := LowestFree(t);
    assert t == t[..n] + t[n..];
    LiveConcat(t[..n], t[n..]);
    LiveEmptyIff(t[n..]);
    PrefixIffTailEmpty(t);
    SumEqualsIffZero(Live(t[..n]), Live(t[n..]));
    forall k | n <= k < |t| ensures t[n..][k - n] == t[k] {
    }
  }

  lemma SumEqualsIffZero<T>(a: multiset<T>, b: multiset<T>)
    ensures a == a + b <==> b == multiset{}
  {
    if x :| x in b {
      assert (a + b)[x] == a[x] + b[x];
    }
  }

  lemma PrefixIffTailEmpty(t: seq<Slot>)
    ensures OccupiedIsPrefix(t) <==> forall k | LowestFree(t) <= k < |t| :: t[k].None?
  {
    var n := LowestFree(t);
    if k :| n <= k < |t| && t[k].Some? {
      assert n < k && t[n].None?;
    }
  }

  lemma {:induction false} LiveEmptyIff(t: seq<Slot>)
    ensures Live(t) == multiset{} <==> forall k | 0 <= k < |t| :: t[k].None?
    decreases |t|
  {
    if |t| > 0 {
      LiveEmptyIff(t[1..]);
      if t[0].Some? {
        assert t[0].value in Live(t);
      } else {
        assert Live(t) == Live(t[1..]);
        if forall k | 0 <= k < |t[1..]| :: t[1..][k].None? {
          forall k | 0 <= k < |t| ensures t[k].None? {
            if k > 0 {
              assert t[k] == t[1..][k - 1];
            }
          }
        }
      }
    }
  }

  /** Runs without an unsubscribe keep the occupied slots a prefix. */
  lemma {:induction false} SubscribesKeepPrefix(t: seq<Slot>, ops: seq<TableOp>)
    requires OccupiedIsPrefix(t)
    requires forall op | op in ops :: op.Subscribe?
    ensures OccupiedIsPrefix(RunTable(t, ops))
    decreases |ops|
  {
    if |ops| > 0 {
      assert ops[0] in ops;
      forall op | op in ops[1..] ensures op.Subscribe? {
        assert op in ops;
      }
      SubscribesKeepPrefix(Apply(t, ops[0]), ops[1..]);
    }
  }

  /** After an unsubscribe of the first of two filters a resubscription forgets the second one. */
  lemma UnsubscribeCanBreakPrefix(a: Subscription, b: Subscription)
    requires a.filter != b.filter
    ensures var t := RunTable([None, None], [Subscribe(a), Subscribe(b), Unsubscribe(a.filter)]);
            t == [None, Some(b)] && Live(t) == multiset{b} && Live(t[..LowestFree(t)]) == multiset{}
  {
    var t0: seq<Slot> := [None, None];
    var t1: seq<Slot> := [Some(a), None];
    var t2: seq<Slot> := [Some(a), Some(b)];
    var t3: seq<Slot> := [None, Some(b)];
    assert Apply(t0, Subscribe(a)) == t1;
    assert t1[1..] == [None] && LowestFree(t1) == 1;
    assert Apply(t1, Subscribe(b)) == t2;
    assert Apply(t2, Unsubscribe(a.filter)) == t3;
    var ops := [Subscribe(a), Subscribe(b), Unsubscribe(a.filter)];
    assert ops[1..] == [Subscribe(b), Unsubscribe(a.filter)];
    assert ops[1..][1..] == [Unsubscribe(a.filter)];
    assert RunTable(t2, [Unsubscribe(a.filter)]) == t3;
    assert RunTable(t1, ops[1..]) == t3;
    assert t3[1..] == [Some(b)];
    assert Live(t3[1..]) == multiset{b} + Live([]);
    assert t3[..0] == [];
  }
}
