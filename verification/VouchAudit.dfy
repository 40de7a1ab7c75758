/** The audit trail of a vouch: a hot window that cuts its oldest events over into numbered batches
    whenever it reaches a trigger length. */
module VouchAudit {
  import opened Host
  import opened Arith

  datatype EventType = Created | StakeIncreased | StakeDecreased | Withdrawn

  datatype Event = Event(eventType: EventType, timestamp: u64, amount: i128, resultingStake: i128)

  datatype VouchKey = VouchKey(borrower: Address, voucher: Address, token: Address)

  /** The cap of the hot window after a cut-over and the length that triggers one; the build refuses a
      cap that is not below the trigger. */
  datatype Config = Config(maxHot: nat, trigger: nat)
  type Window = w: Config | w.maxHot < w.trigger witness Config(0, 1)

  datatype Trail = Trail(hot: seq<Event>, batchCount: u32, batches: map<u32, seq<Event>>)

  type State = map<VouchKey, Trail>

  const EMPTY_TRAIL := Trail([], 0, map[])

  function TrailOf(s: State, k: VouchKey): Trail {
    if k in s then s[k] else EMPTY_TRAIL
  }

  /** Logging one event.  The only failure is a batch counter that cannot grow. */
  function Log(t: Trail, w: Window, e: Event): (Trail, Result<()>) {
    var hot := t.hot + [e];
    if |hot| < w.trigger then (t.(hot := hot), Ok(()))
    else if t.batchCount == U32_MAX then (t, Err(Overflow))
    else
      var excess := |hot| - w.maxHot;
      (Trail(hot[excess..], t.batchCount + 1, t.batches[t.batchCount := hot[..excess]]), Ok(()))
  }

  // ---------- runs ----------

  datatype Op = Op(key: VouchKey, event: Event)

  function Step(s: State, w: Window, op: Op): State {
    s[op.key := Log(TrailOf(s, op.key), w, op.event).0]
  }

  function Run(s: State, w: Window, ops: seq<Op>): State
    decreases |ops|
  {
    if ops == [] then s else Run(Step(s, w, ops[0]), w, ops[1..])
  }

  /** The event that `op` logs for `k`, if it does. */
  function LoggedBy(s: State, w: Window, op: Op, k: VouchKey): seq<Event> {
    if op.key == k && Log(TrailOf(s, k), w, op.event).1.Ok? then [op.event] else []
  }

  /** Every event a run logs for `k`, in order. */
  function Logged(s: State, w: Window, ops: seq<Op>, k: VouchKey): seq<Event>
    decreases |ops|
  {
    if ops == [] then [] else LoggedBy(s, w, ops[0], k) + Logged(Step(s, w, ops[0]), w, ops[1..], k)
  }

  function BatchesBelow(t: Trail, n: nat): seq<Event> {
    if n == 0 || n > U32_MAX then []
    else BatchesBelow(t, n - 1) + if n - 1 in t.batches then t.batches[n - 1] else []
  }

  /** What a reader sees: all batches, oldest first, and then the hot window. */
  function FullTrail(t: Trail): seq<Event> {
    BatchesBelow(t, t.batchCount) + t.hot
  }

  // ---------- the invariant ----------

  ghost predicate Sound(t: Trail, w: Window) {
    && |t.hot| < w.trigger
    && (t.batchCount > 0 ==> w.maxHot <= |t.hot|)
    && (forall id: u32 :: id in t.batches <==> id < t.batchCount)
    && (forall id: u32 :: id in t.batches ==> |t.batches[id]| == w.trigger - w.maxHot)
  }

  lemma {:induction false} SameBatches(t: Trail, u: Trail, n: nat)
    requires forall id: u32 :: id < n ==> (id in t.batches <==> id in u.batches)
    requires forall id: u32 :: id < n && id in t.batches ==> t.batches[id] == u.batches[id]
    ensures BatchesBelow(t, n) == BatchesBelow(u, n)
  {
    if n == 0 || n > U32_MAX {
    } else {
      SameBatches(t, u, n - 1);
    }
  }

  lemma {:induction false} BatchesLength(t: Trail, w: Window, n: nat)
    requires Sound(t, w) && n <= t.batchCount
    ensures |BatchesBelow(t, n)| == n * (w.trigger - w.maxHot)
  {
    if n == 0 {
    } else {
      BatchesLength(t, w, n - 1);
      MulAdd(n - 1, 1, w.trigger - w.maxHot);
    }
  }

  lemma CutOverKeepsTrail(t: Trail, w: Window, hot: seq<Event>, excess: nat)
    requires t.batchCount < U32_MAX && excess <= |hot|
    ensures var t' := Trail(hot[excess..], t.batchCount + 1, t.batches[t.batchCount := hot[..excess]]);
            FullTrail(t') == BatchesBelow(t, t.batchCount) + hot
  {
    var t' := Trail(hot[excess..], t.batchCount + 1, t.batches[t.batchCount := hot[..excess]]);
    SameBatches(t, t', t.batchCount);
    var below := BatchesBelow(t, t.batchCount);
    assert BatchesBelow(t', t.batchCount + 1) == below + hot[..excess];
    assert below + hot[..excess] + hot[excess..] == below + hot;
  }

  lemma LogKeeps(t: Trail, w: Window, e: Event)
    requires Sound(t, w)
    ensures var (t', r) := Log(t, w, e);
            && Sound(t', w)
            && FullTrail(t') == FullTrail(t) + if r.Ok? then [e] else []
  {
    var below, hot := BatchesBelow(t, t.batchCount), t.hot + [e];
    assert below + t.hot + [] == below + t.hot;
    assert below + hot == below + t.hot + [e];
    if |hot| >= w.trigger && t.batchCount < U32_MAX {
      CutOverKeepsTrail(t, w, hot, |hot| - w.maxHot);
    } else {
      SameBatches(t, t.(hot := hot), t.batchCount);
    }
  }

  lemma StepKeeps(s: State, w: Window, op: Op, k: VouchKey)
    requires Sound(TrailOf(s, k), w)
    ensures Sound(TrailOf(Step(s, w, op), k), w)
    ensures FullTrail(TrailOf(Step(s, w, op), k)) == FullTrail(TrailOf(s, k)) + LoggedBy(s, w, op, k)
  {
    var before := FullTrail(TrailOf(s, k));
    assert before + [] == before;
    LogKeeps(TrailOf(s, k), w, op.event);
    hide Sound, FullTrail, Log;
  }

  lemma {:induction false} RunKeeps(s: State, w: Window, ops: seq<Op>, k: VouchKey)
    requires Sound(TrailOf(s, k), w)
    ensures Sound(TrailOf(Run(s, w, ops), k), w)
    ensures FullTrail(TrailOf(Run(s, w, ops), k)) == FullTrail(TrailOf(s, k)) + Logged(s, w, ops, k)
    decreases |ops|
  {
    hide Sound, FullTrail, Step, LoggedBy, TrailOf;
    var before := FullTrail(TrailOf(s, k));
    if ops == [] {
      assert before + [] == before;
    } else {
      StepKeeps(s, w, ops[0], k);
      var s' := Step(s, w, ops[0]);
      RunKeeps(s', w, ops[1..], k);
      var first, later := LoggedBy(s, w, ops[0], k), Logged(s', w, ops[1..], k);
      assert before + first + later == before + (first + later);
    }
  }

  /** The number of cut-overs after `n` events. */
  function CutOvers(n: nat, w: Window): nat {
    if n < w.trigger then 0 else (n - w.trigger) / (w.trigger - w.maxHot) + 1
  }

  lemma CountDetermined(n: nat, count: nat, hot: nat, w: Window)
    requires n == count * (w.trigger - w.maxHot) + hot && hot < w.trigger && (count > 0 ==> w.maxHot <= hot)
    ensures count == CutOvers(n, w)
  {
    var size := w.trigger - w.maxHot;
    if count > 0 {
      MulSub(count, 1, size);
      MulMono(1, count, size);
      DivUnique(n - w.trigger, size, count - 1);
    }
  }

  /** After any run: batches followed by the hot window are the full log in order, every batch holds
      exactly `trigger - maxHot` events, and batch count and hot length are determined by the number
      of logged events alone. */
  lemma RunRefinesLog(w: Window, ops: seq<Op>, k: VouchKey)
    ensures var t, log := TrailOf(Run(map[], w, ops), k), Logged(map[], w, ops, k);
            && FullTrail(t) == log
            && t.batchCount == CutOvers(|log|, w)
            && |t.hot| == |log| - t.batchCount * (w.trigger - w.maxHot) && |t.hot| < w.trigger
            && forall id: u32 :: if id < t.batchCount
                                 then id in t.batches && |t.batches[id]| == w.trigger - w.maxHot
                                 else id !in t.batches
  {
    RunKeeps(map[], w, ops, k);
    var t := TrailOf(Run(map[], w, ops), k);
    assert FullTrail(EMPTY_TRAIL) == [];
    BatchesLength(t, w, t.batchCount);
    CountDetermined(|FullTrail(t)|, t.batchCount, |t.hot|, w);
  }

  /** As long as batch ids last, every call logs its event. */
  lemma LogSucceeds(t: Trail, w: Window, e: Event)
    requires Sound(t, w)
    ensures Log(t, w, e).1.Err? <==> |t.hot| == w.trigger - 1 && t.batchCount == U32_MAX
  {
  }

  // ---------- the store ----------

  class VouchAuditStore {
    const window: Window
    var trails: map<VouchKey, seq<Event>>
    var counts: map<VouchKey, u32>
    var archived: map<VouchKey, map<u32, seq<Event>>>

    ghost function View(k: VouchKey): Trail
      reads this
    {
      Trail(if k in trails then trails[k] else [],
            if k in counts then counts[k] else 0,
            if k in archived then archived[k] else map[])
    }

    constructor (window: Window)
      ensures this.window == window && forall k :: View(k) == EMPTY_TRAIL
    {
      this.window := window;
      trails, counts, archived := map[], map[], map[];
    }

    /** Shifts the `excess` oldest events of `trail` one by one into a batch. */
    method ShiftOldest(trail: seq<Event>, excess: nat) returns (batch: seq<Event>, rest: seq<Event>)
      requires excess <= |trail|
      ensures batch == trail[..excess] && rest == trail[excess..]
    {
      batch, rest := [], trail;
      for i := 0 to excess
        invariant rest == trail[i..] && batch == trail[..i]
      {
        batch := batch + [rest[0]];
        rest := rest[1..];
      }
    }

    /** Appends an event and, when the hot window reaches the trigger, archives its oldest events. */
    method LogVouchAuditEvent(k: VouchKey, e: Event) returns (r: Result<()>)
      modifies this
      ensures (View(k), r) == Log(old(View(k)), window, e)
      ensures forall j :: j != k ==> View(j) == old(View(j))
    {
      var trail := (if k in trails then trails[k] else []) + [e];
      if |trail| >= window.trigger {
        var batch, rest := ShiftOldest(trail, |trail| - window.maxHot);
        trail := rest;
        var batchId := if k in counts then counts[k] else 0;
        if batchId == U32_MAX {
          return Err(Overflow);
        }
        var earlier := if k in archived then archived[k] else map[];
        archived := archived[k := earlier[batchId := batch]];
        counts := counts[k := batchId + 1];
      }
      trails := trails[k := trail];
      return Ok(());
    }
  }
}
