/**
 A promise whose settlement is controlled from outside (`DeferredImpl`). The
 three public flags record which settling call was made first; only that
 first `resolve` or `reject` has any effect. The flags describe the calls,
 not the promise: `resolve` with a thenable sets `resolved` while the promise
 follows the thenable, which may reject or never settle.
 */
module Deferreds {
  import opened Outcomes

  /** The state of a promise: still pending, fulfilled with a value, or rejected with a reason. */
  datatype Settlement<+T> = Unsettled | Fulfilled(value: T) | Rejected(reason: string)

  /**
   The argument of `resolve`: a plain value, or a thenable, given by the
   settlement it eventually reaches (`Unsettled` when it never settles).
   */
  datatype Resolution<+T> = Value(value: T) | Thenable(outcome: Settlement<T>)

  datatype Deferred<+T> = Deferred(promise: Settlement<T>, resolved: bool, rejected: bool, completed: bool)

  /**
   The flags agree with each other and with the promise: no settling call
   leaves the promise pending, a rejection rejects it, and only a resolution
   can fulfil it.
   */
  predicate Valid<T>(d: Deferred<T>)
  {
    && (d.completed <==> d.resolved || d.rejected)
    && !(d.resolved && d.rejected)
    && (!d.completed ==> d.promise.Unsettled?)
    && (d.rejected ==> d.promise.Rejected?)
  }

  /** `createDeferred()`: a pending promise with every flag down. */
  function CreateDeferred<T>(): (d: Deferred<T>)
    ensures Valid(d)
    ensures !d.resolved && !d.rejected && !d.completed
    ensures d.promise == Unsettled
  {
    Deferred(Unsettled, false, false, false)
  }

  /** The settlement a promise resolved with `r` reaches: a plain value fulfils it, a thenable is followed. */
  function Adopt<T>(r: Resolution<T>): Settlement<T>
  {
    match r
    case Value(v) => Fulfilled(v)
    case Thenable(s) => s
  }

  /** `resolve(value)`: settles the promise as `value` dictates unless the deferred has already completed. */
  function Resolve<T>(d: Deferred<T>, r: Resolution<T>): (d': Deferred<T>)
    ensures d'.completed
    ensures d.completed ==> d' == d
    ensures !d.completed ==> d'.resolved && d'.rejected == d.rejected
    ensures !d.completed && r.Value? ==> d'.promise == Fulfilled(r.value)
    ensures !d.completed && r.Thenable? ==> d'.promise == r.outcome
  {
    if !d.completed then d.(promise := Adopt(r), resolved := true, completed := true) else d
  }

  /** `reject(reason)`: rejects the promise unless the deferred has already completed. */
  function Reject<T>(d: Deferred<T>, reason: string): (d': Deferred<T>)
    ensures d'.completed
    ensures d.completed ==> d' == d
    ensures !d.completed ==> d'.rejected && d'.resolved == d.resolved && d'.promise == Rejected(reason)
  {
    if !d.completed then d.(promise := Rejected(reason), rejected := true, completed := true) else d
  }

  /** A call made on a deferred from outside. */
  datatype Settle<+T> = ResolveWith(resolution: Resolution<T>) | RejectWith(reason: string)

  function Apply<T>(d: Deferred<T>, op: Settle<T>): Deferred<T>
  {
    match op
    case ResolveWith(r) => Resolve(d, r)
    case RejectWith(r) => Reject(d, r)
  }

  function ApplyAll<T>(d: Deferred<T>, ops: seq<Settle<T>>): Deferred<T>
    decreases |ops|
  {
    if |ops| == 0 then d else ApplyAll(Apply(d, ops[0]), ops[1..])
  }

  /** Both settling calls keep the flags consistent, and `completed` never goes back down. */
  lemma SettlePreservesValid<T>(d: Deferred<T>, op: Settle<T>)
    requires Valid(d)
    ensures Valid(Apply(d, op))
    ensures d.completed ==> Apply(d, op).completed
  {
  }

  /** Once completed, a deferred ignores every further `resolve` and `reject`. */
  lemma {:induction false} CompletedIgnoresAll<T>(d: Deferred<T>, ops: seq<Settle<T>>)
    requires d.completed
    ensures ApplyAll(d, ops) == d
    decreases |ops|
  {
    if |ops| > 0 {
      CompletedIgnoresAll(Apply(d, ops[0]), ops[1..]);
    }
  }

  /** Any sequence of calls keeps the flags consistent. */
  lemma {:induction false} ApplyAllPreservesValid<T>(d: Deferred<T>, ops: seq<Settle<T>>)
    requires Valid(d)
    ensures Valid(ApplyAll(d, ops))
    ensures d.completed ==> ApplyAll(d, ops) == d
    decreases |ops|
  {
    if |ops| > 0 {
      SettlePreservesValid(d, ops[0]);
      ApplyAllPreservesValid(Apply(d, ops[0]), ops[1..]);
    }
    if d.completed {
      CompletedIgnoresAll(d, ops);
    }
  }

  /** On a fresh deferred the first call decides the outcome, whatever calls follow it. */
  lemma FirstSettlementWins<T>(ops: seq<Settle<T>>)
    requires |ops| > 0
    ensures ApplyAll(CreateDeferred(), ops) == Apply(CreateDeferred<T>(), ops[0])
    ensures ops[0].ResolveWith? ==> ApplyAll(CreateDeferred(), ops).promise == Adopt(ops[0].resolution)
    ensures ops[0].RejectWith? ==> ApplyAll(CreateDeferred(), ops).promise == Rejected(ops[0].reason)
  {
    CompletedIgnoresAll(Apply(CreateDeferred<T>(), ops[0]), ops[1..]);
  }

  /**
   What a caller awaiting `d.promise` observes. Before any settling call it
   waits; after `reject` it throws; it can return only after `resolve`.
   */
  function Await<T>(d: Deferred<T>): (c: Call<T>)
    ensures Valid(d) && !d.completed ==> c == Pending
    ensures Valid(d) && d.rejected ==> c == Threw(d.promise.reason)
    ensures Valid(d) && c.Returned? ==> d.resolved
  {
    match d.promise
    case Unsettled => Pending
    case Fulfilled(v) => Returned(v)
    case Rejected(r) => Threw(r)
  }

  /**
   Awaiting a fresh deferred after one `resolve` observes the argument: a
   plain value is returned, and a thenable's settlement is passed on, so a
   resolved deferred can still throw or wait forever.
   */
  lemma AwaitResolved<T>(r: Resolution<T>)
    ensures Resolve(CreateDeferred<T>(), r).resolved && Resolve(CreateDeferred<T>(), r).completed
    ensures r.Value? ==> Await(Resolve(CreateDeferred(), r)) == Returned(r.value)
    ensures r.Thenable? && r.outcome.Unsettled? ==> Await(Resolve(CreateDeferred(), r)) == Pending
    ensures r.Thenable? && r.outcome.Fulfilled? ==> Await(Resolve(CreateDeferred(), r)) == Returned(r.outcome.value)
    ensures r.Thenable? && r.outcome.Rejected? ==> Await(Resolve(CreateDeferred(), r)) == Threw(r.outcome.reason)
  {
  }

  /** Awaiting a fresh deferred after one `reject` throws its reason. */
  lemma AwaitRejected<T>(reason: string)
    ensures Await(Reject(CreateDeferred<T>(), reason)) == Threw(reason)
  {
  }
}
