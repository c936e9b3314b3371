/** A debounce channel with one timer slot, as both pages use it: scheduling
    clears any pending timer and starts a new one, and only the timer that is
    still pending when the delay elapses delivers its value. Clock time is not
    modelled; the elapsing of the delay is the `Elapsed` event. */
module Debounce {
  import opened Wrappers

  /** The timer slot (`debounceTimerRef.current`). */
  datatype Slot<T> = Idle | Pending(value: T)

  datatype Event<T> =
    | Scheduled(x: T)   // clearTimeout(pending); setTimeout(..., x)
    | Elapsed           // the delay of the pending timer (if any) runs out
    | Cancelled         // clearTimeout on unmount

  /** One event: the new slot and the value delivered, if any. */
  function Step<T>(s: Slot<T>, e: Event<T>): (r: (Slot<T>, Option<T>))
    ensures r.1.Some? <==> e.Elapsed? && s.Pending?
    ensures r.1.Some? ==> r.1.value == s.value
    ensures r.0.Pending? <==> e.Scheduled?
    ensures e.Scheduled? ==> r.0.value == e.x
  {
    match e
    case Scheduled(x) => (Pending(x), None)
    case Elapsed => (Idle, if s.Pending? then Some(s.value) else None)
    case Cancelled => (Idle, None)
  }

  /** A run of events: the final slot and the delivered values, in order. */
  function Run<T>(s: Slot<T>, events: seq<Event<T>>): (Slot<T>, seq<T>)
    decreases |events|
  {
    if events == [] then (s, [])
    else
      var next := Step(s, events[0]);
      var rest := Run(next.0, events[1..]);
      (rest.0, Delivered(next.1) + rest.1)
  }

  function Delivered<T>(o: Option<T>): seq<T> {
    if o.Some? then [o.value] else []
  }

  /** A burst: one `Scheduled` event per value, in order. */
  function Burst<T>(xs: seq<T>): (es: seq<Event<T>>)
    ensures |es| == |xs|
    ensures forall i :: 0 <= i < |xs| ==> es[i] == Scheduled(xs[i])
  {
    seq(|xs|, i requires 0 <= i < |xs| => Scheduled(xs[i]))
  }

  function CountElapsed<T>(events: seq<Event<T>>): nat
    decreases |events|
  {
    if events == [] then 0
    else (if events[0].Elapsed? then 1 else 0) + CountElapsed(events[1..])
  }

  lemma {:induction false} RunAppend<T>(s: Slot<T>, a: seq<Event<T>>, b: seq<Event<T>>)
    ensures Run(s, a + b).0 == Run(Run(s, a).0, b).0
    ensures Run(s, a + b).1 == Run(s, a).1 + Run(Run(s, a).0, b).1
    decreases |a|
  {
    if a == [] {
      assert a + b == b;
    } else {
      assert (a + b)[0] == a[0] && (a + b)[1..] == a[1..] + b;
      var s' := Step(s, a[0]).0;
      var first := Delivered(Step(s, a[0]).1);
      RunAppend(s', a[1..], b);
      var mid := Run(s', a[1..]).0;
      assert Run(s, a).1 == first + Run(s', a[1..]).1;
      assert Run(s, a + b).1 == first + (Run(s', a[1..]).1 + Run(mid, b).1);
      assert first + (Run(s', a[1..]).1 + Run(mid, b).1) == (first + Run(s', a[1..]).1) + Run(mid, b).1;
    }
  }

  /** Scheduling a non-empty burst delivers nothing and leaves only the last value pending. */
  lemma {:induction false} BurstLeavesLastPending<T>(s: Slot<T>, xs: seq<T>)
    requires |xs| > 0
    ensures Run(s, Burst(xs)).0 == Pending(xs[|xs| - 1])
    ensures Run(s, Burst(xs)).1 == []
    decreases |xs|
  {
    var es := Burst(xs);
    if |xs| > 1 {
      assert es[1..] == Burst(xs[1..]);
      BurstLeavesLastPending(Pending(xs[0]), xs[1..]);
    } else {
      assert es[0] == Scheduled(xs[0]) && es[1..] == [];
      assert Run(s, es).1 == [] + Run(Pending(xs[0]), es[1..]).1;
    }
  }

  /** A burst followed by the delay running out delivers exactly one value: the last one. */
  lemma BurstDeliversLast<T>(s: Slot<T>, xs: seq<T>)
    requires |xs| > 0
    ensures Run(s, Burst(xs) + [Elapsed]).0 == Idle
    ensures Run(s, Burst(xs) + [Elapsed]).1 == [xs[|xs| - 1]]
  {
    var last := xs[|xs| - 1];
    var tail: seq<Event<T>> := [Elapsed];
    BurstLeavesLastPending(s, xs);
    RunAppend(s, Burst(xs), tail);
    assert tail[1..] == [];
    assert Run(Pending(last), tail).1 == [last] + [];
  }

  /** Never more deliveries than elapsed delays: each timer delivers at most once. */
  lemma {:induction false} DeliveriesBounded<T>(s: Slot<T>, events: seq<Event<T>>)
    ensures |Run(s, events).1| <= CountElapsed(events)
    decreases |events|
  {
    if events != [] {
      DeliveriesBounded(Step(s, events[0]).0, events[1..]);
    }
  }

  /** Cancelling leaves nothing to deliver. */
  lemma CancelDeliversNothing<T>(s: Slot<T>)
    ensures Run(s, [Cancelled, Elapsed]).0 == Idle
    ensures Run(s, [Cancelled, Elapsed]).1 == []
  {
    var es: seq<Event<T>> := [Cancelled, Elapsed];
    var rest: seq<Event<T>> := [Elapsed];
    assert es[1..] == rest && rest[1..] == [];
    assert Run(Idle, rest).1 == [] + [];
  }
}
