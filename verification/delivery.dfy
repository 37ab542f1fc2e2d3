/** `deliveryReport` of atskafka.go: the single consumer of the producer's
    event stream. A delivery report carrying an error bumps the
    delivery-error counter (and is logged); a statistics snapshot is handed
    on, unread, to the metrics adapter; any other event is ignored. */
module Delivery {
  import opened Results

  datatype Event =
    | DeliveryReport(topic: string, partition: int, error: Option<string>)
    | Stats(json: string)
    | Other

  predicate IsFailedDelivery(e: Event)
  {
    e.DeliveryReport? && e.error.Some?
  }

  /** How much the delivery-error counter grows over these events. */
  function DeliveryErrors(events: seq<Event>): (n: nat)
    ensures n <= |events|
  {
    if |events| == 0 then 0
    else DeliveryErrors(events[..|events| - 1]) + (if IsFailedDelivery(events[|events| - 1]) then 1 else 0)
  }

  /** The failed delivery reports, in order: what the loop logs. There is
      one per step of the delivery-error counter. */
  function FailedDeliveries(events: seq<Event>): (failed: seq<Event>)
    ensures |failed| == DeliveryErrors(events)
    ensures forall i :: 0 <= i < |failed| ==> IsFailedDelivery(failed[i]) && failed[i] in events
  {
    if |events| == 0 then []
    else
      var n := |events| - 1;
      var prefix := FailedDeliveries(events[..n]);
      assert forall i :: 0 <= i < |prefix| ==> prefix[i] in events by {
        forall i | 0 <= i < |prefix|
          ensures prefix[i] in events
        {
          var k :| 0 <= k < n && events[..n][k] == prefix[i];
          assert events[k] == prefix[i];
        }
      }
      prefix + (if IsFailedDelivery(events[n]) then [events[n]] else [])
  }

  /** The statistics snapshots handed to the metrics adapter, in order. */
  function StatsForwarded(events: seq<Event>): (forwarded: seq<string>)
    ensures |forwarded| <= |events|
    ensures forall i :: 0 <= i < |forwarded| ==> Stats(forwarded[i]) in events
  {
    if |events| == 0 then []
    else
      var n := |events| - 1;
      var prefix := StatsForwarded(events[..n]);
      assert forall i :: 0 <= i < |prefix| ==> Stats(prefix[i]) in events by {
        forall i | 0 <= i < |prefix|
          ensures Stats(prefix[i]) in events
        {
          var k :| 0 <= k < n && events[..n][k] == Stats(prefix[i]);
          assert events[k] == Stats(prefix[i]);
        }
      }
      prefix + (if events[n].Stats? then [events[n].json] else [])
  }

  /** A single event: a statistics snapshot is forwarded, text unchanged,
      and nothing else is; a failed delivery report is logged, and nothing
      else is. With `DeliveryErrorsAppend` this fixes both sequences for
      every stream. */
  lemma StatsForwardedOne(e: Event)
    ensures StatsForwarded([e]) == if e.Stats? then [e.json] else []
    ensures FailedDeliveries([e]) == if IsFailedDelivery(e) then [e] else []
  {
    assert [e][..0] == [];
  }

  /** Counting is per event: a stream split anywhere counts as its parts. */
  lemma {:induction false} DeliveryErrorsAppend(a: seq<Event>, b: seq<Event>)
    ensures DeliveryErrors(a + b) == DeliveryErrors(a) + DeliveryErrors(b)
    ensures FailedDeliveries(a + b) == FailedDeliveries(a) + FailedDeliveries(b)
    ensures StatsForwarded(a + b) == StatsForwarded(a) + StatsForwarded(b)
    decreases |b|
  {
    if |b| == 0 {
      assert a + b == a;
    } else {
      var n := |b| - 1;
      assert (a + b)[..|a + b| - 1] == a + b[..n];
      DeliveryErrorsAppend(a, b[..n]);
    }
  }

  /** The counter does not move exactly when no event is a failed delivery
      (statistics snapshots and successful deliveries never count), and it
      grows by one per event exactly when every event is one. */
  lemma {:induction false} DeliveryErrorsExtremes(events: seq<Event>)
    ensures DeliveryErrors(events) == 0 <==> forall i :: 0 <= i < |events| ==> !IsFailedDelivery(events[i])
    ensures DeliveryErrors(events) == |events| <==> forall i :: 0 <= i < |events| ==> IsFailedDelivery(events[i])
  {
    if |events| > 0 {
      var n := |events| - 1;
      DeliveryErrorsExtremes(events[..n]);
      assert forall i :: 0 <= i < n ==> events[..n][i] == events[i];
    }
  }

  /** The event loop, from a counter value on: returns the final counter,
      the snapshots forwarded, and the failed deliveries logged. */
  method DeliveryReportLoop(events: seq<Event>, counter: nat)
    returns (errors: nat, forwarded: seq<string>, logged: seq<Event>)
    ensures errors == counter + DeliveryErrors(events)
    ensures forwarded == StatsForwarded(events)
    ensures logged == FailedDeliveries(events)
  {
    errors := counter;
    forwarded := [];
    logged := [];
    var i := 0;
    while i < |events|
      invariant 0 <= i <= |events|
      invariant errors == counter + DeliveryErrors(events[..i])
      invariant forwarded == StatsForwarded(events[..i])
      invariant logged == FailedDeliveries(events[..i])
    {
      assert events[..i + 1][..i] == events[..i];
      var e := events[i];
      if e.DeliveryReport? {
        if e.error.Some? {
          logged := logged + [e];
          errors := errors + 1;
        }
      } else if e.Stats? {
        forwarded := forwarded + [e.json];
      }
      i := i + 1;
    }
    assert events[..i] == events;
  }
}
