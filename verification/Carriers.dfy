/** The deterministic carrier: complete records under a hard octet budget, a record limit and an abrupt disconnect. */
module Carriers {
  import opened Wrappers
  import opened Octets

  datatype Direction = SenderToReceiver | ReceiverToSender

  datatype CarrierConfig = CarrierConfig(
    byteBudget: u64,
    bandwidthBps: u64,
    latencyMs: u64,
    disconnectAfterMs: Option<u64>,
    maxRecordBytes: u64,
    overheadBytes: u64,
    reliable: bool)
  {
    predicate Valid() {
      bandwidthBps != 0 && maxRecordBytes != 0
    }
  }

  datatype CarrierError = Disconnected | RecordTooLarge | BudgetExceeded

  datatype CarrierEvent = CarrierEvent(direction: Direction, recordBytes: nat, carrierBytes: nat, delivered: bool, resolvedAtMs: nat)

  datatype CarrierMetrics = CarrierMetrics(
    submittedBytes: nat,
    submittedRecords: nat,
    deliveredRecords: nat,
    lostRecords: nat,
    lostBytes: nat,
    carrierBytes: nat,
    elapsedMs: nat)

  const NO_METRICS := CarrierMetrics(0, 0, 0, 0, 0, 0, 0)

  function Saturate(n: nat): u64 {
    if n <= U64_MAX then n else U64_MAX
  }

  /** Serialization time of so many octets, rounded up to a millisecond. */
  function SerializationMs(config: CarrierConfig, octets: u64): (ms: u64)
    requires config.Valid()
    ensures ms < U64_MAX ==> octets * 8_000 <= ms * config.bandwidthBps < octets * 8_000 + config.bandwidthBps
  {
    var exact := (octets * 8_000 + config.bandwidthBps - 1) / config.bandwidthBps;
    Saturate(exact)
  }

  /** What a record costs the carrier and when it would arrive. */
  function ChargedOctets(config: CarrierConfig, octets: u64): (charged: u64)
    ensures charged >= octets && (charged < U64_MAX ==> charged - octets == config.overheadBytes)
  {
    Saturate(octets + config.overheadBytes)
  }

  function Arrival(config: CarrierConfig, elapsed: u64, octets: u64): (at: u64)
    requires config.Valid()
    ensures at >= elapsed
    ensures at < U64_MAX ==> at - config.latencyMs - elapsed == SerializationMs(config, ChargedOctets(config, octets))
  {
    Saturate(Saturate(elapsed + SerializationMs(config, ChargedOctets(config, octets))) + config.latencyMs)
  }

  predicate InTime(config: CarrierConfig, at: nat) {
    config.disconnectAfterMs.Some? ==> at <= config.disconnectAfterMs.value
  }

  lemma RoundedUp(n: nat, rate: nat, ms: nat, limit: int)
    requires rate > 0 && n <= ms * rate < n + rate
    ensures ms <= limit <==> 0 <= limit && n <= limit * rate
  {
    if ms <= limit {
      MultipliesMonotone(ms, limit, rate);
    } else if 0 <= limit {
      MultipliesMonotone(limit + 1, ms, rate);
      assert (limit + 1) * rate == limit * rate + rate;
    }
  }

  lemma MultipliesMonotone(a: nat, b: nat, rate: nat)
    requires a <= b
    ensures a * rate <= b * rate
  {
  }

  /**
   A record arrives before the disconnect exactly if its octets and the carrier's own, eight bits each, fit the bandwidth over the time that is left
   after latency.
   */
  lemma ArrivesInTime(config: CarrierConfig, elapsed: u64, octets: u64)
    requires config.Valid() && config.disconnectAfterMs.Some? && config.disconnectAfterMs.value < U64_MAX
    requires octets + config.overheadBytes <= U64_MAX
    ensures var left := config.disconnectAfterMs.value - elapsed - config.latencyMs;
            InTime(config, Arrival(config, elapsed, octets)) <==> 0 <= left && (octets + config.overheadBytes) * 8_000 <= left * config.bandwidthBps
  {
    var charged, left := octets + config.overheadBytes, config.disconnectAfterMs.value - elapsed - config.latencyMs;
    var ms := SerializationMs(config, charged);
    if ms < U64_MAX {
      RoundedUp(charged * 8_000, config.bandwidthBps, ms, left);
    } else if 0 <= left {
      SerializationExceeds(config, charged, left);
    }
  }

  lemma SerializationExceeds(config: CarrierConfig, charged: u64, left: nat)
    requires config.Valid() && SerializationMs(config, charged) == U64_MAX && left < U64_MAX
    ensures charged * 8_000 > left * config.bandwidthBps
  {
    var n, rate := charged * 8_000, config.bandwidthBps;
    var exact := (n + rate - 1) / rate;
    assert exact * rate <= n + rate - 1;
    MultipliesMonotone(left + 1, exact, rate);
    assert (left + 1) * rate == left * rate + rate;
  }

  // ---- The event log ----

  function Count(m: CarrierMetrics, e: CarrierEvent): CarrierMetrics {
    CarrierMetrics(
      m.submittedBytes + e.recordBytes,
      m.submittedRecords + 1,
      m.deliveredRecords + (if e.delivered then 1 else 0),
      m.lostRecords + (if e.delivered then 0 else 1),
      m.lostBytes + (if e.delivered then 0 else e.recordBytes),
      m.carrierBytes + e.carrierBytes,
      e.resolvedAtMs)
  }

  /** The totals of an event log. */
  function Totals(events: seq<CarrierEvent>): CarrierMetrics {
    if events == [] then NO_METRICS else Count(Totals(events[..|events| - 1]), events[|events| - 1])
  }

  /** Time never decreases, nothing resolves after the disconnect, and only the last record can be lost. */
  ghost predicate Orderly(config: CarrierConfig, events: seq<CarrierEvent>) {
    && (forall i, j | 0 <= i < j < |events| :: events[i].resolvedAtMs <= events[j].resolvedAtMs && events[i].delivered)
    && (forall i | 0 <= i < |events| :: InTime(config, events[i].resolvedAtMs))
  }

  lemma {:induction false} AtMostOneLost(config: CarrierConfig, events: seq<CarrierEvent>)
    requires Orderly(config, events)
    ensures var m := Totals(events);
            && m.deliveredRecords + m.lostRecords == m.submittedRecords == |events|
            && m.lostRecords <= 1
            && (m.lostRecords == 1 <==> events != [] && !events[|events| - 1].delivered)
            && m.lostBytes == (if m.lostRecords == 1 then events[|events| - 1].recordBytes else 0)
            && m.lostBytes <= m.submittedBytes
  {
    if events != [] {
      var before := events[..|events| - 1];
      forall i, j | 0 <= i < j < |before|
        ensures before[i].resolvedAtMs <= before[j].resolvedAtMs && before[i].delivered
      {
        assert before[i] == events[i] && before[j] == events[j];
      }
      AtMostOneLost(config, before);
    }
  }

  /** A log whose totals are `metrics`; the link is down exactly after a loss or a zero cutoff. */
  ghost predicate Logged(config: CarrierConfig, events: seq<CarrierEvent>, metrics: CarrierMetrics, disconnected: bool) {
    && metrics == Totals(events)
    && Orderly(config, events)
    && InTime(config, metrics.elapsedMs)
    && (disconnected <==> config.disconnectAfterMs == Some(0) || (events != [] && !events[|events| - 1].delivered))
  }

  lemma OrderlyWithOneMore(config: CarrierConfig, events: seq<CarrierEvent>, e: CarrierEvent)
    requires Orderly(config, events) && InTime(config, e.resolvedAtMs)
    requires events != [] ==> events[|events| - 1].delivered && events[|events| - 1].resolvedAtMs <= e.resolvedAtMs
    ensures Orderly(config, events + [e])
  {
    var all := events + [e];
    forall i, j | 0 <= i < j < |all|
      ensures all[i].resolvedAtMs <= all[j].resolvedAtMs && all[i].delivered
    {
      if j == |events| && i < |events| - 1 {
        assert events[i].resolvedAtMs <= events[|events| - 1].resolvedAtMs;
      }
    }
  }

  lemma LoggedWithOneMore(config: CarrierConfig, events: seq<CarrierEvent>, metrics: CarrierMetrics, e: CarrierEvent)
    requires Logged(config, events, metrics, false)
    requires metrics.elapsedMs <= e.resolvedAtMs && InTime(config, e.resolvedAtMs)
    ensures Logged(config, events + [e], Count(metrics, e), !e.delivered)
  {
    assert (events + [e])[..|events|] == events;
    OrderlyWithOneMore(config, events, e);
  }

  // ---- The carrier ----

  datatype Delivered = Delivered(delivered: bool, octets: nat, carrierOctets: nat)

  class DeterministicCarrier {
    const config: CarrierConfig
    var spent: nat
    var elapsed: u64
    var disconnected: bool
    var events: seq<CarrierEvent>
    var metrics: CarrierMetrics

    /** The metrics are those of the log, the budget holds, and the link is down exactly after a loss or a zero cutoff. */
    ghost predicate Valid()
      reads this
    {
      && config.Valid()
      && spent == metrics.submittedBytes <= config.byteBudget
      && elapsed == metrics.elapsedMs
      && Logged(config, events, metrics, disconnected)
    }

    constructor (config: CarrierConfig)
      requires config.Valid()
      ensures Valid() && this.config == config && events == [] && spent == 0 && metrics == NO_METRICS
      ensures disconnected <==> config.disconnectAfterMs == Some(0)
    {
      this.config := config;
      spent, elapsed, events, metrics := 0, 0, [], NO_METRICS;
      disconnected := config.disconnectAfterMs == Some(0);
    }

    function Remaining(): nat
      reads this
    {
      if spent <= config.byteBudget then config.byteBudget - spent else 0
    }

    method Transmit(direction: Direction, octets: u64) returns (r: Result<Delivered, CarrierError>)
      requires Valid()
      modifies this
      ensures Valid()
      ensures r == (if old(disconnected) then Err(Disconnected)
                    else if octets > config.maxRecordBytes then Err(RecordTooLarge)
                    else if octets > old(Remaining()) then Err(BudgetExceeded)
                    else Ok(Delivered(InTime(config, Arrival(config, old(elapsed), octets)), octets, ChargedOctets(config, octets))))
      ensures r.Ok? && config.disconnectAfterMs.None? ==> r.value.delivered
      ensures r.Err? ==> events == old(events) && spent == old(spent) && metrics == old(metrics) && disconnected == old(disconnected)
      ensures r.Ok? ==>
                && events == old(events) + [CarrierEvent(direction, octets, r.value.carrierOctets, r.value.delivered, elapsed)]
                && spent == old(spent) + octets && metrics.carrierBytes == old(metrics).carrierBytes + r.value.carrierOctets
                && disconnected == !r.value.delivered
                && elapsed == (if r.value.delivered then Arrival(config, old(elapsed), octets) else config.disconnectAfterMs.value)
    {
      if disconnected {
        return Err(Disconnected);
      }
      if octets > config.maxRecordBytes {
        return Err(RecordTooLarge);
      }
      if octets > Remaining() {
        return Err(BudgetExceeded);
      }
      r := Resolve(direction, octets, ChargedOctets(config, octets), Arrival(config, elapsed, octets));
    }

    /** Charges an admitted record and logs whether it arrived. */
    method Resolve(direction: Direction, octets: u64, carrierOctets: u64, arrival: u64) returns (r: Result<Delivered, CarrierError>)
      requires Valid() && !disconnected && octets <= Remaining() && elapsed <= arrival
      modifies this
      ensures Valid()
      ensures r == Ok(Delivered(InTime(config, arrival), octets, carrierOctets))
      ensures spent == old(spent) + octets && metrics.carrierBytes == old(metrics).carrierBytes + carrierOctets
      ensures disconnected == !InTime(config, arrival)
      ensures elapsed == if InTime(config, arrival) then arrival else config.disconnectAfterMs.value
      ensures events == old(events) + [CarrierEvent(direction, octets, carrierOctets, InTime(config, arrival), elapsed)]
    {
      var delivered := InTime(config, arrival);
      elapsed := if delivered || config.disconnectAfterMs.None? then arrival else config.disconnectAfterMs.value;
      spent := spent + octets;
      metrics := metrics.(submittedBytes := metrics.submittedBytes + octets,
                          submittedRecords := metrics.submittedRecords + 1,
                          carrierBytes := metrics.carrierBytes + carrierOctets,
                          elapsedMs := elapsed);
      if delivered {
        metrics := metrics.(deliveredRecords := metrics.deliveredRecords + 1);
      } else {
        metrics := metrics.(lostRecords := metrics.lostRecords + 1, lostBytes := metrics.lostBytes + octets);
        disconnected := true;
      }
      var event := CarrierEvent(direction, octets, carrierOctets, delivered, elapsed);
      LoggedWithOneMore(config, events, old(metrics), event);
      events := events + [event];
      r := Ok(Delivered(delivered, octets, carrierOctets));
    }
  }
}
