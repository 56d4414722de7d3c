/**
 * The collection server's main loop (src/server.rs). Each cycle it accepts
 * at most one new WebSocket connection, then reads one message from every
 * pooled connection: a text message is decoded as a digest and handed to
 * storage, and a connection whose read fails is closed and dropped once it
 * has been pooled for more than the prune period. The loop runs until the
 * countdown expires, or forever when the countdown is zero.
 *
 * Sockets, the clock and the JSON parser are inputs: a connection is named
 * by a socket id, each cycle reads the monotonic clock once (nanoseconds),
 * and a read outcome carries the message's JSON tree, or none when its text
 * is not JSON.
 */
module Server {
  import opened Base
  import opened Metrics

  const NANOS_PER_SECOND: nat := 1_000_000_000

  /** `RemoteSource`: the WebSocket (by socket id), when it was accepted, and its byte buffer. */
  datatype Connection = Connection(socket: nat, lastRead: nat, buffer: seq<byte>)

  /** What `read_message` gave a connection this cycle: a text message, parsed or not, or an error. */
  datatype ReadOutcome = Received(parsed: Option<Json>) | ReadFailed

  /**
   * `Instant::elapsed().as_secs()`: the whole seconds from `since` to `now`,
   * rounded down; zero when the clock reads earlier than `since`.
   */
  function Elapsed(since: nat, now: nat): nat {
    if since <= now then (now - since) / NANOS_PER_SECOND else 0
  }

  /** `Elapsed` is the largest whole number of seconds that fits between the two readings. */
  lemma ElapsedBounds(since: nat, now: nat)
    ensures since <= now ==> Elapsed(since, now) * NANOS_PER_SECOND <= now - since < (Elapsed(since, now) + 1) * NANOS_PER_SECOND
    ensures now < since ==> Elapsed(since, now) == 0
  {
  }

  // ---------------------------------------------------------------------------
  // One cycle, as functions of the pool before it

  /** `serde_json::from_str::<Digest>` on a message: the digest, or nothing when it does not decode. */
  function Decoded(o: ReadOutcome, asF64: int -> F64): (d: Option<Digest>)
    ensures d.Some? ==> o.Received? && o.parsed.Some? && DecodeDigest(o.parsed.value, asF64) == Ok(d.value)
  {
    if o.Received? && o.parsed.Some? && DecodeDigest(o.parsed.value, asF64).Ok? then
      Some(DecodeDigest(o.parsed.value, asF64).value)
    else None
  }

  /** The `drain_filter` predicate: a failed read, pruning on, and more whole seconds than the period. */
  predicate Evicts(c: Connection, o: ReadOutcome, now: nat, prunePeriod: U64) {
    o.ReadFailed? && prunePeriod != 0 && Elapsed(c.lastRead, now) > prunePeriod
  }

  /** The connection `accept` adds: none when it fails, else a fresh one stamped `now`. */
  function Accepted(accepted: Option<nat>, now: nat): seq<Connection> {
    if accepted.Some? then [Connection(accepted.value, now, [])] else []
  }

  /** The connections the sweep keeps, in pool order. */
  function Survivors(cs: seq<Connection>, read: nat -> ReadOutcome, now: nat, prunePeriod: U64): seq<Connection> {
    if |cs| == 0 then []
    else
      var c := cs[|cs| - 1];
      Survivors(cs[..|cs| - 1], read, now, prunePeriod)
      + (if Evicts(c, read(c.socket), now, prunePeriod) then [] else [c])
  }

  /** The connections the sweep closes, in pool order. */
  function Closed(cs: seq<Connection>, read: nat -> ReadOutcome, now: nat, prunePeriod: U64): seq<Connection> {
    if |cs| == 0 then []
    else
      var c := cs[|cs| - 1];
      Closed(cs[..|cs| - 1], read, now, prunePeriod)
      + (if Evicts(c, read(c.socket), now, prunePeriod) then [c] else [])
  }

  /** The digests the sweep hands to storage, in pool order. */
  function Delivered(cs: seq<Connection>, read: nat -> ReadOutcome, asF64: int -> F64): seq<Digest> {
    if |cs| == 0 then []
    else
      var o := read(cs[|cs| - 1].socket);
      Delivered(cs[..|cs| - 1], read, asF64) + (if Decoded(o, asF64).Some? then [Decoded(o, asF64).value] else [])
  }

  /** The pool after one cycle: the accepted connection joins, then the sweep filters. */
  function NextPool(cs: seq<Connection>, accepted: Option<nat>, read: nat -> ReadOutcome, now: nat, prunePeriod: U64)
    : seq<Connection>
  {
    Survivors(cs + Accepted(accepted, now), read, now, prunePeriod)
  }

  /** The digests one cycle delivers. */
  function CycleDelivered(cs: seq<Connection>, accepted: Option<nat>, read: nat -> ReadOutcome, now: nat, asF64: int -> F64): seq<Digest> {
    Delivered(cs + Accepted(accepted, now), read, asF64)
  }

  // ---------------------------------------------------------------------------
  // One cycle, step by step, on the `remote_sources` vector

  /**
   * `remote_sources.drain_filter(...)`: reads every connection once, in
   * order; a decoded digest goes to storage, and a connection the prune
   * rule marks is closed and removed. Returns the connections kept, the
   * digests delivered and the connections closed.
   */
  method Sweep(sources: seq<Connection>, read: nat -> ReadOutcome, now: nat, prunePeriod: U64, asF64: int -> F64)
    returns (kept: seq<Connection>, delivered: seq<Digest>, closed: seq<Connection>)
    ensures kept == Survivors(sources, read, now, prunePeriod)
    ensures closed == Closed(sources, read, now, prunePeriod)
    ensures delivered == Delivered(sources, read, asF64)
  {
    kept, delivered, closed := [], [], [];
    var i := 0;
    while i < |sources|
      invariant i <= |sources|
      invariant kept == Survivors(sources[..i], read, now, prunePeriod)
      invariant closed == Closed(sources[..i], read, now, prunePeriod)
      invariant delivered == Delivered(sources[..i], read, asF64)
    {
      var c := sources[i];
      var outcome := read(c.socket);
      if outcome.Received? {
        var digest := Decoded(outcome, asF64);
        if digest.Some? {
          delivered := delivered + [digest.value];
        }
        kept := kept + [c];
      } else if prunePeriod != 0 && Elapsed(c.lastRead, now) > prunePeriod {
        closed := closed + [c];
      } else {
        kept := kept + [c];
      }
      assert sources[..i + 1][..i] == sources[..i];
      i := i + 1;
    }
    assert sources[..i] == sources;
  }

  /**
   * One iteration of the `listen` loop body: `if let Ok(websocket) =
   * accept() { remote_sources.push(...) }`, then the sweep. Returns the
   * new pool, the digests delivered and the connections closed.
   */
  method Cycle(sources: seq<Connection>, accepted: Option<nat>, read: nat -> ReadOutcome, now: nat, prunePeriod: U64, asF64: int -> F64)
    returns (next: seq<Connection>, delivered: seq<Digest>, closed: seq<Connection>)
    ensures next == NextPool(sources, accepted, read, now, prunePeriod)
    ensures delivered == CycleDelivered(sources, accepted, read, now, asF64)
    ensures closed == Closed(sources + Accepted(accepted, now), read, now, prunePeriod)
  {
    var pooled := sources;
    if accepted.Some? {
      pooled := pooled + [Connection(accepted.value, now, [])];
    }
    assert pooled == sources + Accepted(accepted, now);
    next, delivered, closed := Sweep(pooled, read, now, prunePeriod, asF64);
  }

  // ---------------------------------------------------------------------------
  // The loop

  /** The `while` condition: forever with a zero countdown, else while fewer whole seconds than it have passed. */
  predicate Continues(countdown: U64, start: nat, now: nat) {
    countdown == 0 || Elapsed(start, now) < countdown
  }

  /** What the environment offers one cycle: the clock reading, the accept outcome and each socket's read outcome. */
  datatype Tick = Tick(now: nat, accepted: Option<nat>, read: nat -> ReadOutcome)

  /** The pool after the cycles `ticks`, starting from an empty one. */
  function PoolAfter(ticks: seq<Tick>, prunePeriod: U64): seq<Connection> {
    if |ticks| == 0 then []
    else
      var t := ticks[|ticks| - 1];
      NextPool(PoolAfter(ticks[..|ticks| - 1], prunePeriod), t.accepted, t.read, t.now, prunePeriod)
  }

  /** Every digest delivered during the cycles `ticks`, in order. */
  function DeliveredAfter(ticks: seq<Tick>, prunePeriod: U64, asF64: int -> F64): seq<Digest> {
    if |ticks| == 0 then []
    else
      var t := ticks[|ticks| - 1];
      DeliveredAfter(ticks[..|ticks| - 1], prunePeriod, asF64)
      + CycleDelivered(PoolAfter(ticks[..|ticks| - 1], prunePeriod), t.accepted, t.read, t.now, asF64)
  }

  /** The loop condition held at each of the first `run` cycles. */
  predicate Ran(countdown: U64, start: nat, ticks: seq<Tick>, run: nat)
    requires run <= |ticks|
  {
    run == 0 || (Ran(countdown, start, ticks, run - 1) && Continues(countdown, start, ticks[run - 1].now))
  }

  lemma {:induction false} RanMeans(countdown: U64, start: nat, ticks: seq<Tick>, run: nat)
    requires run <= |ticks| && Ran(countdown, start, ticks, run)
    ensures forall k :: 0 <= k < run ==> Continues(countdown, start, ticks[k].now)
  {
    if run > 0 {
      RanMeans(countdown, start, ticks, run - 1);
    }
  }

  /** Running one more cycle of the script extends the pool and the deliveries by that cycle's. */
  lemma AfterOneMore(ticks: seq<Tick>, run: nat, prunePeriod: U64, asF64: int -> F64)
    requires run < |ticks|
    ensures var t, before := ticks[run], PoolAfter(ticks[..run], prunePeriod);
      PoolAfter(ticks[..run + 1], prunePeriod) == NextPool(before, t.accepted, t.read, t.now, prunePeriod)
      && DeliveredAfter(ticks[..run + 1], prunePeriod, asF64)
         == DeliveredAfter(ticks[..run], prunePeriod, asF64) + CycleDelivered(before, t.accepted, t.read, t.now, asF64)
  {
    assert ticks[..run + 1][..run] == ticks[..run];
  }

  /**
   * `listen`, over an environment that offers the cycles `ticks`: runs
   * cycles while the loop condition holds and returns how many ran and what
   * went to storage. The connections each cycle closes are dropped: once
   * closed, nothing keeps a record of them.
   */
  method Listen(ticks: seq<Tick>, start: nat, prunePeriod: U64, countdown: U64, asF64: int -> F64)
    returns (delivered: seq<Digest>, run: nat)
    ensures run <= |ticks|
    ensures forall k :: 0 <= k < run ==> Continues(countdown, start, ticks[k].now)
    ensures run < |ticks| ==> !Continues(countdown, start, ticks[run].now)
    ensures countdown == 0 ==> run == |ticks|
    ensures delivered == DeliveredAfter(ticks[..run], prunePeriod, asF64)
  {
    var pool: seq<Connection> := [];
    delivered, run := [], 0;
    while run < |ticks| && Continues(countdown, start, ticks[run].now)
      invariant run <= |ticks|
      invariant Ran(countdown, start, ticks, run)
      invariant pool == PoolAfter(ticks[..run], prunePeriod)
      invariant delivered == DeliveredAfter(ticks[..run], prunePeriod, asF64)
    {
      var t := ticks[run];
      AfterOneMore(ticks, run, prunePeriod, asF64);
      var got, closed;
      pool, got, closed := Cycle(pool, t.accepted, t.read, t.now, prunePeriod, asF64);
      delivered := delivered + got;
      run := run + 1;
    }
    RanMeans(countdown, start, ticks, run);
  }

  // ---------------------------------------------------------------------------
  // What a cycle keeps, closes and delivers

  /** The sweep works connection by connection: sweeping two parts of a pool is sweeping the whole, order kept. */
  lemma {:induction false} SurvivorsAppend(a: seq<Connection>, b: seq<Connection>, read: nat -> ReadOutcome, now: nat, prunePeriod: U64)
    ensures Survivors(a + b, read, now, prunePeriod) == Survivors(a, read, now, prunePeriod) + Survivors(b, read, now, prunePeriod)
    ensures Closed(a + b, read, now, prunePeriod) == Closed(a, read, now, prunePeriod) + Closed(b, read, now, prunePeriod)
    decreases |b|
  {
    if |b| == 0 {
      assert a + b == a;
    } else {
      assert (a + b)[..|a + b| - 1] == a + b[..|b| - 1];
      SurvivorsAppend(a, b[..|b| - 1], read, now, prunePeriod);
    }
  }

  /** A connection survives exactly when it was pooled and the prune rule does not mark it. */
  lemma {:induction false} SurvivorsMembership(cs: seq<Connection>, read: nat -> ReadOutcome, now: nat, prunePeriod: U64, c: Connection)
    ensures c in Survivors(cs, read, now, prunePeriod) <==> c in cs && !Evicts(c, read(c.socket), now, prunePeriod)
    ensures c in Closed(cs, read, now, prunePeriod) <==> c in cs && Evicts(c, read(c.socket), now, prunePeriod)
    decreases |cs|
  {
    if |cs| > 0 {
      var init := cs[..|cs| - 1];
      SurvivorsMembership(init, read, now, prunePeriod, c);
      assert cs == init + [cs[|cs| - 1]];
    }
  }

  lemma {:induction false} SweepMultiset(cs: seq<Connection>, read: nat -> ReadOutcome, now: nat, prunePeriod: U64)
    ensures multiset(Survivors(cs, read, now, prunePeriod)) + multiset(Closed(cs, read, now, prunePeriod)) == multiset(cs)
    decreases |cs|
  {
    if |cs| > 0 {
      SweepMultiset(cs[..|cs| - 1], read, now, prunePeriod);
      LastMultiset(cs);
    }
  }

  /** Every connection is either kept or closed, none twice. */
  lemma SweepPartition(cs: seq<Connection>, read: nat -> ReadOutcome, now: nat, prunePeriod: U64)
    ensures multiset(Survivors(cs, read, now, prunePeriod)) + multiset(Closed(cs, read, now, prunePeriod)) == multiset(cs)
    ensures |Survivors(cs, read, now, prunePeriod)| + |Closed(cs, read, now, prunePeriod)| == |cs|
  {
    SweepMultiset(cs, read, now, prunePeriod);
    var kept, closed := Survivors(cs, read, now, prunePeriod), Closed(cs, read, now, prunePeriod);
    assert |multiset(kept) + multiset(closed)| == |multiset(cs)|;
  }

  /** When the rule marks no connection, the sweep keeps the pool as it was. */
  lemma {:induction false} SurvivorsIdentity(cs: seq<Connection>, read: nat -> ReadOutcome, now: nat, prunePeriod: U64)
    requires forall i :: 0 <= i < |cs| ==> !Evicts(cs[i], read(cs[i].socket), now, prunePeriod)
    ensures Survivors(cs, read, now, prunePeriod) == cs
    ensures Closed(cs, read, now, prunePeriod) == []
    decreases |cs|
  {
    if |cs| > 0 {
      var init, c := cs[..|cs| - 1], cs[|cs| - 1];
      forall i | 0 <= i < |init|
        ensures !Evicts(init[i], read(init[i].socket), now, prunePeriod)
      {
        assert init[i] == cs[i];
      }
      SurvivorsIdentity(init, read, now, prunePeriod);
      assert !Evicts(c, read(c.socket), now, prunePeriod);
      assert cs == init + [c];
    }
  }

  /** With a prune period of zero, a sweep never closes anything. */
  lemma NoPruning(cs: seq<Connection>, read: nat -> ReadOutcome, now: nat)
    ensures Survivors(cs, read, now, 0) == cs
    ensures Closed(cs, read, now, 0) == []
  {
    SurvivorsIdentity(cs, read, now, 0);
  }

  /** A successful read keeps its connection, whether or not the message decodes. */
  lemma ReceivedKept(cs: seq<Connection>, read: nat -> ReadOutcome, now: nat, prunePeriod: U64, c: Connection)
    requires c in cs && read(c.socket).Received?
    ensures c in Survivors(cs, read, now, prunePeriod)
    ensures c !in Closed(cs, read, now, prunePeriod)
  {
    SurvivorsMembership(cs, read, now, prunePeriod, c);
  }

  /**
   * The prune boundary on the clock: a failed read evicts once a full
   * second past `prunePeriod` seconds has gone by; exactly `prunePeriod`
   * whole seconds still keeps the connection.
   */
  lemma EvictionBoundary(c: Connection, now: nat, prunePeriod: U64)
    requires prunePeriod != 0 && c.lastRead <= now
    ensures Evicts(c, ReadFailed, now, prunePeriod) <==> now >= c.lastRead + (prunePeriod + 1) * NANOS_PER_SECOND
    ensures Elapsed(c.lastRead, now) == prunePeriod ==> !Evicts(c, ReadFailed, now, prunePeriod)
  {
    ElapsedBounds(c.lastRead, now);
    var e := Elapsed(c.lastRead, now);
    if e > prunePeriod {
      assert e >= prunePeriod + 1;
      assert e * NANOS_PER_SECOND >= (prunePeriod + 1) * NANOS_PER_SECOND;
    } else {
      assert e + 1 <= prunePeriod + 1;
      assert (e + 1) * NANOS_PER_SECOND <= (prunePeriod + 1) * NANOS_PER_SECOND;
    }
  }

  /** A connection accepted this cycle is never closed in it: no whole second has passed since its stamp. */
  lemma FreshSurvives(cs: seq<Connection>, socket: nat, read: nat -> ReadOutcome, now: nat, prunePeriod: U64)
    ensures Connection(socket, now, []) in NextPool(cs, Some(socket), read, now, prunePeriod)
  {
    SurvivorsMembership(cs + Accepted(Some(socket), now), read, now, prunePeriod, Connection(socket, now, []));
  }

  /** A digest is delivered exactly when some pooled connection's message decodes to it. */
  lemma {:induction false} DeliveredMembership(cs: seq<Connection>, read: nat -> ReadOutcome, d: Digest, asF64: int -> F64)
    ensures d in Delivered(cs, read, asF64) <==> exists i :: 0 <= i < |cs| && Decoded(read(cs[i].socket), asF64) == Some(d)
    ensures |Delivered(cs, read, asF64)| <= |cs|
    decreases |cs|
  {
    if |cs| > 0 {
      var init := cs[..|cs| - 1];
      DeliveredMembership(init, read, d, asF64);
      if d in Delivered(cs, read, asF64) && d !in Delivered(init, read, asF64) {
        assert Decoded(read(cs[|cs| - 1].socket), asF64) == Some(d);
      }
      if exists i :: 0 <= i < |cs| && Decoded(read(cs[i].socket), asF64) == Some(d) {
        var i :| 0 <= i < |cs| && Decoded(read(cs[i].socket), asF64) == Some(d);
        if i < |cs| - 1 {
          assert init[i] == cs[i];
        }
      }
    }
  }

  /** Storage receives exactly the digest a message encodes, and nothing for a failed read or a non-JSON text. */
  lemma DecodedMessages(d: Digest, asF64: int -> F64)
    ensures Decoded(Received(Some(EncodeDigest(d))), asF64) == Some(d)
    ensures Decoded(Received(None), asF64) == None
    ensures Decoded(ReadFailed, asF64) == None
  {
    DecodeEncodeDigest(d, asF64);
  }

  // ---------------------------------------------------------------------------
  // What the loop keeps over many cycles

  /** The connections accepted during `ticks`, in order. */
  function AllAccepted(ticks: seq<Tick>): seq<Connection> {
    if |ticks| == 0 then []
    else AllAccepted(ticks[..|ticks| - 1]) + Accepted(ticks[|ticks| - 1].accepted, ticks[|ticks| - 1].now)
  }

  /** With a prune period of zero the pool is every connection ever accepted, in order. */
  lemma {:induction false} NoPruningKeepsAll(ticks: seq<Tick>)
    ensures PoolAfter(ticks, 0) == AllAccepted(ticks)
    decreases |ticks|
  {
    if |ticks| > 0 {
      var t := ticks[|ticks| - 1];
      NoPruningKeepsAll(ticks[..|ticks| - 1]);
      NoPruning(PoolAfter(ticks[..|ticks| - 1], 0) + Accepted(t.accepted, t.now), t.read, t.now);
    }
  }

  /**
   * Nothing rewrites a pooled connection: each one is a connection some cycle
   * accepted, still with that cycle's clock reading and an empty buffer.
   */
  lemma {:induction false} PooledConnections(ticks: seq<Tick>, prunePeriod: U64, c: Connection)
    requires c in PoolAfter(ticks, prunePeriod)
    ensures c.buffer == []
    ensures exists j :: 0 <= j < |ticks| && ticks[j].accepted == Some(c.socket) && ticks[j].now == c.lastRead
    decreases |ticks|
  {
    var init := ticks[..|ticks| - 1];
    var t := ticks[|ticks| - 1];
    var before := PoolAfter(init, prunePeriod);
    SurvivorsMembership(before + Accepted(t.accepted, t.now), t.read, t.now, prunePeriod, c);
    if c in before {
      PooledConnections(init, prunePeriod, c);
      var j :| 0 <= j < |init| && init[j].accepted == Some(c.socket) && init[j].now == c.lastRead;
      assert ticks[j] == init[j];
    } else {
      assert ticks[|ticks| - 1].accepted == Some(c.socket);
    }
  }

  // ---------------------------------------------------------------------------
  // The countdown

  /** A nonzero countdown keeps the loop going exactly until `countdown` seconds after the start. */
  lemma CountdownBoundary(countdown: U64, start: nat, now: nat)
    requires countdown != 0 && start <= now
    ensures Continues(countdown, start, now) <==> now < start + countdown * NANOS_PER_SECOND
  {
    ElapsedBounds(start, now);
    var e := Elapsed(start, now);
    if e < countdown {
      assert (e + 1) * NANOS_PER_SECOND <= countdown * NANOS_PER_SECOND;
    } else {
      assert e * NANOS_PER_SECOND >= countdown * NANOS_PER_SECOND;
    }
  }

  /** On a clock that does not go back, once the loop condition fails it stays failed. */
  lemma StopsForGood(countdown: U64, start: nat, earlier: nat, later: nat)
    requires earlier <= later && !Continues(countdown, start, earlier)
    ensures !Continues(countdown, start, later)
  {
    ElapsedBounds(start, earlier);
    ElapsedBounds(start, later);
    CountdownBoundary(countdown, start, later);
    if start <= earlier {
      CountdownBoundary(countdown, start, earlier);
    }
  }

  // ---------------------------------------------------------------------------
  // Eviction counts from the accept, not from the last message

  /**
   * A script in which one connection sends every cycle: socket 0 is accepted
   * at 0 s and reads a message then and at 1.5 s; its read at 2 s fails.
   */
  predicate SteadySender(ticks: seq<Tick>) {
    && |ticks| == 3
    && ticks[0].now == 0 && ticks[0].accepted == Some(0) && ticks[0].read(0).Received?
    && ticks[1].now == 1_500_000_000 && ticks[1].accepted.None? && ticks[1].read(0).Received?
    && ticks[2].now == 2_000_000_000 && ticks[2].accepted.None? && ticks[2].read(0).ReadFailed?
  }

  /** Sweeping a single connection keeps it exactly when the prune rule does not mark it. */
  lemma SurvivorsOne(c: Connection, read: nat -> ReadOutcome, now: nat, prunePeriod: U64)
    ensures Survivors([c], read, now, prunePeriod) == if Evicts(c, read(c.socket), now, prunePeriod) then [] else [c]
  {
    assert [c][..0] == [];
  }

  /**
   * As written, the connection is closed on its first failed read although
   * it sent a message half a second before: its stamp is still the accept.
   */
  lemma SteadySenderClosed(ticks: seq<Tick>)
    requires SteadySender(ticks)
    ensures PoolAfter(ticks[..2], 1) == [Connection(0, 0, [])]
    ensures PoolAfter(ticks, 1) == []
  {
    var c := Connection(0, 0, []);
    assert PoolAfter(ticks[..1], 1) == [c] by {
      assert ticks[..0] == [];
      AfterOneMore(ticks, 0, 1, _ => F64(0));
      assert [] + Accepted(Some(0), 0) == [c];
      SurvivorsOne(c, ticks[0].read, 0, 1);
    }
    assert PoolAfter(ticks[..2], 1) == [c] by {
      AfterOneMore(ticks, 1, 1, _ => F64(0));
      assert [c] + Accepted(None, 1_500_000_000) == [c];
      SurvivorsOne(c, ticks[1].read, 1_500_000_000, 1);
    }
    assert PoolAfter(ticks[..3], 1) == [] by {
      AfterOneMore(ticks, 2, 1, _ => F64(0));
      assert [c] + Accepted(None, 2_000_000_000) == [c];
      assert Elapsed(0, 2_000_000_000) == 2;
      SurvivorsOne(c, ticks[2].read, 2_000_000_000, 1);
    }
    assert ticks[..3] == ticks;
  }

  /** The corrected stamp: a successful read records the cycle's clock reading. */
  function Restamped(c: Connection, o: ReadOutcome, now: nat): Connection {
    if o.Received? then c.(lastRead := now) else c
  }

  /** The corrected sweep: the prune rule as written, each kept connection re-stamped. */
  function RestampedSurvivors(cs: seq<Connection>, read: nat -> ReadOutcome, now: nat, prunePeriod: U64): seq<Connection> {
    if |cs| == 0 then []
    else
      var c := cs[|cs| - 1];
      RestampedSurvivors(cs[..|cs| - 1], read, now, prunePeriod)
      + (if Evicts(c, read(c.socket), now, prunePeriod) then [] else [Restamped(c, read(c.socket), now)])
  }

  /** The corrected pool after the cycles `ticks`. */
  function RestampedPoolAfter(ticks: seq<Tick>, prunePeriod: U64): seq<Connection> {
    if |ticks| == 0 then []
    else
      var t := ticks[|ticks| - 1];
      RestampedSurvivors(RestampedPoolAfter(ticks[..|ticks| - 1], prunePeriod) + Accepted(t.accepted, t.now), t.read, t.now, prunePeriod)
  }

  lemma RestampedOneMore(ticks: seq<Tick>, run: nat, prunePeriod: U64)
    requires run < |ticks|
    ensures var t := ticks[run];
      RestampedPoolAfter(ticks[..run + 1], prunePeriod)
      == RestampedSurvivors(RestampedPoolAfter(ticks[..run], prunePeriod) + Accepted(t.accepted, t.now), t.read, t.now, prunePeriod)
  {
    assert ticks[..run + 1][..run] == ticks[..run];
  }

  lemma RestampedOne(c: Connection, read: nat -> ReadOutcome, now: nat, prunePeriod: U64)
    ensures read(c.socket).Received? ==> RestampedSurvivors([c], read, now, prunePeriod) == [c.(lastRead := now)]
    ensures !Evicts(c, read(c.socket), now, prunePeriod) && read(c.socket).ReadFailed?
      ==> RestampedSurvivors([c], read, now, prunePeriod) == [c]
  {
    assert [c][..0] == [];
  }

  /** With the corrected stamp, the connection that sends every cycle stays, stamped with its last message. */
  lemma SteadySenderKept(ticks: seq<Tick>)
    requires SteadySender(ticks)
    ensures RestampedPoolAfter(ticks, 1) == [Connection(0, 1_500_000_000, [])]
  {
    var c' := Connection(0, 1_500_000_000, []);
    SteadySenderStamped(ticks);
    assert ticks[..3] == ticks;
    RestampedOneMore(ticks, 2, 1);
    var t := ticks[2];
    assert RestampedPoolAfter(ticks, 1) == RestampedSurvivors([c'], t.read, t.now, 1) by {
      assert RestampedPoolAfter(ticks[..2], 1) + Accepted(t.accepted, t.now) == [c'];
    }
    assert !Evicts(c', t.read(c'.socket), t.now, 1) by {
      assert Elapsed(1_500_000_000, 2_000_000_000) == 0;
    }
    RestampedOne(c', t.read, t.now, 1);
  }

  /** Its first two messages stamp the connection with 0 s and then 1.5 s. */
  lemma SteadySenderStamped(ticks: seq<Tick>)
    requires SteadySender(ticks)
    ensures RestampedPoolAfter(ticks[..1], 1) == [Connection(0, 0, [])]
    ensures RestampedPoolAfter(ticks[..2], 1) == [Connection(0, 1_500_000_000, [])]
  {
    var c, c' := Connection(0, 0, []), Connection(0, 1_500_000_000, []);
    var first := RestampedPoolAfter(ticks[..1], 1);
    assert first == [c] by {
      assert ticks[..0] == [];
      RestampedOneMore(ticks, 0, 1);
      assert [] + Accepted(Some(0), 0) == [c];
      RestampedOne(c, ticks[0].read, 0, 1);
      assert c.(lastRead := 0) == c;
    }
    RestampedOneMore(ticks, 1, 1);
    assert first + Accepted(None, 1_500_000_000) == [c];
    RestampedOne(c, ticks[1].read, 1_500_000_000, 1);
    assert c.(lastRead := 1_500_000_000) == c';
  }

  /**
   * With the corrected stamp, a connection that read a message at `now` is
   * kept, stamped `now`, and no failed read evicts it until `prune_period + 1`
   * whole seconds later.
   */
  lemma {:induction false} RestampedKeepsSenders(cs: seq<Connection>, read: nat -> ReadOutcome, now: nat, prunePeriod: U64, i: nat, later: nat)
    requires i < |cs| && read(cs[i].socket).Received?
    requires prunePeriod != 0 && now <= later < now + (prunePeriod + 1) * NANOS_PER_SECOND
    ensures cs[i].(lastRead := now) in RestampedSurvivors(cs, read, now, prunePeriod)
    ensures !Evicts(cs[i].(lastRead := now), ReadFailed, later, prunePeriod)
    decreases |cs|
  {
    var init := cs[..|cs| - 1];
    if i < |init| {
      assert init[i] == cs[i];
      RestampedKeepsSenders(init, read, now, prunePeriod, i, later);
    }
    EvictionBoundary(cs[i].(lastRead := now), later, prunePeriod);
  }
}
