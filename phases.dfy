/** The phase arithmetic of the trace engine (src/har-exporter.ts): the
    interceptor's private timing record, in integer nanoseconds, and the
    update each lifecycle event makes to it. Every phase is "the event's
    instant minus the start and all earlier phases", where the four optional
    phases count as 0 while unmeasured — except that `ssl` subtracts the
    raw `connect`. */
module Phases {
  import Har

  /** The lifecycle phases, in the order a fresh connection goes through them. */
  datatype Phase = Blocked | Dns | Connect | Ssl | Send | Wait | Receive

  /** The interceptor's `timings` record: the start instant and one value
      per phase. */
  datatype Timings = Timings(
    start: int,
    blocked: int, dns: int, connect: int,
    send: int, wait: int, receive: int,
    ssl: int)

  /** An event of the lifecycle: the phase it closes and its instant. */
  datatype Event = Event(phase: Phase, at: int)

  /** The phases in lifecycle order. */
  const Order: seq<Phase> := [Blocked, Dns, Connect, Ssl, Send, Wait, Receive]

  function Rank(p: Phase): (k: nat)
    ensures k < |Order| && Order[k] == p
  {
    match p
    case Blocked => 0
    case Dns => 1
    case Connect => 2
    case Ssl => 3
    case Send => 4
    case Wait => 5
    case Receive => 6
  }

  /** The value recorded for a phase. */
  function Get(ts: Timings, p: Phase): int
  {
    match p
    case Blocked => ts.blocked
    case Dns => ts.dns
    case Connect => ts.connect
    case Ssl => ts.ssl
    case Send => ts.send
    case Wait => ts.wait
    case Receive => ts.receive
  }

  /** Whether a phase is one of the four that may be skipped (a reused
      socket, a literal address, plain HTTP). */
  predicate Optional(p: Phase)
  {
    Rank(p) < 4
  }

  /** The value a phase holds before it is measured: the -1 sentinel for an
      optional phase, 0 for the others. */
  function Unset(p: Phase): int
  {
    if Optional(p) then -1 else 0
  }

  /** What a phase adds to the elapsed time: an optional phase is clamped
      at 0, the others count as they are. */
  function Share(ts: Timings, p: Phase): int
  {
    if Optional(p) then Har.Counted(Get(ts, p)) else Get(ts, p)
  }

  /** The shares of the first `n` phases in lifecycle order. */
  function SumShares(ts: Timings, n: nat): int
    requires n <= |Order|
  {
    if n == 0 then 0 else SumShares(ts, n - 1) + Share(ts, Order[n - 1])
  }

  /** The instant at which phase `p` begins: the start plus the shares of
      every earlier phase. */
  function Before(ts: Timings, p: Phase): int
  {
    ts.start + SumShares(ts, Rank(p))
  }

  /** The instant the whole exchange reaches: the start plus every share. */
  function Elapsed(ts: Timings): int
  {
    ts.start + SumShares(ts, |Order|)
  }

  /** The record of a new interceptor: the given start, every phase unset
      (src/har-exporter.ts:74-83). */
  function Initial(start: int): (ts: Timings)
    ensures ts.start == start
    ensures forall p :: Get(ts, p) == Unset(p)
    ensures Elapsed(ts) == start
  {
    var ts := Timings(start, -1, -1, -1, 0, 0, 0, -1);
    PartialSums(ts);
    ts
  }

  /** The update one lifecycle event makes, with the arithmetic of its
      handler: only the event's phase changes. */
  function Step(ts: Timings, e: Event): (r: Timings)
    ensures r.start == ts.start
    ensures forall q :: q != e.phase ==> Get(r, q) == Get(ts, q)
  {
    var b := if ts.blocked < 0 then 0 else ts.blocked;
    var d := if ts.dns < 0 then 0 else ts.dns;
    var c := if ts.connect < 0 then 0 else ts.connect;
    var s := if ts.ssl < 0 then 0 else ts.ssl;
    var t := e.at;
    match e.phase
    case Blocked => ts.(blocked := t - ts.start)
    case Dns => ts.(dns := t - (ts.start + b))
    case Connect => ts.(connect := t - (ts.start + b + d))
    case Ssl => ts.(ssl := t - (ts.start + b + d + ts.connect))
    case Send => ts.(send := t - (ts.start + b + d + c + s))
    case Wait => ts.(wait := t - (ts.start + b + d + c + s + ts.send))
    case Receive => ts.(receive := t - (ts.start + b + d + c + s + ts.send + ts.wait))
  }

  /** The phase an event closes becomes the event's instant minus the
      instant at which the phase begins. For `ssl` the handler subtracts the
      raw `connect`, so the result is off by the clamp whenever `connect` is
      still the sentinel. */
  lemma StepBegins(ts: Timings, e: Event)
    ensures e.phase != Ssl ==> Before(ts, e.phase) + Get(Step(ts, e), e.phase) == e.at
    ensures e.phase == Ssl ==>
              Before(ts, Ssl) + Get(Step(ts, e), Ssl) == e.at + Share(ts, Connect) - ts.connect
  {
    PartialSums(ts);
  }

  /** The sums over the first phases, written out. */
  lemma PartialSums(ts: Timings)
    ensures SumShares(ts, 0) == 0
    ensures SumShares(ts, 1) == Har.Counted(ts.blocked)
    ensures SumShares(ts, 2) == SumShares(ts, 1) + Har.Counted(ts.dns)
    ensures SumShares(ts, 3) == SumShares(ts, 2) + Har.Counted(ts.connect)
    ensures SumShares(ts, 4) == SumShares(ts, 3) + Har.Counted(ts.ssl)
    ensures SumShares(ts, 5) == SumShares(ts, 4) + ts.send
    ensures SumShares(ts, 6) == SumShares(ts, 5) + ts.wait
    ensures SumShares(ts, 7) == SumShares(ts, 6) + ts.receive
  {
  }

  /** The elapsed instant written out: the start, the four optional phases
      clamped, and the three others. */
  lemma ElapsedSum(ts: Timings)
    ensures Elapsed(ts) == ts.start + Har.Counted(ts.blocked) + Har.Counted(ts.dns)
                           + Har.Counted(ts.connect) + Har.Counted(ts.ssl)
                           + ts.send + ts.wait + ts.receive
  {
    PartialSums(ts);
  }

  // ---------------------------------------------------------------------------
  // Telescoping

  /** Phases from rank `n` on that are still unset add nothing. */
  lemma {:induction false} UnsetTail(ts: Timings, n: nat, m: nat)
    requires n <= m <= |Order|
    requires forall q :: Rank(q) >= n ==> Get(ts, q) == Unset(q)
    ensures SumShares(ts, m) == SumShares(ts, n)
    decreases m
  {
    if m > n {
      var q := Order[m - 1];
      assert Rank(q) == m - 1;
      assert Share(ts, q) == 0;
      UnsetTail(ts, n, m - 1);
    }
  }

  /** Two records that agree on the first `n` phases have the same sum over them. */
  lemma {:induction false} SamePrefix(ts: Timings, us: Timings, n: nat)
    requires n <= |Order|
    requires forall k :: 0 <= k < n ==> Get(ts, Order[k]) == Get(us, Order[k])
    ensures SumShares(ts, n) == SumShares(us, n)
    decreases n
  {
    if n > 0 {
      SamePrefix(ts, us, n - 1);
    }
  }

  /** One event that comes after everything measured so far, at or after the
      instant reached so far: its phase comes out non-negative, and the
      whole record now reaches exactly the event's instant. */
  lemma StepReaches(ts: Timings, e: Event)
    requires forall q :: Rank(q) >= Rank(e.phase) ==> Get(ts, q) == Unset(q)
    requires e.phase == Ssl ==> ts.connect >= 0
    requires e.at >= Elapsed(ts)
    ensures Get(Step(ts, e), e.phase) == e.at - Elapsed(ts) >= 0
    ensures Elapsed(Step(ts, e)) == e.at
  {
    var r := Step(ts, e);
    var n := Rank(e.phase);
    StepBegins(ts, e);
    UnsetTail(ts, n, |Order|);
    assert Get(r, e.phase) == e.at - Elapsed(ts);
    forall q | Rank(q) > n
      ensures Get(r, q) == Unset(q)
    {
      assert q != e.phase;
    }
    UnsetTail(r, n + 1, |Order|);
    forall k | 0 <= k < n
      ensures Get(r, Order[k]) == Get(ts, Order[k])
    {
      assert Rank(Order[k]) == k;
    }
    SamePrefix(r, ts, n);
    assert SumShares(r, n + 1) == SumShares(r, n) + Share(r, e.phase);
  }

  /** The record after a sequence of events, applied in order. */
  function Run(ts: Timings, es: seq<Event>): Timings
    decreases |es|
  {
    if es == [] then ts else Run(Step(ts, es[0]), es[1..])
  }

  /** Events in causal order: each phase at most once and in lifecycle
      order, at non-decreasing instants. */
  ghost predicate Causal(es: seq<Event>)
  {
    forall i, j :: 0 <= i < j < |es| ==>
      Rank(es[i].phase) < Rank(es[j].phase) && es[i].at <= es[j].at
  }

  /** Every `secureConnect` after the first event comes straight after a
      `connect`. */
  ghost predicate SslFollowsConnect(es: seq<Event>)
  {
    forall i :: 0 <= i < |es| - 1 && es[i + 1].phase == Ssl ==> es[i].phase == Connect
  }

  /** Running events that continue a record consistently: the record ends
      at the last event's instant, every phase the events measure is
      non-negative, and every other phase is as it was. */
  lemma {:induction false} RunFrom(ts: Timings, es: seq<Event>)
    requires Causal(es) && SslFollowsConnect(es)
    requires es != [] && es[0].phase == Ssl ==> ts.connect >= 0
    requires es != [] ==> es[0].at >= Elapsed(ts)
    requires es != [] ==> forall q :: Rank(q) >= Rank(es[0].phase) ==> Get(ts, q) == Unset(q)
    ensures Elapsed(Run(ts, es)) == if es == [] then Elapsed(ts) else es[|es| - 1].at
    ensures forall i :: 0 <= i < |es| ==> Get(Run(ts, es), es[i].phase) >= 0
    ensures forall q :: (forall i :: 0 <= i < |es| ==> es[i].phase != q) ==>
              Get(Run(ts, es), q) == Get(ts, q)
    decreases |es|
  {
    if es != [] {
      var e, rest := es[0], es[1..];
      var us := Step(ts, e);
      StepReaches(ts, e);
      assert Causal(rest) by {
        forall i, j | 0 <= i < j < |rest|
          ensures Rank(rest[i].phase) < Rank(rest[j].phase) && rest[i].at <= rest[j].at
        {
          assert rest[i] == es[i + 1] && rest[j] == es[j + 1];
        }
      }
      assert SslFollowsConnect(rest) by {
        forall i | 0 <= i < |rest| - 1 && rest[i + 1].phase == Ssl
          ensures rest[i].phase == Connect
        {
          assert rest[i] == es[i + 1] && rest[i + 1] == es[i + 2];
        }
      }
      if rest != [] && rest[0].phase == Ssl {
        assert rest[0] == es[1];
        assert e.phase == Connect;
        assert us.connect == Get(us, e.phase);
      }
      if rest != [] {
        assert rest[0] == es[1];
        forall q | Rank(q) >= Rank(rest[0].phase)
          ensures Get(us, q) == Unset(q)
        {
          assert q != e.phase;
        }
      }
      RunFrom(us, rest);
      assert Run(ts, es) == Run(us, rest);
      forall i | 0 <= i < |es|
        ensures Get(Run(ts, es), es[i].phase) >= 0
      {
        if i == 0 {
          forall j | 0 <= j < |rest|
            ensures rest[j].phase != e.phase
          {
            assert rest[j] == es[j + 1];
          }
        } else {
          assert es[i] == rest[i - 1];
        }
      }
      forall q | forall i :: 0 <= i < |es| ==> es[i].phase != q
        ensures Get(Run(ts, es), q) == Get(ts, q)
      {
        assert e.phase != q;
        forall j | 0 <= j < |rest|
          ensures rest[j].phase != q
        {
          assert rest[j] == es[j + 1];
        }
      }
      if rest != [] {
        assert es[|es| - 1] == rest[|rest| - 1];
      }
    }
  }

  /** The telescoping property of the engine: for events in causal order
      after the start, with `secureConnect` only after `connect`, the start
      plus every clamped phase equals the last event's instant exactly; so
      after `responseEnd` it is the end of the exchange. Every phase
      measured is non-negative, and every phase not measured keeps its
      initial value. (A run that starts with `secureConnect` has no
      `connect` before it.) */
  lemma {:induction false} RunTelescopes(start: int, es: seq<Event>)
    requires es != [] && es[0].at >= start
    requires es[0].phase != Ssl
    requires Causal(es) && SslFollowsConnect(es)
    ensures Elapsed(Run(Initial(start), es)) == es[|es| - 1].at
    ensures forall i :: 0 <= i < |es| ==> Get(Run(Initial(start), es), es[i].phase) >= 0
    ensures forall q :: (forall i :: 0 <= i < |es| ==> es[i].phase != q) ==>
              Get(Run(Initial(start), es), q) == Unset(q)
  {
    RunFrom(Initial(start), es);
  }

  /** The `ssl` quirk: a `secureConnect` with `connect` still unmeasured
      subtracts the sentinel, so `ssl` comes out one nanosecond too large
      and a `send` at the very same instant comes out as -1, although no
      instant went backwards. */
  lemma SslWithoutConnect(start: int)
    ensures Run(Initial(start), [Event(Ssl, start), Event(Send, start)]).ssl == 1
    ensures Run(Initial(start), [Event(Ssl, start), Event(Send, start)]).send == -1
  {
    var es := [Event(Ssl, start), Event(Send, start)];
    var us := Step(Initial(start), es[0]);
    assert us.ssl == 1;
    assert es[1..] == [Event(Send, start)];
    assert Run(us, es[1..]) == Run(Step(us, es[1]), []);
  }
}
