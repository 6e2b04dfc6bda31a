/** The decision logic of the measurement node simulator: the keep-alive
    deadline rule of `handle_keep_alive`, the deterministic fields of
    `measure`, and the failure count with which `main` ends. Time is a number
    of milliseconds; the moment at which each event reaches the client is part
    of the event. */
module NodeSimulator {
  import opened Wrappers
  import opened Measurements

  /** `Duration::from_secs(5)`, in milliseconds. */
  const KeepAliveWindow: nat := 5000

  /** What the line reader produced. */
  datatype LineContent = Message(msg: KeepAlive) | Unparseable(line: string)

  /** The next thing the reader delivers, and when. */
  datatype ReadEvent =
    | Line(at: nat, content: LineContent)
    | EndOfStream(at: nat)
    | ReadFailed(at: nat)

  datatype KeepAliveError = LostConnection | NoKeepAlive

  function At(ev: ReadEvent): nat {
    match ev
    case Line(at, _) => at
    case EndOfStream(at) => at
    case ReadFailed(at) => at
  }

  /** The deadline for the next line. */
  function Deadline(last: nat): nat {
    last + KeepAliveWindow
  }

  /** `timeout_at` polls the reader before the timer, so an event that is ready
      at the deadline itself still wins. */
  predicate InTime(last: nat, ev: ReadEvent) {
    At(ev) <= Deadline(last)
  }

  /** The result of one `handle_keep_alive` call. */
  function KeepAliveOutcome(last: nat, ev: ReadEvent): Result<(), KeepAliveError> {
    if !InTime(last, ev) then Err(NoKeepAlive)
    else match ev
      case Line(_, _) => Ok(())
      case _ => Err(LostConnection)
  }

  /** The value of `last_keep_alive` after one call: only a well-formed
      `KeepAlive { everything_is_fine: true }` in time refreshes it, to the
      moment the line arrived. */
  function NextKeepAlive(last: nat, ev: ReadEvent): nat {
    if InTime(last, ev) && ev.Line? && ev.content == Message(KeepAlive(true)) then ev.at else last
  }

  /** The client state `handle_keep_alive` updates through `&mut`. */
  class KeepAliveState {
    var lastKeepAlive: nat

    constructor (connectedAt: nat)
      ensures lastKeepAlive == connectedAt
    {
      lastKeepAlive := connectedAt;
    }

    method HandleKeepAlive(ev: ReadEvent) returns (r: Result<(), KeepAliveError>)
      modifies this
      ensures r == KeepAliveOutcome(old(lastKeepAlive), ev)
      ensures lastKeepAlive == NextKeepAlive(old(lastKeepAlive), ev)
    {
      var deadline := lastKeepAlive + KeepAliveWindow;
      if At(ev) > deadline {
        return Err(NoKeepAlive);
      }
      match ev {
        case Line(at, content) =>
          match content {
            case Message(KeepAlive(true)) =>
              lastKeepAlive := at;
            case Message(KeepAlive(false)) =>
            case Unparseable(_) =>
          }
          r := Ok(());
        case EndOfStream(_) =>
          r := Err(LostConnection);
        case ReadFailed(_) =>
          r := Err(LostConnection);
      }
    }

    /** The keep-alive branch of the client loop: `res?` ends the loop at the
        first error. Events are consumed in order; `Ok` means the events ran
        out without an error (the loop then ends through another branch). */
    method RunKeepAlive(events: seq<ReadEvent>) returns (r: Result<(), KeepAliveError>, handled: nat)
      modifies this
      ensures KeepAliveRun(old(lastKeepAlive), events) == RunState(r, handled, lastKeepAlive)
    {
      handled := 0;
      r := Ok(());
      while handled < |events|
        invariant 0 <= handled <= |events|
        invariant r == Ok(())
        invariant var rest := KeepAliveRun(lastKeepAlive, events[handled..]);
          KeepAliveRun(old(lastKeepAlive), events) == RunState(rest.result, handled + rest.handled, rest.last)
      {
        assert events[handled..][1..] == events[handled + 1..];
        r := HandleKeepAlive(events[handled]);
        handled := handled + 1;
        if r.Err? {
          return;
        }
      }
    }
  }

  datatype RunState = RunState(result: Result<(), KeepAliveError>, handled: nat, last: nat)

  /** Calls of `handle_keep_alive` on `events` in order, up to and including
      the first one that fails. */
  function KeepAliveRun(last: nat, events: seq<ReadEvent>): (s: RunState)
    ensures s.handled <= |events|
    ensures s.result.Ok? ==> s.handled == |events|
    ensures s.result.Err? ==> s.handled > 0
    decreases |events|
  {
    if |events| == 0 then RunState(Ok(()), 0, last)
    else
      var outcome := KeepAliveOutcome(last, events[0]);
      var next := NextKeepAlive(last, events[0]);
      if outcome.Err? then RunState(outcome, 1, next)
      else
        var rest := KeepAliveRun(next, events[1..]);
        RunState(rest.result, rest.handled + 1, rest.last)
  }

  // ---------------------------------------------------------------------------
  // Properties of the keep-alive rule.

  /** The deadline is five seconds after the last good keep-alive: anything
      that arrives by then is handled, anything later times out. */
  lemma DeadlineBoundary(last: nat, ev: ReadEvent)
    ensures KeepAliveOutcome(last, ev) == Err(NoKeepAlive) <==> At(ev) > last + 5000
    ensures KeepAliveOutcome(last, ev) != Err(NoKeepAlive) ==> NextKeepAlive(last, ev) <= last + 5000
  {
  }

  /** Nothing in time: a silence longer than the window is fatal, whatever arrives. */
  lemma LateEventTimesOut(last: nat, ev: ReadEvent)
    requires At(ev) > last + KeepAliveWindow
    ensures KeepAliveOutcome(last, ev) == Err(NoKeepAlive)
    ensures NextKeepAlive(last, ev) == last
  {
  }

  /** End of stream or a read error in time is a lost connection. */
  lemma ClosedStreamIsLost(last: nat, ev: ReadEvent)
    requires !ev.Line? && At(ev) <= last + KeepAliveWindow
    ensures KeepAliveOutcome(last, ev) == Err(LostConnection)
  {
  }

  /** Any line in time is accepted; only `everything_is_fine: true` moves the
      deadline, and it moves it to the arrival time plus the window. */
  lemma LineInTime(last: nat, at: nat, content: LineContent)
    requires at <= last + KeepAliveWindow
    ensures KeepAliveOutcome(last, Line(at, content)) == Ok(())
    ensures NextKeepAlive(last, Line(at, content)) == if content == Message(KeepAlive(true)) then at else last
  {
  }

  /** A server that sends `everything_is_fine: true` at least every five
      seconds keeps the client alive through the whole stream. */
  lemma {:induction false} RegularKeepAlivesSurvive(last: nat, events: seq<ReadEvent>)
    requires forall i :: 0 <= i < |events| ==> events[i].Line? && events[i].content == Message(KeepAlive(true))
    requires |events| > 0 ==> At(events[0]) <= last + KeepAliveWindow
    requires forall i :: 0 < i < |events| ==> At(events[i]) <= At(events[i - 1]) + KeepAliveWindow
    ensures KeepAliveRun(last, events).result == Ok(())
    ensures |events| > 0 ==> KeepAliveRun(last, events).last == At(events[|events| - 1])
    decreases |events|
  {
    if |events| > 0 {
      var next := NextKeepAlive(last, events[0]);
      assert next == At(events[0]);
      var tail := events[1..];
      assert forall i :: 0 < i < |tail| ==> At(tail[i]) <= At(tail[i - 1]) + KeepAliveWindow by {
        forall i | 0 < i < |tail| ensures At(tail[i]) <= At(tail[i - 1]) + KeepAliveWindow {
          assert tail[i] == events[i + 1] && tail[i - 1] == events[i];
        }
      }
      RegularKeepAlivesSurvive(next, tail);
    }
  }

  /** `everything_is_fine: false` does not count as a keep-alive: a client
      that hears only such messages fails once five seconds have passed since
      the last good one. */
  lemma {:induction false} UnhappyServerTimesOut(last: nat, events: seq<ReadEvent>)
    requires |events| > 0
    requires forall i :: 0 <= i < |events| - 1 ==> events[i].Line? && events[i].content == Message(KeepAlive(false))
    requires forall i :: 0 <= i < |events| - 1 ==> At(events[i]) <= last + KeepAliveWindow
    requires At(events[|events| - 1]) > last + KeepAliveWindow
    ensures KeepAliveRun(last, events) == RunState(Err(NoKeepAlive), |events|, last)
    decreases |events|
  {
    if |events| > 1 {
      var tail := events[1..];
      assert forall i :: 0 <= i < |tail| - 1 ==> tail[i] == events[i + 1];
      UnhappyServerTimesOut(last, tail);
    }
  }

  // ---------------------------------------------------------------------------
  // `measure`: the random samples are parameters, drawn from the supports of
  // `Uniform::new(15.0, 25.0)`, `Open01` and `Bernoulli::new(0.01)`.

  function Measure(id: nat, temperature: real, relHumidity: real, fire: bool): (m: Measurement)
    requires 15.0 <= temperature < 25.0 && 0.0 < relHumidity < 1.0
    ensures m.nodeId == id && m.roomId < 256 && (m.roomId - id) % 256 == 0
    ensures 15.0 <= m.temperature < 25.0 && 0.0 < m.relHumidity < 1.0
    ensures m.fires <= 1 && (m.fires == 1 <==> fire)
    ensures m.mood == Good
  {
    Measurement(id, id % 256, temperature, relHumidity, if fire then 1 else 0, Good)
  }

  /** Nodes whose ids differ by a multiple of 256 report for the same room. */
  lemma SharedRoom(id: nat, k: nat, t1: real, h1: real, f1: bool, t2: real, h2: real, f2: bool)
    requires 15.0 <= t1 < 25.0 && 0.0 < h1 < 1.0 && 15.0 <= t2 < 25.0 && 0.0 < h2 < 1.0
    ensures Measure(id, t1, h1, f1).roomId == Measure(id + 256 * k, t2, h2, f2).roomId
  {
    ModShift(id, k);
  }

  lemma {:induction false} ModShift(x: nat, k: nat)
    ensures (x + 256 * k) % 256 == x % 256
    decreases k
  {
    if k > 0 {
      ModShift(x, k - 1);
      assert x + 256 * k == (x + 256 * (k - 1)) + 256;
    }
  }

  // ---------------------------------------------------------------------------
  // The end of `main`: count the tasks that failed.

  /** What `join_next` yields for one task. */
  datatype TaskResult = Finished(ok: bool) | Died(panicked: bool)

  predicate Failed(t: TaskResult) {
    !(t.Finished? && t.ok)
  }

  function Failures(results: seq<TaskResult>): (n: nat)
    ensures n <= |results|
    ensures n == 0 <==> forall i :: 0 <= i < |results| ==> !Failed(results[i])
  {
    if |results| == 0 then 0
    else Failures(results[..|results| - 1]) + (if Failed(results[|results| - 1]) then 1 else 0)
  }

  /** `Err` carries the count of the `"{failures} tasks ended with errors"` message. */
  method JoinAll(results: seq<TaskResult>) returns (r: Result<(), nat>)
    ensures r.Err? <==> exists i :: 0 <= i < |results| && Failed(results[i])
    ensures r.Err? ==> r.error == Failures(results) && 0 < r.error <= |results|
  {
    var failures := 0;
    var i := 0;
    while i < |results|
      invariant 0 <= i <= |results|
      invariant failures == Failures(results[..i])
    {
      assert results[..i + 1][..i] == results[..i];
      match results[i] {
        case Finished(true) =>
        case Finished(false) =>
          failures := failures + 1;
        case Died(_) =>
          failures := failures + 1;
      }
      i := i + 1;
    }
    assert results[..i] == results;
    if failures != 0 {
      r := Err(failures);
    } else {
      r := Ok(());
    }
  }
}
