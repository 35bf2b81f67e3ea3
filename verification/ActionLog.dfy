/** The action log's bounded queue, which drops rows rather than block (store/actionlog/actionlog.go). */
module ActionLog {
  const WORK_QUEUE_MAX_LENGTH := 1024

  /** History: a call of Log, and whether its row was queued. */
  datatype Call<+Row> = Call(row: Row, kept: bool)

  /** What the worker is doing: waiting for a row, writing one, or about to report drops. */
  datatype Worker<+Row> = Waiting | WritingRow(row: Row) | ReportingDrops

  datatype State<+Row> = State(
    work: seq<Row>,             // the channel's buffer
    dropped: nat,               // the counter
    worker: Worker<Row>,
    reported: nat,              // the drops told in warnings so far
    attempted: seq<Row>,        // the rows the worker wrote, or failed to write
    uncounted: nat,             // calls that found the queue full and have not counted it yet
    calls: seq<Call<Row>>)      // history

  function Initial<Row>(): State<Row> {
    State([], 0, Waiting, 0, [], 0, [])
  }

  /** Each action is one atomic operation of a caller or of the worker. */
  datatype Action<+Row> = Send(row: Row) | CountDrop | Receive | Write | Report

  predicate Enabled<Row>(s: State<Row>, a: Action<Row>) {
    match a
    case Send(_) => true
    case CountDrop => s.uncounted > 0
    case Receive => s.worker.Waiting? && s.work != []
    case Write => s.worker.WritingRow?
    case Report => s.worker.ReportingDrops?
  }

  function Step<Row>(s: State<Row>, a: Action<Row>): State<Row>
    requires Enabled(s, a)
  {
    match a
    case Send(row) =>
      if |s.work| < WORK_QUEUE_MAX_LENGTH then s.(work := s.work + [row], calls := s.calls + [Call(row, true)])
      else s.(uncounted := s.uncounted + 1, calls := s.calls + [Call(row, false)])
    case CountDrop => s.(uncounted := s.uncounted - 1, dropped := s.dropped + 1)
    case Receive => s.(work := s.work[1..], worker := WritingRow(s.work[0]))
    case Write => s.(attempted := s.attempted + [s.worker.row], worker := ReportingDrops)
    case Report => s.(reported := s.reported + s.dropped, dropped := 0, worker := Waiting)
  }

  /** The rows that were queued, in the order of the calls. */
  function Kept<Row>(calls: seq<Call<Row>>): seq<Row> {
    if calls == [] then []
    else
      var last := calls[|calls| - 1];
      Kept(calls[..|calls| - 1]) + if last.kept then [last.row] else []
  }

  function InHand<Row>(w: Worker<Row>): seq<Row> {
    match w
    case WritingRow(row) => [row]
    case Waiting => []
    case ReportingDrops => []
  }

  ghost predicate Inv<Row>(s: State<Row>) {
    && Kept(s.calls) == s.attempted + InHand(s.worker) + s.work
    && |s.calls| - |Kept(s.calls)| == s.uncounted + s.dropped + s.reported
    && |s.work| <= WORK_QUEUE_MAX_LENGTH
  }

  lemma StepKeepsInv<Row>(s: State<Row>, a: Action<Row>)
    requires Inv(s) && Enabled(s, a)
    ensures Inv(Step(s, a))
  {
    var t := Step(s, a);
    if a.Send? {
      assert t.calls[..|t.calls| - 1] == s.calls;
    }
    assert Kept(t.calls) == t.attempted + InHand(t.worker) + t.work;
  }

  ghost predicate Legal<Row(!new)>(s: State<Row>, run: seq<Action<Row>>)
    decreases |run|
  {
    run == [] || (Enabled(s, run[0]) && Legal(Step(s, run[0]), run[1..]))
  }

  ghost function After<Row(!new)>(s: State<Row>, run: seq<Action<Row>>): State<Row>
    requires Legal(s, run)
    decreases |run|
  {
    if run == [] then s else After(Step(s, run[0]), run[1..])
  }

  lemma {:induction false} RunKeepsInv<Row(!new)>(s: State<Row>, run: seq<Action<Row>>)
    requires Inv(s) && Legal(s, run)
    ensures Inv(After(s, run))
    decreases |run|
  {
    if run != [] {
      StepKeepsInv(s, run[0]);
      RunKeepsInv(Step(s, run[0]), run[1..]);
    }
  }

  /**
   * Nothing is lost uncounted and nothing changes places, however callers and the worker interleave: the
   * rows queued are, in call order, those already attempted, then the one in hand, then those waiting;
   * the other calls are the drops, reported, counted, or about to be counted; and at most 1024 rows wait.
   */
  lemma NothingIsLostUncounted<Row(!new)>(run: seq<Action<Row>>)
    requires Legal(Initial<Row>(), run)
    ensures var s := After(Initial<Row>(), run);
            && Kept(s.calls) == s.attempted + InHand(s.worker) + s.work
            && |s.calls| == |s.attempted| + |InHand(s.worker)| + |s.work| + s.uncounted + s.dropped + s.reported
            && |s.work| <= WORK_QUEUE_MAX_LENGTH
  {
    RunKeepsInv(Initial<Row>(), run);
  }

  /** A call is lost exactly when 1024 rows wait, and is then to be counted; otherwise its row is the last in
      line. It never waits for the worker: it can be made in every state. */
  lemma CallIsLostIffFull<Row>(s: State<Row>, row: Row)
    requires Inv(s)
    ensures Enabled(s, Send(row))
    ensures var t := Step(s, Send(row));
            if |s.work| == WORK_QUEUE_MAX_LENGTH then t.work == s.work && t.uncounted == s.uncounted + 1
            else t.work == s.work + [row] && t.uncounted == s.uncounted
    ensures Step(s, Send(row)).calls == s.calls + [Call(row, |s.work| != WORK_QUEUE_MAX_LENGTH)]
  {
  }

  /** A turn of the worker that nobody comes between: the oldest row is attempted, and every drop counted so
      far is reported. */
  lemma TurnOfTheWorker<Row(!new)>(s: State<Row>)
    requires s.worker.Waiting? && s.work != []
    ensures var run: seq<Action<Row>> := [Receive] + ([Write] + [Report]);
            && Legal(s, run)
            && After(s, run) == s.(work := s.work[1..], attempted := s.attempted + [s.work[0]],
                                   reported := s.reported + s.dropped, dropped := 0)
  {
    var run: seq<Action<Row>> := [Receive] + ([Write] + [Report]);
    var s1 := Step(s, Receive);
    var s2 := Step(s1, Write);
    var s3 := Step(s2, Report);
    assert run[1..] == [Write] + [Report] && run[1..][1..] == [Report] && run[1..][1..][1..] == [];
    assert Legal(s3, []) && Legal(s2, run[1..][1..]) && After(s2, run[1..][1..]) == s3;
    assert Legal(s1, run[1..]) && After(s1, run[1..]) == s3;
  }

  // ----- The queue's length and losses, from the numbers of calls alone -----

  function Min(a: nat, b: nat): nat {
    if a < b then a else b
  }

  /** Rows waiting after k rounds, each of some calls and then one row taken. */
  function LeftWaiting(start: nat, calls: nat -> nat, k: nat): nat {
    if k == 0 then start
    else
      var full := Min(LeftWaiting(start, calls, k - 1) + calls(k - 1), WORK_QUEUE_MAX_LENGTH);
      if full == 0 then 0 else full - 1
  }

  /** Calls that found the queue full in the first k rounds. */
  function Lost(start: nat, calls: nat -> nat, k: nat): nat {
    if k == 0 then 0
    else
      var wanted := LeftWaiting(start, calls, k - 1) + calls(k - 1);
      Lost(start, calls, k - 1) + (wanted - Min(wanted, WORK_QUEUE_MAX_LENGTH))
  }

  function Sizes<Row>(arrivals: nat -> seq<Row>): nat -> nat {
    (k: nat) => |arrivals(k)|
  }

  /** The logger: callers queue rows, one worker writes them. */
  class Logger<Row(!new)> {
    const enabled: bool
    var work: seq<Row>
    var dropped: nat
    var attempted: seq<Row>
    var reported: nat
    ghost var accepted: seq<Row>    // history: the rows that were queued
    ghost var refused: nat          // history: the calls that found the queue full

    /** Every queued row is attempted or waits, in order, and every refused one is counted or reported. */
    ghost predicate Valid()
      reads this
    {
      accepted == attempted + work && |work| <= WORK_QUEUE_MAX_LENGTH && refused == dropped + reported
    }

    constructor (enabled: bool)
      ensures Valid() && this.enabled == enabled && accepted == [] && refused == 0
    {
      this.enabled := enabled;
      work, dropped, attempted, reported, accepted, refused := [], 0, [], 0, [], 0;
    }

    /** It never waits: while there is room the row is the last in line, otherwise it is only counted. */
    method Log(row: Row)
      requires Valid()
      modifies this
      ensures Valid() && attempted == old(attempted) && reported == old(reported)
      ensures var room := enabled && old(|work|) < WORK_QUEUE_MAX_LENGTH;
              accepted == old(accepted) + if room then [row] else []
      ensures refused == old(refused) + if enabled && old(|work|) == WORK_QUEUE_MAX_LENGTH then 1 else 0
    {
      if enabled {
        if |work| < WORK_QUEUE_MAX_LENGTH {
          work := work + [row];
          accepted := accepted + [row];
        } else {
          dropped := dropped + 1;
          refused := refused + 1;
        }
      }
    }

    /** Calls one after another: as many of the first rows as there is room for are queued. */
    method LogAll(rows: seq<Row>)
      requires Valid() && enabled
      modifies this
      ensures Valid() && attempted == old(attempted) && reported == old(reported)
      ensures var kept := Min(|rows|, WORK_QUEUE_MAX_LENGTH - old(|work|));
              accepted == old(accepted) + rows[..kept] && refused == old(refused) + (|rows| - kept)
    {
      for k := 0 to |rows|
        invariant Valid() && attempted == old(attempted) && reported == old(reported)
        invariant var kept := Min(k, WORK_QUEUE_MAX_LENGTH - old(|work|));
                  accepted == old(accepted) + rows[..kept] && refused == old(refused) + (k - kept)
      {
        Log(rows[k]);
      }
    }

    /** One turn of the worker's loop: the oldest row is attempted, and the drops so far are reported. */
    method WriteNext()
      requires Valid() && work != []
      modifies this
      ensures Valid() && dropped == 0 && accepted == old(accepted) && refused == old(refused)
      ensures attempted == old(attempted) + [old(work[0])] && |work| == old(|work|) - 1
    {
      var row := work[0];
      work := work[1..];
      attempted := attempted + [row];
      if dropped > 0 {
        reported := reported + dropped;
        dropped := 0;
      }
    }

    /** The worker's loop for a number of rounds, where arrivals(k) are logged before its k-th look at the
        queue. The rows attempted are the oldest queued; how many wait and how many are lost follows from
        the numbers of calls; and no drop is left unreported longer than it takes to write one row. */
    method Work(arrivals: nat -> seq<Row>, rounds: nat)
      requires Valid() && enabled && dropped == 0
      modifies this
      ensures Valid() && dropped == 0
      ensures old(accepted) <= accepted && old(attempted) <= attempted <= accepted
      ensures |work| == LeftWaiting(old(|work|), Sizes(arrivals), rounds)
      ensures refused == old(refused) + Lost(old(|work|), Sizes(arrivals), rounds)
    {
      for k := 0 to rounds
        invariant Valid() && dropped == 0
        invariant old(accepted) <= accepted && old(attempted) <= attempted
        invariant |work| == LeftWaiting(old(|work|), Sizes(arrivals), k)
        invariant refused == old(refused) + Lost(old(|work|), Sizes(arrivals), k)
      {
        ghost var before := |work|;
        LogAll(arrivals(k));
        assert |work| == Min(before + Sizes(arrivals)(k), WORK_QUEUE_MAX_LENGTH);
        if work != [] {
          WriteNext();
        }
      }
    }
  }
}
