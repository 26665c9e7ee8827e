/** Runs of the log writer: data points, flushes and sender threads in any order (src/logging/InfluxDbWriter.cpp,
    src/logging/InfluxDbSendThread.cpp). Nothing that was logged is lost, repeated, torn or reordered on its way into
    the queue, and each queued buffer is sent once. */
module LogConservation {
  import opened Common
  import opened LogWriter

  /** What a sender thread is doing. */
  datatype Hand<T> = Idle | Dequeued(buffer: T) | Sent(buffer: T)

  /** The writer and its senders, with the histories of what was queued and what was sent. */
  datatype System = System(writer: Writer, hands: seq<Hand<string>>, enqueued: seq<string>, sent: seq<string>)

  datatype Step = Log(point: Point) | Flush | Dequeue(sender: nat, index: nat) | Send(sender: nat) | Return(sender: nat)

  /** How points are written; no point is written as nothing. */
  type PointText = text: Point -> string | forall p :: text(p) != "" witness (p => "\n")

  /** The settings of a writer: the text of a point, the length at which a buffer is flushed, the number of senders. */
  datatype Config = Config(text: PointText, limit: nat, senders: nat)

  /** The settings of a writer of lines for a measurement. */
  function LineConfig(measurement: string, limit: nat, senders: nat): Config {
    Config(LineOf(measurement), limit, senders)
  }

  function Start(config: Config): System {
    System(Initial(), seq(config.senders, _ => Idle), [], [])
  }

  /** The writer has changed; what it put into the queue is recorded. */
  function Enqueue(sys: System, after: Writer): System {
    if |after.queue| > |sys.writer.queue|
    then sys.(writer := after, enqueued := sys.enqueued + after.queue[|sys.writer.queue|..])
    else sys.(writer := after)
  }

  /** One step; a step that is not possible changes nothing. A sender may get any of the queued buffers. */
  function Do(config: Config, sys: System, step: Step): System {
    var w := sys.writer;
    match step
    case Log(point) => Enqueue(sys, Logged(w, config.text(point), config.limit))
    case Flush => Enqueue(sys, Flushed(w))
    case Dequeue(s, i) =>
      if s < |sys.hands| && sys.hands[s].Idle? && i < |w.queue|
      then sys.(hands := sys.hands[s := Dequeued(w.queue[i])], writer := w.(queue := w.queue[..i] + w.queue[i + 1..]))
      else sys
    case Send(s) =>
      if s < |sys.hands| && sys.hands[s].Dequeued?
      then sys.(hands := sys.hands[s := Sent(sys.hands[s].buffer)], sent := sys.sent + [sys.hands[s].buffer])
      else sys
    case Return(s) =>
      if s < |sys.hands| && sys.hands[s].Sent?
      then sys.(hands := sys.hands[s := Idle], writer := w.(pool := w.pool + [""]))
      else sys
  }

  function Run(config: Config, steps: seq<Step>, k: nat): System
    requires k <= |steps|
  {
    if k == 0 then Start(config) else Do(config, Run(config, steps, k - 1), steps[k - 1])
  }

  /** The points logged by the first k steps. */
  function Points(steps: seq<Step>, k: nat): seq<Point>
    requires k <= |steps|
  {
    if k == 0 then []
    else Points(steps, k - 1) + match steps[k - 1] case Log(point) => [point] case _ => []
  }

  // --------------------------------------------------------------------------- batching

  /** The simple view: finished batches of points and the batch being filled. */
  datatype Batches = Batches(closed: seq<seq<Point>>, open: seq<Point>)

  function Close(b: Batches): Batches {
    if b.open == [] then b else Batches(b.closed + [b.open], [])
  }

  function Add(config: Config, b: Batches, point: Point): Batches {
    var open := b.open + [point];
    if |FlatMap(config.text, open)| >= config.limit then Close(Batches(b.closed, open))
    else Batches(b.closed, open)
  }

  function BatchStep(config: Config, b: Batches, step: Step): Batches {
    match step
    case Log(point) => Add(config, b, point)
    case Flush => Close(b)
    case _ => b
  }

  function RunBatches(config: Config, steps: seq<Step>, k: nat): Batches
    requires k <= |steps|
  {
    if k == 0 then Batches([], []) else BatchStep(config, RunBatches(config, steps, k - 1), steps[k - 1])
  }

  lemma LinesAppend(text: PointText, ps: seq<Point>, p: Point)
    ensures FlatMap(text, ps + [p]) == FlatMap(text, ps) + text(p)
  {
    assert (ps + [p])[..|ps|] == ps;
  }

  lemma NoLinesIff(text: PointText, ps: seq<Point>)
    ensures FlatMap(text, ps) == "" <==> ps == []
  {
  }

  /** The texts of batches of points. */
  function Texts(text: PointText, batches: seq<seq<Point>>): seq<string> {
    FlatMapEach(text, batches)
  }

  /** The writer holds the text of the open batch and has queued the texts of the closed ones. Its pool is clean. */
  predicate Refines(config: Config, sys: System, b: Batches) {
    && Clean(sys.writer.pool)
    && sys.writer.current == FlatMap(config.text, b.open)
    && sys.enqueued == Texts(config.text, b.closed)
  }

  lemma FlushRefines(config: Config, sys: System, b: Batches)
    requires Refines(config, sys, b)
    ensures Refines(config, Enqueue(sys, Flushed(sys.writer)), Close(b))
  {
    NoLinesIff(config.text, b.open);
    FlatMapEachAppend(config.text, b.closed, b.open);
    var w := sys.writer;
    assert (w.queue + [w.current])[|w.queue|..] == [w.current];
  }

  lemma LogRefines(config: Config, sys: System, b: Batches, point: Point)
    requires Refines(config, sys, b)
    ensures Refines(config, Enqueue(sys, Logged(sys.writer, config.text(point), config.limit)),
                    Add(config, b, point))
  {
    LinesAppend(config.text, b.open, point);
    var line := config.text(point);
    var filled := sys.(writer := sys.writer.(current := sys.writer.current + line));
    FlushRefines(config, filled, Batches(b.closed, b.open + [point]));
  }

  /** The threads that send touch neither the current buffer nor what was queued, and give back empty buffers. */
  lemma SenderRefines(config: Config, sys: System, b: Batches, step: Step)
    requires Refines(config, sys, b) && !step.Log? && !step.Flush?
    ensures Refines(config, Do(config, sys, step), b)
  {
  }

  lemma StepRefines(config: Config, sys: System, b: Batches, step: Step)
    requires Refines(config, sys, b)
    ensures Refines(config, Do(config, sys, step), BatchStep(config, b, step))
  {
    match step
    case Log(point) => LogRefines(config, sys, b, point);
    case Flush => FlushRefines(config, sys, b);
    case _ => SenderRefines(config, sys, b, step);
  }

  /** At every moment of every run the queue has been fed the texts of the closed batches in order, and the current
      buffer holds the text of the open one. */
  lemma {:induction false} WriterRefinesBatches(config: Config, steps: seq<Step>, k: nat)
    requires k <= |steps|
    ensures Refines(config, Run(config, steps, k), RunBatches(config, steps, k))
  {
    if k > 0 {
      WriterRefinesBatches(config, steps, k - 1);
      var sys, b, step := Run(config, steps, k - 1), RunBatches(config, steps, k - 1), steps[k - 1];
      StepRefines(config, sys, b, step);
      assert Run(config, steps, k) == Do(config, sys, step);
      assert RunBatches(config, steps, k) == BatchStep(config, b, step);
    }
  }

  /** What the simple view keeps: no closed batch is empty; without its last point a closed batch is below the limit,
      and so is the open batch. */
  ghost predicate Bounded(config: Config, b: Batches) {
    && (forall i | 0 <= i < |b.closed| ::
          && b.closed[i] != []
          && (|b.closed[i]| > 1 ==> |FlatMap(config.text, b.closed[i][..|b.closed[i]| - 1])| < config.limit))
    && (b.open != [] ==> |FlatMap(config.text, b.open)| < config.limit)
  }

  lemma AddBounded(config: Config, b: Batches, point: Point)
    requires Bounded(config, b)
    ensures Bounded(config, Add(config, b, point))
  {
    assert (b.open + [point])[..|b.open|] == b.open;
  }

  lemma CloseBounded(config: Config, b: Batches)
    requires Bounded(config, b)
    ensures Bounded(config, Close(b))
  {
    if b.open != [] {
      LinesGrow(config.text, b.open);
    }
  }

  lemma LinesGrow(text: PointText, ps: seq<Point>)
    requires ps != []
    ensures |FlatMap(text, ps[..|ps| - 1])| < |FlatMap(text, ps)|
  {
  }

  lemma {:induction false} BatchesBounded(config: Config, steps: seq<Step>, k: nat)
    requires k <= |steps|
    ensures Bounded(config, RunBatches(config, steps, k))
  {
    if k > 0 {
      BatchesBounded(config, steps, k - 1);
      var b := RunBatches(config, steps, k - 1);
      match steps[k - 1]
      case Log(point) => AddBounded(config, b, point);
      case Flush => CloseBounded(config, b);
      case _ =>
    }
  }

  /** The batches are the points in the order they were logged. */
  lemma {:induction false} BatchesArePoints(config: Config, steps: seq<Step>, k: nat)
    requires k <= |steps|
    ensures var b := RunBatches(config, steps, k);
            Flatten(b.closed) + b.open == Points(steps, k)
  {
    if k > 0 {
      BatchesArePoints(config, steps, k - 1);
      var b := RunBatches(config, steps, k - 1);
      match steps[k - 1]
      case Log(point) =>
        FlattenAppend(b.closed, b.open + [point]);
        Associative(Flatten(b.closed), b.open, [point]);
      case Flush =>
        FlattenAppend(b.closed, b.open);
      case _ =>
    }
  }

  /** The queued buffers, put together in order and followed by the current one, are the lines of all points logged so
      far. */
  lemma LogIsConserved(config: Config, steps: seq<Step>, k: nat)
    requires k <= |steps|
    ensures var sys := Run(config, steps, k);
            Flatten(sys.enqueued) + sys.writer.current == FlatMap(config.text, Points(steps, k))
  {
    var b := RunBatches(config, steps, k);
    WriterRefinesBatches(config, steps, k);
    FlattenOfEach(config.text, b.closed);
    FlatMapAppend(config.text, Flatten(b.closed), b.open);
    BatchesArePoints(config, steps, k);
  }

  /** Every queued buffer consists of whole lines, at least one, and is shorter than the limit without its last line;
      buffers in the pool are empty; the current buffer is below the limit or empty. */
  lemma BuffersAreWholeLines(config: Config, steps: seq<Step>, k: nat)
    requires k <= |steps|
    ensures var sys, b := Run(config, steps, k), RunBatches(config, steps, k);
            && |sys.enqueued| == |b.closed| && Bounded(config, b) && Clean(sys.writer.pool)
            && (forall i | 0 <= i < |b.closed| ::
                  sys.enqueued[i] == FlatMap(config.text, b.closed[i]) && sys.enqueued[i] != "")
            && (sys.writer.current == "" || |sys.writer.current| < config.limit)
  {
    var sys, b := Run(config, steps, k), RunBatches(config, steps, k);
    WriterRefinesBatches(config, steps, k);
    BatchesBounded(config, steps, k);
    forall i | 0 <= i < |b.closed|
      ensures |sys.enqueued| == |b.closed|
      ensures sys.enqueued[i] == FlatMap(config.text, b.closed[i]) && sys.enqueued[i] != ""
    {
      FlatMapEachAt(config.text, b.closed, i);
      NoLinesIff(config.text, b.closed[i]);
    }
  }

  // ---------------------------------------------------------------------------- sending

  /** How often x is among the buffers that senders have taken and not yet sent. */
  function Held<T(==)>(x: T, hands: seq<Hand<T>>): nat {
    if hands == [] then 0 else Held(x, hands[..|hands| - 1]) + HeldBy(x, hands[|hands| - 1])
  }

  function HeldBy<T(==)>(x: T, hand: Hand<T>): nat {
    if hand.Dequeued? && hand.buffer == x then 1 else 0
  }

  /** Changing one hand changes what is held by just that. */
  lemma {:induction false} HeldUpdate<T>(x: T, hands: seq<Hand<T>>, s: nat, hand: Hand<T>)
    requires s < |hands|
    ensures Held(x, hands[s := hand]) + HeldBy(x, hands[s]) == Held(x, hands) + HeldBy(x, hand)
  {
    var last := |hands| - 1;
    if s < last {
      HeldUpdate(x, hands[..last], s, hand);
      assert hands[s := hand][..last] == hands[..last][s := hand];
    } else {
      assert hands[s := hand][..last] == hands[..last];
    }
  }

  lemma {:induction false} NothingHeld<T>(x: T, hands: seq<Hand<T>>)
    requires forall s | 0 <= s < |hands| :: !hands[s].Dequeued?
    ensures Held(x, hands) == 0
  {
    if hands != [] {
      NothingHeld(x, hands[..|hands| - 1]);
    }
  }

  /** Buffer x is in the queue, in hands and among the sent ones as often as it was queued. */
  predicate Accounted(sys: System, x: string) {
    Occurrences(x, sys.enqueued) == Occurrences(x, sys.writer.queue) + Held(x, sys.hands) + Occurrences(x, sys.sent)
  }

  lemma FlushAccounted(sys: System, x: string)
    requires Accounted(sys, x)
    ensures Accounted(Enqueue(sys, Flushed(sys.writer)), x)
  {
    var w := sys.writer;
    assert (w.queue + [w.current])[|w.queue|..] == [w.current];
    OccurrencesAppend(x, w.queue, w.current);
    OccurrencesAppend(x, sys.enqueued, w.current);
  }

  lemma LogAccounted(sys: System, line: string, limit: nat, x: string)
    requires Accounted(sys, x)
    ensures Accounted(Enqueue(sys, Logged(sys.writer, line, limit)), x)
  {
    FlushAccounted(sys.(writer := sys.writer.(current := sys.writer.current + line)), x);
  }

  lemma SenderAccounted(config: Config, sys: System, step: Step, x: string)
    requires Accounted(sys, x) && !step.Log? && !step.Flush? && step.sender < |sys.hands|
    ensures Accounted(Do(config, sys, step), x)
  {
    var hand := sys.hands[step.sender];
    match step
    case Dequeue(s, i) =>
      if hand.Idle? && i < |sys.writer.queue| {
        HeldUpdate(x, sys.hands, s, Dequeued(sys.writer.queue[i]));
        OccurrencesRemove(x, sys.writer.queue, i);
      }
    case Send(s) =>
      if hand.Dequeued? {
        HeldUpdate(x, sys.hands, s, Sent(hand.buffer));
        OccurrencesAppend(x, sys.sent, hand.buffer);
      }
    case Return(s) =>
      if hand.Sent? {
        HeldUpdate(x, sys.hands, s, Idle);
      }
  }

  lemma StepAccounted(config: Config, sys: System, step: Step, x: string)
    requires Accounted(sys, x)
    ensures Accounted(Do(config, sys, step), x)
  {
    match step
    case Log(point) => LogAccounted(sys, config.text(point), config.limit, x);
    case Flush => FlushAccounted(sys, x);
    case _ =>
      if step.sender < |sys.hands| {
        SenderAccounted(config, sys, step, x);
      }
  }

  /** At every moment of every run each buffer ever queued is still in the queue, in the hands of a sender, or sent:
      none is lost and none is sent twice. */
  lemma {:induction false} EveryBufferIsAccountedFor(config: Config, steps: seq<Step>, k: nat, x: string)
    requires k <= |steps|
    ensures Accounted(Run(config, steps, k), x)
  {
    if k == 0 {
      NothingHeld(x, Start(config).hands);
    } else {
      EveryBufferIsAccountedFor(config, steps, k - 1, x);
      StepAccounted(config, Run(config, steps, k - 1), steps[k - 1], x);
    }
  }

  /** Once the current buffer is flushed, the queue is empty and no sender holds a buffer, exactly the lines of all
      points have been sent, each buffer as often as it was queued. */
  lemma DrainedMeansAllSent(config: Config, steps: seq<Step>, x: string)
    requires var sys := Run(config, steps, |steps|);
             && sys.writer.current == "" && sys.writer.queue == []
             && forall s | 0 <= s < |sys.hands| :: !sys.hands[s].Dequeued?
    ensures var sys := Run(config, steps, |steps|);
            && Occurrences(x, sys.sent) == Occurrences(x, sys.enqueued)
            && Flatten(sys.enqueued) == FlatMap(config.text, Points(steps, |steps|))
  {
    LogIsConserved(config, steps, |steps|);
    EveryBufferIsAccountedFor(config, steps, |steps|, x);
    NothingHeld(x, Run(config, steps, |steps|).hands);
  }
}
