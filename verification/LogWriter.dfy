/** The batching writer of the time-series database (src/logging/InfluxDbWriter.cpp) with the threads that send its
    buffers (src/logging/InfluxDbSendThread.cpp). */
module LogWriter {
  import opened Common

  // ------------------------------------------------------------------------------- lines

  datatype FieldValue = Text(text: string) | Whole(number: nat) | Decimal(formatted: string) | Flag(on: bool)

  datatype Point = Point(tags: seq<(string, string)>, fields: seq<(string, FieldValue)>, timestamp: nat)

  function Digits(n: nat): (s: string)
    ensures s != []
  {
    if n < 10 then ["0123456789"[n]] else Digits(n / 10) + ["0123456789"[n % 10]]
  }

  function TagText(key: string, value: string): string {
    "," + key + "=" + value
  }

  function FieldText(key: string, value: FieldValue): string {
    key + "=" +
    match value
    case Text(text) => "\"" + text + "\""
    case Whole(number) => Digits(number) + "i"
    case Decimal(formatted) => formatted
    case Flag(on) => if on then "t" else "f"
  }

  function Tags(tags: seq<(string, string)>): string {
    if tags == [] then ""
    else Tags(tags[..|tags| - 1]) + TagText(tags[|tags| - 1].0, tags[|tags| - 1].1)
  }

  /** The fields, separated by commas. */
  function Fields(fields: seq<(string, FieldValue)>): string {
    if fields == [] then ""
    else if |fields| == 1 then FieldText(fields[0].0, fields[0].1)
    else Fields(fields[..|fields| - 1]) + "," + FieldText(fields[|fields| - 1].0, fields[|fields| - 1].1)
  }

  function Head(measurement: string, tags: seq<(string, string)>): string {
    measurement + Tags(tags) + " "
  }

  function End(timestamp: nat): (text: string)
    ensures text != "" && text[|text| - 1] == '\n'
  {
    " " + Digits(timestamp) + "\n"
  }

  /** The line protocol of the database: measurement and tags, fields, and time, separated by blanks. */
  function Line(measurement: string, p: Point): (line: string)
    ensures line != "" && line[|line| - 1] == '\n'
  {
    Head(measurement, p.tags) + Fields(p.fields) + End(p.timestamp)
  }

  function LineOf(measurement: string): Point -> string {
    p => Line(measurement, p)
  }

  /** The lines of points, one after the other. */
  function Lines(measurement: string, ps: seq<Point>): string {
    FlatMap(LineOf(measurement), ps)
  }

  /** What adding fields one after the other appends: a comma after each. */
  function AddedFields(fields: seq<(string, FieldValue)>): string {
    if fields == [] then ""
    else AddedFields(fields[..|fields| - 1]) + FieldText(fields[|fields| - 1].0, fields[|fields| - 1].1) + ","
  }

  lemma {:induction false} AddedFieldsAreJoined(fields: seq<(string, FieldValue)>)
    requires fields != []
    ensures AddedFields(fields) == Fields(fields) + ","
  {
    if |fields| > 1 {
      AddedFieldsAreJoined(fields[..|fields| - 1]);
    } else {
      assert fields[..0] == [];
    }
  }

  lemma SmallLists(tags: seq<(string, string)>, fields: seq<(string, FieldValue)>)
    ensures |tags| == 1 ==> Tags(tags) == TagText(tags[0].0, tags[0].1)
    ensures |tags| == 2 ==> Tags(tags) == TagText(tags[0].0, tags[0].1) + TagText(tags[1].0, tags[1].1)
    ensures |fields| == 1 ==> AddedFields(fields) == FieldText(fields[0].0, fields[0].1) + ","
  {
    if |tags| == 2 {
      SmallLists(tags[..1], fields);
    }
  }

  /** The text with a final comma dropped. */
  function Trimmed(text: string): string {
    if text != "" && text[|text| - 1] == ',' then text[..|text| - 1] else text
  }

  lemma TrimComma(text: string)
    ensures Trimmed(text + ",") == text
  {
  }

  /** What a point has appended before it is ended becomes the line of the point when it is: for every list of tags and
      every list of fields. */
  lemma EndedPointIsLine(before: string, measurement: string, p: Point)
    ensures Trimmed(before + Head(measurement, p.tags) + AddedFields(p.fields)) + End(p.timestamp) ==
            before + Line(measurement, p)
  {
    var head := Head(measurement, p.tags);
    if p.fields == [] {
      assert before + head + AddedFields(p.fields) == before + head;
      assert Fields(p.fields) == "";
    } else {
      AddedFieldsAreJoined(p.fields);
      Associative(before + head, Fields(p.fields), ",");
      TrimComma(before + head + Fields(p.fields));
    }
    Regroup(before, head, Fields(p.fields), End(p.timestamp));
  }

  lemma Regroup(a: string, b: string, c: string, d: string)
    ensures a + b + c + d == a + (b + c + d)
  {
  }

  lemma MessageAdded(before: string, measurement: string, source: string, severity: string, msg: string, timestamp: nat)
    ensures var added := before + measurement + TagText("source", source) + TagText("severity", severity) + " "
                         + FieldText("msg", Text(msg)) + ",";
            Trimmed(added) + End(timestamp)
              == before + Line(measurement, MessagePoint(source, severity, msg, timestamp))
  {
    var p := MessagePoint(source, severity, msg, timestamp);
    SmallLists(p.tags, p.fields);
    Associative(before + measurement, TagText("source", source), TagText("severity", severity));
    Gather(before, measurement, Tags(p.tags), " ", FieldText("msg", Text(msg)), ",");
    EndedPointIsLine(before, measurement, p);
  }

  lemma ValueAdded(before: string, measurement: string, key: string, value: FieldValue, timestamp: nat)
    ensures var added := before + measurement + TagText("key", key) + " " + FieldText("value", value) + ",";
            Trimmed(added) + End(timestamp) == before + Line(measurement, ValuePoint(key, value, timestamp))
  {
    var p := ValuePoint(key, value, timestamp);
    SmallLists(p.tags, p.fields);
    Gather(before, measurement, TagText("key", key), " ", FieldText("value", value), ",");
    EndedPointIsLine(before, measurement, p);
  }

  lemma Gather(a: string, b: string, c: string, d: string, e: string, f: string)
    ensures a + b + c + d + e + f == a + (b + c + d) + (e + f)
  {
    Regroup(a, b, c, d);
    Associative(a + (b + c + d), e, f);
  }

  // ----------------------------------------------------------------------- the buffering

  datatype Writer = Writer(current: string, pool: seq<string>, queue: seq<string>)

  /** The current buffer, if it holds anything, is queued and replaced by one from the pool. */
  function Flushed(w: Writer): Writer {
    if w.current == "" then w
    else if w.pool == [] then Writer("", [], w.queue + [w.current])
    else Writer(w.pool[|w.pool| - 1], w.pool[..|w.pool| - 1], w.queue + [w.current])
  }

  function Logged(w: Writer, line: string, limit: nat): Writer {
    var filled := w.(current := w.current + line);
    if |filled.current| >= limit then Flushed(filled) else filled
  }

  predicate Clean(pool: seq<string>) {
    forall i | 0 <= i < |pool| :: pool[i] == ""
  }

  class InfluxDbWriter {
    const measurement: string
    const bufferSizeMax: nat
    var currentBuffer: string
    var availableBuffers: seq<string>
    var queue: seq<string>

    constructor (measurement: string, bufferSizeMax: nat)
      ensures this.measurement == measurement && this.bufferSizeMax == bufferSizeMax
      ensures State() == Initial()
    {
      this.measurement, this.bufferSizeMax := measurement, bufferSizeMax;
      currentBuffer, queue, availableBuffers := "", [], seq(10, _ => "");
    }

    function State(): Writer
      reads this
    {
      Writer(currentBuffer, availableBuffers, queue)
    }

    method StartDataPoint()
      modifies this`currentBuffer
      ensures currentBuffer == old(currentBuffer) + measurement
    {
      currentBuffer := currentBuffer + measurement;
    }

    method AddTag(key: string, value: string)
      modifies this`currentBuffer
      ensures currentBuffer == old(currentBuffer) + TagText(key, value)
    {
      currentBuffer := currentBuffer + "," + key + "=" + value;
    }

    method TagsDone()
      modifies this`currentBuffer
      ensures currentBuffer == old(currentBuffer) + " "
    {
      currentBuffer := currentBuffer + " ";
    }

    method AddField(key: string, value: FieldValue)
      modifies this`currentBuffer
      ensures currentBuffer == old(currentBuffer) + FieldText(key, value) + ","
    {
      currentBuffer := currentBuffer + FieldText(key, value) + ",";
    }

    /** Drops the comma after the last field, ends the line, and flushes a buffer that has become too long. */
    method EndDataPoint(timestamp: nat)
      modifies this
      ensures State() == Logged(old(State()).(current := Trimmed(old(currentBuffer))), End(timestamp), bufferSizeMax)
    {
      if currentBuffer != "" && currentBuffer[|currentBuffer| - 1] == ',' {
        currentBuffer := currentBuffer[..|currentBuffer| - 1];
      }
      currentBuffer := currentBuffer + End(timestamp);
      if |currentBuffer| >= bufferSizeMax {
        Flush();
      }
    }

    method Flush()
      modifies this
      ensures State() == Flushed(old(State()))
    {
      if currentBuffer == "" {
        return;
      }
      var bufToSend := currentBuffer;
      if availableBuffers != [] {
        currentBuffer := availableBuffers[|availableBuffers| - 1];
        availableBuffers := availableBuffers[..|availableBuffers| - 1];
      } else {
        currentBuffer := "";
      }
      queue := queue + [bufToSend];
    }

    /** A buffer that has been sent comes back; it is emptied for the pool. */
    method ReturnBuffer(buffer: string)
      modifies this`availableBuffers
      ensures availableBuffers == old(availableBuffers) + [""]
    {
      availableBuffers := availableBuffers + [""];
    }

    /** A log message: two tags and a field. */
    method LogMessage(source: string, severity: string, msg: string, timestamp: nat)
      modifies this
      ensures State() == Logged(old(State()), Line(measurement, MessagePoint(source, severity, msg, timestamp)),
          bufferSizeMax)
    {
      StartDataPoint();
      AddTag("source", source);
      AddTag("severity", severity);
      TagsDone();
      AddField("msg", Text(msg));
      MessageAdded(old(currentBuffer), measurement, source, severity, msg, timestamp);
      EndDataPoint(timestamp);
    }

    /** A value: one tag and a field. */
    method LogValue(key: string, value: FieldValue, timestamp: nat)
      modifies this
      ensures State() == Logged(old(State()), Line(measurement, ValuePoint(key, value, timestamp)), bufferSizeMax)
    {
      StartDataPoint();
      AddTag("key", key);
      TagsDone();
      AddField("value", value);
      ValueAdded(old(currentBuffer), measurement, key, value, timestamp);
      EndDataPoint(timestamp);
    }
  }

  function Initial(): Writer {
    Writer("", seq(10, _ => ""), [])
  }

  function MessagePoint(source: string, severity: string, msg: string, timestamp: nat): Point {
    Point([("source", source), ("severity", severity)], [("msg", Text(msg))], timestamp)
  }

  function ValuePoint(key: string, value: FieldValue, timestamp: nat): Point {
    Point([("key", key)], [("value", value)], timestamp)
  }
}
