/** Reading back what the log writer wrote: a reader of its lines, and the points it finds in the text of a log. */
module LineReader {
  import opened Common
  import opened LogWriter
  import opened LogConservation

  // ----------------------------------------------------------------------------- numbers

  predicate IsDigit(c: char) {
    '0' <= c <= '9'
  }

  function DigitValue(c: char): nat
    requires IsDigit(c)
  {
    c as int - '0' as int
  }

  predicate AllDigits(text: string) {
    forall i | 0 <= i < |text| :: IsDigit(text[i])
  }

  /** The number a text of decimal digits stands for, from the left. */
  function Number(text: string): nat
    requires AllDigits(text)
  {
    if text == "" then 0 else 10 * Number(text[..|text| - 1]) + DigitValue(text[|text| - 1])
  }

  /** A number written down is read as that number, and is written without leading zeros. */
  lemma {:induction false} DigitsAreRead(n: nat)
    ensures AllDigits(Digits(n)) && Number(Digits(n)) == n
    ensures |Digits(n)| > 1 ==> Digits(n)[0] != '0'
  {
    var last := "0123456789"[n % 10];
    assert IsDigit(last) && DigitValue(last) == n % 10;
    if n < 10 {
      assert Digits(n) == [last] && [last][..0] == "";
    } else {
      DigitsAreRead(n / 10);
      assert Digits(n)[..|Digits(n)| - 1] == Digits(n / 10);
      SomeDigitNotZero(n / 10);
    }
  }

  lemma SomeDigitNotZero(n: nat)
    requires n > 0
    ensures |Digits(n)| == 1 ==> Digits(n)[0] != '0'
  {
    if n >= 10 {
      assert Digits(n / 10) != [];
    }
  }

  // ------------------------------------------------------------------------------- words

  /** The longest part at the front without one of these characters. */
  function Word(text: string, stops: string): (word: string)
    ensures |word| <= |text|
  {
    if text == "" || text[0] in stops then "" else [text[0]] + Word(text[1..], stops)
  }

  predicate Without(text: string, stops: string) {
    forall c | c in text :: c !in stops
  }

  /** Nothing follows, or one of the stops. */
  predicate Stopped(rest: string, stops: string) {
    rest == "" || rest[0] in stops
  }

  lemma {:induction false} WordIsRead(word: string, rest: string, stops: string)
    requires Without(word, stops) && Stopped(rest, stops)
    ensures Word(word + rest, stops) == word
  {
    if word == "" {
      assert word + rest == rest;
    } else {
      assert (word + rest)[1..] == word[1..] + rest;
      WordIsRead(word[1..], rest, stops);
    }
  }

  /** What is left after so many characters. */
  function After(text: string, n: nat): (rest: string)
    ensures |rest| <= |text| && (n > 0 && text != "" ==> |rest| < |text|)
  {
    if n <= |text| then text[n..] else ""
  }

  // ------------------------------------------------------------------------------- lines

  /** Tags: a comma, a key, an equals sign and a value, as often as a comma follows. */
  function ReadTags(text: string): (r: (seq<(string, string)>, string))
    ensures |r.1| <= |text|
    decreases |text|
  {
    if text == "" || text[0] != ',' then ([], text)
    else
      var key := Word(text[1..], "=");
      var value := Word(After(text, |key| + 2), ", ");
      var more := ReadTags(After(text, |key| + 2 + |value|));
      ([(key, value)] + more.0, more.1)
  }

  /** A value that is no quoted text. */
  function ReadToken(token: string): FieldValue {
    if token == "t" then Flag(true)
    else if token == "f" then Flag(false)
    else if token != "" && token[|token| - 1] == 'i' && AllDigits(token[..|token| - 1]) then
      Whole(Number(token[..|token| - 1]))
    else Decimal(token)
  }

  /** A value up to the comma or blank after it: text in quotes, or a token. */
  function ReadValue(text: string): (r: (FieldValue, string))
    ensures |r.1| <= |text|
  {
    if text != "" && text[0] == '"' then
      var quoted := Word(text[1..], "\"");
      (Text(quoted), After(text, |quoted| + 2))
    else
      var token := Word(text, ", ");
      (ReadToken(token), After(text, |token|))
  }

  /** A field: a key, an equals sign and a value. */
  function ReadField(text: string): (r: ((string, FieldValue), string))
    ensures |r.1| <= |text| && (text != "" ==> |r.1| < |text|)
  {
    var key := Word(text, "=");
    var value := ReadValue(After(text, |key| + 1));
    ((key, value.0), value.1)
  }

  /** Fields, separated by commas; none if a blank comes first. */
  function ReadFields(text: string): (r: (seq<(string, FieldValue)>, string))
    ensures |r.1| <= |text|
    decreases |text|
  {
    if text == "" || text[0] == ' ' then ([], text)
    else
      var first := ReadField(text);
      if first.1 != "" && first.1[0] == ',' then
        var more := ReadFields(first.1[1..]);
        ([first.0] + more.0, more.1)
      else ([first.0], first.1)
  }

  datatype Reading = Reading(measurement: string, point: Point, rest: string)

  /** One line: the measurement and its tags, a blank, the fields, a blank, the time and the end of the line. */
  function ReadLine(text: string): Reading {
    var measurement := Word(text, ", ");
    var tags := ReadTags(After(text, |measurement|));
    var fields := ReadFields(After(tags.1, 1));
    var time := Word(After(fields.1, 1), "\n");
    Reading(measurement, Point(tags.0, fields.0, if AllDigits(time) then Number(time) else 0),
            After(fields.1, |time| + 2))
  }

  // --------------------------------------------------------------- texts without separators

  predicate Plain(text: string) {
    Without(text, ", =\"\n")
  }

  predicate PlainTag(tag: (string, string)) {
    Plain(tag.0) && Plain(tag.1)
  }

  /** Keys are plain, texts hold no quotes, and decimals are plain and end with a digit. */
  predicate PlainField(field: (string, FieldValue)) {
    && Plain(field.0)
    && match field.1
       case Text(text) => '"' !in text
       case Decimal(formatted) => Plain(formatted) && formatted != "" && IsDigit(formatted[|formatted| - 1])
       case _ => true
  }

  predicate PlainPoint(p: Point) {
    (forall tag | tag in p.tags :: PlainTag(tag)) && forall field | field in p.fields :: PlainField(field)
  }

  lemma PlainIsWithout(text: string, stops: string)
    requires Plain(text) && forall c | c in stops :: c in ", =\"\n"
    ensures Without(text, stops)
  {
  }

  // ---------------------------------------------------------------------- what is read back

  lemma {:induction false} TagsFromFront(tag: (string, string), tags: seq<(string, string)>)
    ensures Tags([tag] + tags) == TagText(tag.0, tag.1) + Tags(tags)
  {
    if tags == [] {
      assert [tag] + tags == [tag] && [tag][..0] == [];
    } else {
      var init, last := tags[..|tags| - 1], tags[|tags| - 1];
      TagsFromFront(tag, init);
      TagsAppend([tag] + init, last);
      TagsAppend(init, last);
      assert [tag] + tags == [tag] + init + [last] && tags == init + [last];
      Associative(TagText(tag.0, tag.1), Tags(init), TagText(last.0, last.1));
    }
  }

  lemma TagsAppend(tags: seq<(string, string)>, tag: (string, string))
    ensures Tags(tags + [tag]) == Tags(tags) + TagText(tag.0, tag.1)
  {
    assert (tags + [tag])[..|tags|] == tags;
  }

  lemma TagIsRead(tag: (string, string), rest: string)
    requires PlainTag(tag) && Stopped(rest, ", ")
    ensures var text := TagText(tag.0, tag.1) + rest;
            && text[0] == ','
            && Word(text[1..], "=") == tag.0 && Word(After(text, |tag.0| + 2), ", ") == tag.1
            && After(text, |tag.0| + 2 + |tag.1|) == rest
  {
    var text := TagText(tag.0, tag.1) + rest;
    PlainIsWithout(tag.0, "=");
    PlainIsWithout(tag.1, ", ");
    assert text[1..] == tag.0 + ("=" + tag.1 + rest);
    WordIsRead(tag.0, "=" + tag.1 + rest, "=");
    assert text[|tag.0| + 2..] == tag.1 + rest;
    WordIsRead(tag.1, rest, ", ");
  }

  lemma NextTagIsRead(tag: (string, string), rest: string)
    requires PlainTag(tag) && Stopped(rest, ", ")
    ensures var others := ReadTags(rest);
            ReadTags(TagText(tag.0, tag.1) + rest) == ([tag] + others.0, others.1)
  {
    TagIsRead(tag, rest);
  }

  lemma {:induction false} TagsAreRead(tags: seq<(string, string)>, rest: string)
    requires (forall tag | tag in tags :: PlainTag(tag)) && rest != "" && rest[0] == ' '
    ensures ReadTags(Tags(tags) + rest) == (tags, rest)
    decreases |tags|
  {
    if tags == [] {
      assert Tags(tags) + rest == rest;
    } else {
      var first, others := tags[0], tags[1..];
      assert tags == [first] + others && first in tags;
      TagsFromFront(first, others);
      TagsStop(others, rest);
      NextTagIsRead(first, Tags(others) + rest);
      TagsAreRead(others, rest);
      Associative(TagText(first.0, first.1), Tags(others), rest);
    }
  }

  lemma TagsStop(tags: seq<(string, string)>, rest: string)
    requires rest != "" && rest[0] == ' '
    ensures Stopped(Tags(tags) + rest, ", ")
  {
    if tags != [] {
      assert tags == [tags[0]] + tags[1..];
      TagsFromFront(tags[0], tags[1..]);
    } else {
      assert Tags(tags) + rest == rest;
    }
  }

  /** The text of a value, as it stands behind the equals sign. */
  function ValueText(value: FieldValue): string {
    match value
    case Text(text) => "\"" + text + "\""
    case Whole(number) => Digits(number) + "i"
    case Decimal(formatted) => formatted
    case Flag(on) => if on then "t" else "f"
  }

  lemma FieldParts(key: string, value: FieldValue)
    ensures FieldText(key, value) == key + ("=" + ValueText(value))
  {
  }

  lemma TokenIsRead(token: string, rest: string)
    requires token != "" && token[0] != '"' && Without(token, ", ") && Stopped(rest, ", ")
    ensures ReadValue(token + rest) == (ReadToken(token), rest)
  {
    WordIsRead(token, rest, ", ");
  }

  lemma TextIsRead(content: string, rest: string)
    requires '"' !in content
    ensures ReadValue("\"" + content + "\"" + rest) == (Text(content), rest)
  {
    var text := "\"" + content + "\"" + rest;
    assert text[1..] == content + ("\"" + rest);
    WordIsRead(content, "\"" + rest, "\"");
    assert text[|content| + 2..] == rest;
  }

  lemma WholeIsRead(number: nat, rest: string)
    requires Stopped(rest, ", ")
    ensures ReadValue(Digits(number) + "i" + rest) == (Whole(number), rest)
  {
    var token := Digits(number) + "i";
    DigitsAreRead(number);
    assert token[..|token| - 1] == Digits(number) && token[|token| - 1] == 'i' && IsDigit(token[0]);
    TokenIsRead(token, rest);
  }

  lemma DecimalIsRead(formatted: string, rest: string)
    requires PlainField(("", Decimal(formatted))) && Stopped(rest, ", ")
    ensures ReadValue(formatted + rest) == (Decimal(formatted), rest)
  {
    PlainIsWithout(formatted, ", ");
    assert formatted[0] in formatted;
    TokenIsRead(formatted, rest);
  }

  lemma ValueIsRead(value: FieldValue, rest: string)
    requires PlainField(("", value)) && Stopped(rest, ", ")
    ensures ReadValue(ValueText(value) + rest) == (value, rest)
  {
    match value
    case Text(content) => TextIsRead(content, rest);
    case Whole(number) => WholeIsRead(number, rest);
    case Decimal(formatted) => DecimalIsRead(formatted, rest);
    case Flag(on) => TokenIsRead(ValueText(value), rest);
  }

  // --------------------------------------------------------------------------- fields

  lemma FieldsAppend(fields: seq<(string, FieldValue)>, field: (string, FieldValue))
    requires fields != []
    ensures Fields(fields + [field]) == Fields(fields) + ("," + FieldText(field.0, field.1))
  {
    assert (fields + [field])[..|fields|] == fields;
  }

  lemma {:induction false} FieldsFromFront(field: (string, FieldValue), fields: seq<(string, FieldValue)>)
    requires fields != []
    ensures Fields([field] + fields) == FieldText(field.0, field.1) + ("," + Fields(fields))
  {
    var init, last := fields[..|fields| - 1], fields[|fields| - 1];
    var text, tail := FieldText(field.0, field.1), "," + FieldText(last.0, last.1);
    assert [field] + fields == ([field] + init) + [last] && fields == init + [last];
    FieldsAppend([field] + init, last);
    if init == [] {
      assert [field] + init == [field] && fields == [last];
      assert Fields([field]) == text && Fields(fields) == FieldText(last.0, last.1);
    } else {
      FieldsFromFront(field, init);
      FieldsAppend(init, last);
      Middle(text, ",", Fields(init), tail);
    }
  }

  lemma Middle(a: string, b: string, c: string, d: string)
    ensures a + (b + c) + d == a + (b + (c + d))
  {
  }

  /** A field and what follows it. */
  lemma FieldIsRead(field: (string, FieldValue), rest: string)
    requires PlainField(field) && Stopped(rest, ", ")
    ensures var text := FieldText(field.0, field.1) + rest;
            text != "" && text[0] != ' ' && ReadField(text) == (field, rest)
  {
    var text, behind := FieldText(field.0, field.1) + rest, "=" + ValueText(field.1) + rest;
    FieldParts(field.0, field.1);
    PlainIsWithout(field.0, "=");
    assert text == field.0 + behind;
    WordIsRead(field.0, behind, "=");
    assert field.0 != "" ==> field.0[0] in field.0;
    assert text[|field.0| + 1..] == ValueText(field.1) + rest;
    ValueIsRead(field.1, rest);
  }

  lemma LastFieldIsRead(field: (string, FieldValue), rest: string)
    requires PlainField(field) && rest != "" && rest[0] == ' '
    ensures ReadFields(FieldText(field.0, field.1) + rest) == ([field], rest)
  {
    FieldIsRead(field, rest);
  }

  lemma NextFieldIsRead(field: (string, FieldValue), rest: string)
    requires PlainField(field)
    ensures var others := ReadFields(rest);
            ReadFields(FieldText(field.0, field.1) + ("," + rest)) == ([field] + others.0, others.1)
  {
    FieldIsRead(field, "," + rest);
    assert ("," + rest)[1..] == rest;
  }

  lemma {:induction false} FieldsAreRead(fields: seq<(string, FieldValue)>, rest: string)
    requires (forall field | field in fields :: PlainField(field)) && rest != "" && rest[0] == ' '
    ensures ReadFields(Fields(fields) + rest) == (fields, rest)
    decreases |fields|
  {
    if fields == [] {
      assert Fields(fields) + rest == rest;
    } else {
      var first, others := fields[0], fields[1..];
      assert fields == [first] + others && first in fields;
      if others == [] {
        assert fields == [first];
        LastFieldIsRead(first, rest);
      } else {
        FieldsFromFront(first, others);
        NextFieldIsRead(first, Fields(others) + rest);
        FieldsAreRead(others, rest);
        Middle(FieldText(first.0, first.1), ",", Fields(others), rest);
      }
    }
  }

  // -------------------------------------------------------------------------- whole lines

  lemma TimeParts(timestamp: nat, rest: string)
    ensures End(timestamp) + rest == " " + (Digits(timestamp) + ("\n" + rest))
  {
    Middle(" ", Digits(timestamp), "\n", rest);
    Associative(" ", Digits(timestamp), "\n");
  }

  lemma TimeIsRead(timestamp: nat, rest: string)
    ensures var text := End(timestamp) + rest;
            && text[0] == ' ' && Word(After(text, 1), "\n") == Digits(timestamp)
            && After(text, |Digits(timestamp)| + 2) == rest
  {
    var digits := Digits(timestamp);
    DigitsAreRead(timestamp);
    TimeParts(timestamp, rest);
    AfterBlank(digits + ("\n" + rest));
    WordIsRead(digits, "\n" + rest, "\n");
    AfterWord(" " + digits, "\n", rest);
    Associative(" ", digits, "\n" + rest);
  }

  lemma AfterWord(word: string, stop: string, rest: string)
    ensures After(word + (stop + rest), |word| + |stop|) == rest
  {
  }

  lemma AfterBlank(rest: string)
    ensures After(" " + rest, 1) == rest
  {
  }

  lemma LineParts(measurement: string, p: Point, rest: string)
    ensures Line(measurement, p) + rest
         == measurement + (Tags(p.tags) + (" " + (Fields(p.fields) + (End(p.timestamp) + rest))))
  {
    var head, fields, end := Head(measurement, p.tags), Fields(p.fields), End(p.timestamp);
    Regroup(head, fields, end, rest);
    Associative(fields, end, rest);
    Associative(measurement + Tags(p.tags), " ", fields + (end + rest));
    Associative(measurement, Tags(p.tags), " " + (fields + (end + rest)));
  }

  lemma MeasurementIsRead(measurement: string, rest: string)
    requires Plain(measurement) && Stopped(rest, ", ")
    ensures Word(measurement + rest, ", ") == measurement && After(measurement + rest, |measurement|) == rest
  {
    PlainIsWithout(measurement, ", ");
    WordIsRead(measurement, rest, ", ");
  }

  /** Every line is read as the measurement and the point it was written for, whatever follows it. */
  lemma LineIsRead(measurement: string, p: Point, rest: string)
    requires Plain(measurement) && PlainPoint(p)
    ensures ReadLine(Line(measurement, p) + rest) == Reading(measurement, p, rest)
  {
    var end := End(p.timestamp) + rest;
    var afterTags := " " + (Fields(p.fields) + end);
    LineParts(measurement, p, rest);
    TagsStop(p.tags, afterTags);
    MeasurementIsRead(measurement, Tags(p.tags) + afterTags);
    TagsAreRead(p.tags, afterTags);
    AfterBlank(Fields(p.fields) + end);
    TimeIsRead(p.timestamp, rest);
    FieldsAreRead(p.fields, end);
    DigitsAreRead(p.timestamp);
  }

  /** All points found in a text, line by line. */
  function ReadLog(text: string): seq<Point>
    decreases |text|
  {
    if text == "" then []
    else
      var line := ReadLine(text);
      if |line.rest| < |text| then [line.point] + ReadLog(line.rest) else []
  }

  lemma {:induction false} LinesAreRead(measurement: string, ps: seq<Point>)
    requires Plain(measurement) && forall p | p in ps :: PlainPoint(p)
    ensures ReadLog(Lines(measurement, ps)) == ps
    decreases |ps|
  {
    if ps != [] {
      var first, others := ps[0], ps[1..];
      assert ps == [first] + others && first in ps;
      FlatMapAppend(LineOf(measurement), [first], others);
      FlatMapOne(LineOf(measurement), first);
      LineIsRead(measurement, first, Lines(measurement, others));
      LinesAreRead(measurement, others);
    }
  }

  /** At every moment of every run the points logged so far can be read back, in order, from the buffers queued so far
      and the current one. */
  lemma LoggedPointsAreRead(measurement: string, limit: nat, senders: nat, steps: seq<Step>, k: nat)
    requires k <= |steps| && Plain(measurement) && forall p | p in Points(steps, k) :: PlainPoint(p)
    ensures var sys := Run(LineConfig(measurement, limit, senders), steps, k);
            ReadLog(Flatten(sys.enqueued) + sys.writer.current) == Points(steps, k)
  {
    LogIsConserved(LineConfig(measurement, limit, senders), steps, k);
    LinesAreRead(measurement, Points(steps, k));
  }

  /** The lines of the two calls, in full. */
  lemma MessageLine(measurement: string, source: string, severity: string, msg: string, timestamp: nat)
    ensures Line(measurement, MessagePoint(source, severity, msg, timestamp)) ==
            (measurement + ((",source=" + source) + (",severity=" + severity)) + " ") + ("msg=\"" + msg + "\"")
            + (" " + Digits(timestamp) + "\n")
  {
    var p := MessagePoint(source, severity, msg, timestamp);
    SmallLists(p.tags, p.fields);
    assert TagText("source", source) == ",source=" + source && TagText("severity", severity) == ",severity=" + severity;
    assert Fields(p.fields) == FieldText("msg", Text(msg)) == "msg=\"" + msg + "\"";
  }

  lemma ValueLine(measurement: string, key: string, value: FieldValue, timestamp: nat)
    ensures Line(measurement, ValuePoint(key, value, timestamp)) ==
            (measurement + (",key=" + key) + " ") + ("value=" + ValueText(value)) + (" " + Digits(timestamp) + "\n")
  {
    var p := ValuePoint(key, value, timestamp);
    SmallLists(p.tags, p.fields);
    assert Tags(p.tags) == TagText("key", key) == ",key=" + key;
    FieldParts("value", value);
    Associative("value", "=", ValueText(value));
    assert Fields(p.fields) == FieldText("value", value) == "value=" + ValueText(value);
    assert Line(measurement, p) == Head(measurement, p.tags) + Fields(p.fields) + End(timestamp);
  }

  /** Plain texts are needed: nothing is escaped, so a comma in a tag value makes the line that of another point. */
  lemma SeparatorsAreNotEscaped(measurement: string, fields: seq<(string, FieldValue)>, timestamp: nat)
    ensures Line(measurement, Point([("a", "b,c=d")], fields, timestamp))
         == Line(measurement, Point([("a", "b"), ("c", "d")], fields, timestamp))
  {
    SmallLists([("a", "b,c=d")], []);
    SmallLists([("a", "b"), ("c", "d")], []);
    assert TagText("a", "b,c=d") == ",a=b,c=d" == TagText("a", "b") + TagText("c", "d");
  }
}
