/**
  The web UI's log console (`ws.onmessage` in the index page script): every
  WebSocket message is parsed as JSON and appended to the `logs` element as a
  line `"\n" + timestamp + "[" + level + "]" + payload`, after which the view is
  scrolled to the bottom.

  `JSON.parse` is abstracted: a message arrives already parsed, or as
  `Malformed` when parsing throws. Each property of a parsed object is held as
  the text JavaScript's string conversion gives it.
*/
module LogConsole {
  import opened Text

  /** What `JSON.parse(event.data)` produced. */
  datatype Message =
    | Malformed                         // JSON.parse throws
    | NullValue                         // the JSON text `null`
    | Object(props: map<string, string>) // an object, each property as its string conversion
    | Primitive                         // a number, string, boolean or array: no such properties

  /** The log element: its text and whether it is scrolled to the bottom. */
  datatype Console = Console(text: string, atBottom: bool)

  /** `"" + data[name]`: a missing property reads as `undefined`. */
  function Field(m: Message, name: string): (r: string)
    requires !m.Malformed? && !m.NullValue?
    ensures m.Object? && name in m.props ==> r == m.props[name]
    ensures !(m.Object? && name in m.props) ==> r == "undefined"
  {
    match m
    case Object(props) => if name in props then props[name] else "undefined"
    case Primitive => "undefined"
  }

  /** The line one well-formed message appends. */
  function LogLine(timestamp: string, level: string, payload: string): (line: string)
    ensures |line| == |timestamp| + |level| + |payload| + 3
    ensures line[0] == '\n'
  {
    "\n" + timestamp + "[" + level + "]" + payload
  }

  /**
    The handler. A malformed message changes nothing. For `null`, the newline
    is appended and then reading `data.timestamp` throws, so the line stops
    there and the view is not scrolled. Otherwise the whole line is appended
    and the view is scrolled to the bottom.
  */
  function OnMessage(c: Console, m: Message): (r: Console)
    ensures StartsWith(r.text, c.text)
    ensures m.Malformed? ==> r == c
    ensures m.NullValue? ==> r.text == c.text + "\n" && r.atBottom == c.atBottom
    ensures m.Object? || m.Primitive? ==>
      && r.text == c.text + LogLine(Field(m, "timestamp"), Field(m, "level"), Field(m, "payload"))
      && r.atBottom
  {
    match m
    case Malformed => c
    case NullValue =>
      var t := c.text + "\n";
      assert t[..|c.text|] == c.text;
      Console(t, c.atBottom)
    case _ =>
      var t := c.text + LogLine(Field(m, "timestamp"), Field(m, "level"), Field(m, "payload"));
      assert t[..|c.text|] == c.text;
      Console(t, true)
  }

  /** The text one message adds to the log. */
  function Appended(m: Message): string {
    match m
    case Malformed => ""
    case NullValue => "\n"
    case _ => LogLine(Field(m, "timestamp"), Field(m, "level"), Field(m, "payload"))
  }

  /** The text a run of messages adds, in arrival order. */
  function AllAppended(ms: seq<Message>): string {
    if |ms| == 0 then "" else AllAppended(ms[..|ms| - 1]) + Appended(ms[|ms| - 1])
  }

  /** Messages handled one after another. */
  function Replay(c: Console, ms: seq<Message>): Console {
    if |ms| == 0 then c else OnMessage(Replay(c, ms[..|ms| - 1]), ms[|ms| - 1])
  }

  /**
    The log is append-only: after any run of messages the text is the old text
    followed by each message's line in arrival order, with nothing from the
    malformed ones.
  */
  lemma {:induction false} ReplayAppends(c: Console, ms: seq<Message>)
    ensures Replay(c, ms).text == c.text + AllAppended(ms)
    decreases |ms|
  {
    if |ms| > 0 {
      var front := ms[..|ms| - 1];
      ReplayAppends(c, front);
      var m := ms[|ms| - 1];
      OnMessageAppends(Replay(c, front), m);
      assert AllAppended(ms) == AllAppended(front) + Appended(m);
    }
  }

  /** One message adds its own text, whatever the log held before. */
  lemma OnMessageAppends(c: Console, m: Message)
    ensures OnMessage(c, m).text == c.text + Appended(m)
  {
  }

  /** The old text is a prefix of the text after any run of messages. */
  lemma ReplayKeepsPrefix(c: Console, ms: seq<Message>)
    ensures StartsWith(Replay(c, ms).text, c.text)
  {
    ReplayAppends(c, ms);
    assert (c.text + AllAppended(ms))[..|c.text|] == c.text;
  }

  datatype ParsedLine = NoLine | Line(timestamp: string, level: string, payload: string)

  /**
    Reads a log line back into its three fields: the timestamp runs to the
    first `[`, the level to the first `]` after it, and the payload is the rest.
  */
  function ParseLogLine(line: string): ParsedLine {
    if |line| == 0 || line[0] != '\n' then NoLine
    else
      var body := line[1..];
      if '[' !in body then NoLine
      else
        var i := FirstIndex(body, '[');
        var rest := body[i + 1..];
        if ']' !in rest then NoLine
        else
          var j := FirstIndex(rest, ']');
          Line(body[..i], rest[..j], rest[j + 1..])
  }

  /** The fields after the separator: the level up to `]`, then the payload. */
  lemma LevelAndPayload(level: string, payload: string)
    requires ']' !in level
    ensures var rest := level + "]" + payload;
      ']' in rest && rest[..FirstIndex(rest, ']')] == level && rest[FirstIndex(rest, ']') + 1..] == payload
  {
    var rest := level + "]" + payload;
    assert rest == level + ("]" + payload);
    FirstIndexAfter(level, "]" + payload, ']');
    assert rest[..|level|] == level;
    assert rest[|level| + 1..] == payload;
  }

  /**
    A line determines its fields when the timestamp holds no `[` and the level
    no `]`; the payload may hold anything.
  */
  lemma LogLineRoundTrip(timestamp: string, level: string, payload: string)
    requires '[' !in timestamp && ']' !in level
    ensures ParseLogLine(LogLine(timestamp, level, payload)) == Line(timestamp, level, payload)
  {
    var line := LogLine(timestamp, level, payload);
    var body := line[1..];
    var rest := level + "]" + payload;
    assert body == timestamp + ("[" + rest);
    FirstIndexAfter(timestamp, "[" + rest, '[');
    assert body[..|timestamp|] == timestamp;
    assert body[|timestamp| + 1..] == rest;
    LevelAndPayload(level, payload);
  }
}
