/** The event-stream reader of the credential bridge, and the printer it undoes (section 9.2.6 of the HTML Standard). */
module SseParser {
  import opened Wrappers
  import opened Collections
  import opened GoStrings
  import opened SseFilter

  const MAX_MESSAGE_BYTES := 0x100_0000

  /** What the relay looks at in a JSON-RPC message; `parse` stands for the JSON decoder. */
  datatype Message = Message(name: string, id: string)

  type Parser = string -> Option<Message>

  /** The stdio peer: `accepts` tells whether it takes these messages in full; `awaited` is the request to answer. */
  datatype Client = Client(parse: Parser, accepts: seq<string> -> bool, awaited: string)

  predicate Answers(m: Message, awaited: string) {
    awaited != "" && m.name == "" && m.id == awaited
  }

  // Scanning lines.

  function Content(line: string): string {
    if line != "" && line[|line| - 1] == '\n' then line[..|line| - 1] else line
  }

  function DropCR(s: string): string {
    if s != "" && s[|s| - 1] == '\r' then s[..|s| - 1] else s
  }

  /** The lines a `bufio.Scanner` delivers: without their line end, up to the first that overflows its buffer. */
  function Tokens(lines: seq<string>): seq<string> {
    if lines == [] || |Content(lines[0])| >= MAX_MESSAGE_BYTES then []
    else [DropCR(Content(lines[0]))] + Tokens(lines[1..])
  }

  predicate Overflows(lines: seq<string>) {
    exists i :: 0 <= i < |lines| && |Content(lines[i])| >= MAX_MESSAGE_BYTES
  }

  // Fields.

  function ColonIndex(line: string): (n: nat)
    ensures n <= |line|
    ensures ':' !in line[..n]
    ensures n < |line| ==> line[n] == ':'
  {
    if line == "" || line[0] == ':' then 0
    else
      var n := 1 + ColonIndex(line[1..]);
      assert line[..n] == [line[0]] + line[1..][..n - 1];
      n
  }

  function Field(line: string): string {
    line[..ColonIndex(line)]
  }

  function Value(line: string): string {
    var n := ColonIndex(line);
    if n < |line| then TrimPrefix(line[n + 1..], " ") else ""
  }

  function Join(lines: seq<string>): string {
    if lines == [] then "" else if |lines| == 1 then lines[0] else lines[0] + "\n" + Join(lines[1..])
  }

  function Size(lines: seq<string>): nat {
    if lines == [] then 0 else |lines[0]| + 1 + Size(lines[1..])
  }

  // Reading a stream.

  /** A peer that takes everything. */
  ghost predicate TakesAll(c: Client) {
    forall sent :: c.accepts(sent)
  }

  datatype Status = Answered | Ended | BrokenOff | TooLarge | BadMessage | Unanswered | Unwritten(payload: string)

  datatype Outcome = Outcome(lastID: string, sent: seq<string>, status: Status)

  datatype Progress = Progress(data: seq<string>, lastID: string, sent: seq<string>)

  function Finish(c: Client, failed: bool, p: Progress): Outcome {
    Outcome(p.lastID, p.sent, if failed then BrokenOff else if c.awaited != "" then Unanswered else Ended)
  }

  /** How passing on a payload ends the reading, if it does. */
  function Stop(c: Client, sent: seq<string>, payload: string): Option<Status> {
    match c.parse(payload)
    case None => Some(BadMessage)
    case Some(m) =>
      if !c.accepts(sent + [payload]) then Some(Unwritten(payload))
      else if Answers(m, c.awaited) then Some(Answered) else None
  }

  /** What one line leads to: how it ends the reading, if it does, and what has been collected and passed on by then. */
  datatype Move = Move(stop: Option<Status>, next: Progress)

  function OnBlank(c: Client, p: Progress): Move {
    OnPayload(c, Join(p.data), p)
  }

  function OnPayload(c: Client, payload: string, p: Progress): Move {
    if payload == "" then Move(None, p.(data := []))
    else
      match Stop(c, p.sent, payload)
      case None => Move(None, Progress([], p.lastID, p.sent + [payload]))
      case Some(status) => Move(Some(status), if status == Answered then p.(sent := p.sent + [payload]) else p)
  }

  function OnField(line: string, p: Progress): Move {
    if Field(line) == "data" && Size(p.data) + |Value(line)| + 1 > MAX_MESSAGE_BYTES then Move(Some(TooLarge), p)
    else Move(None, AfterField(line, p))
  }

  function OnLine(c: Client, line: string, p: Progress): Move {
    if line == "" then OnBlank(c, p) else OnField(line, p)
  }

  /** What reading the remaining lines leads to. */
  function Consume(c: Client, tokens: seq<string>, failed: bool, p: Progress): Outcome
    decreases |tokens|
  {
    if tokens == [] then Finish(c, failed, p)
    else
      var m := OnLine(c, tokens[0], p);
      if m.stop.Some? then Ending(m) else Consume(c, tokens[1..], failed, m.next)
  }

  function Ending(m: Move): Outcome
    requires m.stop.Some?
  {
    Outcome(m.next.lastID, m.next.sent, m.stop.value)
  }

  /** What a field does: data is collected, an id without a NUL is kept, everything else ignored. */
  function AfterField(line: string, p: Progress): Progress {
    if Field(line) == "data" then p.(data := p.data + [Value(line)])
    else if Field(line) == "id" && '\0' !in Value(line) then p.(lastID := Value(line))
    else p
  }

  const START := Progress([], "", [])

  function Read(c: Client, body: string, broken: bool): Outcome {
    Consume(c, Tokens(Lines(body)), broken || Overflows(Lines(body)), START)
  }

  /** The messages passed on, and the one whose writing failed. */
  function Attempted(r: Outcome): seq<string> {
    Tried(Some(r.status), r.sent)
  }

  function Tried(stop: Option<Status>, sent: seq<string>): seq<string> {
    if stop.Some? && stop.value.Unwritten? then sent + [stop.value.payload] else sent
  }

  lemma ConsumeLine(c: Client, line: string, rest: seq<string>, failed: bool, p: Progress)
    ensures var m := OnLine(c, line, p);
            Consume(c, [line] + rest, failed, p) == if m.stop.Some? then Ending(m) else Consume(c, rest, failed, m.next)
  {
    assert ([line] + rest)[1..] == rest;
  }

  lemma {:induction false} SizeOfConcat(a: seq<string>, b: seq<string>)
    ensures Size(a + b) == Size(a) + Size(b)
  {
    if a == [] {
      assert a + b == b;
    } else {
      SizeOfConcat(a[1..], b);
      assert (a + b)[1..] == a[1..] + b;
    }
  }

  lemma {:induction false} JoinedSize(lines: seq<string>)
    ensures lines != [] ==> |Join(lines)| + 1 == Size(lines)
  {
    if |lines| > 1 {
      JoinedSize(lines[1..]);
    } else if |lines| == 1 {
      assert lines[1..] == [];
    }
  }

  /** A `bufio.Scanner` over a body that ends with EOF, or with an error when it is `broken`. */
  class Scanner {
    var rest: string
    var failed: bool
    const broken: bool
    ghost var tokens: seq<string>
    ghost var fails: bool

    constructor (text: string, broken: bool)
      ensures Valid() && rest == text && !failed && this.broken == broken
    {
      rest, failed, this.broken := text, false, broken;
      tokens, fails := Tokens(Lines(text)), broken || Overflows(Lines(text));
    }

    /** The lines still to come, and whether the scanner ends with an error. */
    ghost predicate Valid()
      reads this
    {
      tokens == Tokens(Lines(rest)) && fails == (broken || Overflows(Lines(rest)))
    }

    method Scan() returns (line: Option<string>)
      requires Valid() && !failed
      modifies this
      ensures Valid() && fails == old(fails)
      ensures match line
        case Some(l) => !failed && old(tokens) == [l] + tokens && |rest| < |old(rest)|
        case None => old(tokens) == [] && failed == fails
    {
      if rest == "" {
        failed := broken;
        return None;
      }
      var n := LineLength(rest);
      ghost var lines, tail := Lines(rest), Lines(rest[n..]);
      assert lines == [rest[..n]] + tail;
      var content := Content(rest[..n]);
      if |content| >= MAX_MESSAGE_BYTES {
        assert |Content(lines[0])| >= MAX_MESSAGE_BYTES;
        failed := true;
        return None;
      }
      assert forall i :: 0 < i < |lines| ==> lines[i] == tail[i - 1];
      assert forall i :: 0 <= i < |tail| ==> tail[i] == lines[i + 1];
      rest := rest[n..];
      tokens := tokens[1..];
      line := Some(DropCR(content));
    }
  }

  /** What the messages look like to the stdio peer: one line each. `compact` stands for the JSON compaction. */
  function Wire(compact: string -> string, sent: seq<string>): string
    decreases |sent|
  {
    if sent == [] then "" else Wire(compact, sent[..|sent| - 1]) + (compact(sent[|sent| - 1]) + "\n")
  }

  lemma WireStep(start: string, compact: string -> string, sent: seq<string>, payload: string)
    ensures start + Wire(compact, sent + [payload]) == (start + Wire(compact, sent)) + (compact(payload) + "\n")
  {
    assert (sent + [payload])[..|sent|] == sent;
  }

  lemma NothingSent(start: string, compact: string -> string)
    ensures start + Wire(compact, []) == start
  {
  }

  function Accepting(limit: Option<nat>, start: string, compact: string -> string): seq<string> -> bool {
    sent => Takes(limit, start + Wire(compact, sent))
  }

  /** The local variables of the loop. */
  datatype State = State(data: seq<string>, size: nat, lastID: string, delivered: bool) {
    ghost predicate Is(p: Progress) {
      data == p.data && lastID == p.lastID && (delivered <==> p.sent != [])
    }

    predicate Sized() {
      size == Size(data) <= MAX_MESSAGE_BYTES
    }
  }

  datatype Written = Refused | Failed | Passed(message: Message)

  class Relay {
    const parse: Parser
    const compact: string -> string
    const output: Writer

    constructor (parse: Parser, compact: string -> string, output: Writer)
      ensures this.parse == parse && this.compact == compact && this.output == output
    {
      this.parse, this.compact, this.output := parse, compact, output;
    }

    method Write(data: string) returns (written: Written)
      requires Takes(output.limit, output.written)
      modifies output
      ensures var message, all := parse(data), old(output.written) + (compact(data) + "\n");
              if |data| > MAX_MESSAGE_BYTES || message.None? then written == Refused &&
                output.written == old(output.written)
              else output.written == Taken(output.limit, all)
                   && written == if Takes(output.limit, all) then Passed(message.value) else Failed
    {
      if |data| > MAX_MESSAGE_BYTES { return Refused; }
      var message := parse(data);
      if message.None? { return Refused; }
      var ok := output.WriteString(compact(data) + "\n");
      written := if ok then Passed(message.value) else Failed;
    }

    function ClientOf(start: string, awaited: string): Client {
      Client(parse, Accepting(output.limit, start, compact), awaited)
    }

    // Passes on one payload; how that ends the reading, if it does.
    method PassOn(payload: string, awaited: string, ghost start: string, ghost sent: seq<string>)
      returns (stop: Option<Status>)
      requires |payload| <= MAX_MESSAGE_BYTES
      requires Takes(output.limit, output.written) && output.written == start + Wire(compact, sent)
      modifies output
      ensures stop == Stop(ClientOf(start, awaited), sent, payload)
      ensures var now := if stop == Some(BadMessage) then sent else sent + [payload];
              output.written == Taken(output.limit, start + Wire(compact, now))
      ensures stop == None ==> Takes(output.limit, start + Wire(compact, sent + [payload]))
    {
      WireStep(start, compact, sent, payload);
      var written := Write(payload);
      match written
      case Refused => stop := Some(BadMessage);
      case Failed => stop := Some(Unwritten(payload));
      case Passed(message) => stop := if Answers(message, awaited) then Some(Answered) else None;
    }

    // Passes on a payload, unless it is empty, and empties the collected data.
    method Blank(payload: string, s: State, awaited: string, ghost start: string, ghost p: Progress)
      returns (stop: Option<Status>, next: State, ghost now: Progress)
      requires |payload| <= MAX_MESSAGE_BYTES
      requires s.Is(p) && Takes(output.limit, output.written) && output.written == start + Wire(compact, p.sent)
      modifies output
      ensures OnPayload(ClientOf(start, awaited), payload, p) == Move(stop, now) && next.Is(now)
      ensures (next.data == s.data && next.size == s.size) || (next.data == [] && next.size == 0)
      ensures stop.None? ==> Takes(output.limit, output.written) && output.written == start + Wire(compact, now.sent)
      ensures stop.Some? ==> output.written == Taken(output.limit, start + Wire(compact, Tried(stop, now.sent)))
    {
      stop, next, now := None, s.(data := [], size := 0), p.(data := []);
      if payload == "" { return; }
      stop := PassOn(payload, awaited, start, p.sent);
      if stop.None? {
        next, now := State([], 0, s.lastID, true), Progress([], p.lastID, p.sent + [payload]);
      } else if stop.value == Answered {
        next, now := s.(delivered := true), p.(sent := p.sent + [payload]);
      } else {
        next, now := s, p;
      }
    }

    method ReadField(line: string, s: State, ghost p: Progress)
      returns (stop: Option<Status>, next: State, ghost now: Progress)
      requires s.Is(p) && s.Sized()
      ensures OnField(line, p) == Move(stop, now) && next.Is(now) && next.Sized()
      ensures (stop.None? || stop == Some(TooLarge)) && now.sent == p.sent
    {
      stop, next, now := None, s, AfterField(line, p);
      var field, value := Field(line), Value(line);
      if field == "data" {
        var size := s.size + |value| + 1;
        if size > MAX_MESSAGE_BYTES { return Some(TooLarge), s, p; }
        SizeOfConcat(s.data, [value]);
        next := s.(data := s.data + [value], size := size);
      } else if field == "id" {
        if '\0' !in value { next := s.(lastID := value); }
      }
    }

    // One line; `rest` are the lines after it.
    method Dispatch(line: string, awaited: string, s: State, ghost start: string, ghost p: Progress,
                    ghost rest: seq<string>, ghost fails: bool, ghost r: Outcome)
      returns (stop: Option<Status>, next: State, ghost now: Progress)
      requires s.Is(p) && s.Sized() && Takes(output.limit, output.written) &&
               output.written == start + Wire(compact, p.sent)
      requires r == Consume(ClientOf(start, awaited), [line] + rest, fails, p)
      modifies output
      ensures next.Is(now) && next.Sized()
      ensures stop.None? ==> r == Consume(ClientOf(start, awaited), rest, fails, now)
      ensures stop.None? ==> Takes(output.limit, output.written) && output.written == start + Wire(compact, now.sent)
      ensures stop.Some? ==> r == Outcome(now.lastID, now.sent, stop.value)
      ensures stop.Some? ==> output.written == Taken(output.limit, start + Wire(compact, Tried(stop, now.sent)))
    {
      ConsumeLine(ClientOf(start, awaited), line, rest, fails, p);
      if line == "" {
        JoinedSize(s.data);
        stop, next, now := Blank(Join(s.data), s, awaited, start, p);
      } else {
        stop, next, now := ReadField(line, s, p);
      }
    }

    // The loop; p is what it has seen, and r what the whole stream leads to.
    method Scanning(scanner: Scanner, awaited: string, ghost start: string, ghost r: Outcome)
      returns (s: State, status: Status, ghost p: Progress)
      requires scanner.Valid() && !scanner.failed && Takes(output.limit, output.written) && output.written == start
      requires r == Consume(ClientOf(start, awaited), scanner.tokens, scanner.fails, START)
      modifies output, scanner
      ensures r == Outcome(p.lastID, p.sent, status) && s.Is(p)
      ensures output.written == Taken(output.limit, start + Wire(compact, Tried(Some(status), p.sent)))
    {
      s, p := State([], 0, "", false), START;
      NothingSent(start, compact);
      while true
        invariant scanner.Valid() && !scanner.failed && s.Is(p) && s.Sized()
        invariant Takes(output.limit, output.written) && output.written == start + Wire(compact, p.sent)
        invariant r == Consume(ClientOf(start, awaited), scanner.tokens, scanner.fails, p)
        decreases |scanner.rest|
      {
        var scanned := scanner.Scan();
        if scanned.None? { break; }
        var stop;
        stop, s, p := Dispatch(scanned.value, awaited, s, start, p, scanner.tokens, scanner.fails, r);
        if stop.Some? {
          status := stop.value;
          return;
        }
      }
      status := if scanner.failed then BrokenOff else if awaited != "" then Unanswered else Ended;
    }

    /** Reads one event stream: the result is that of `Read`, and the peer has what it takes of the messages passed
        on. */
    method Sse(scanner: Scanner, awaited: string) returns (lastID: string, delivered: bool, status: Status)
      requires scanner.Valid() && !scanner.failed && Takes(output.limit, output.written)
      modifies output, scanner
      ensures var r := Read(ClientOf(old(output.written), awaited), old(scanner.rest), scanner.broken);
              && lastID == r.lastID && status == r.status && (delivered <==> r.sent != [])
              && output.written == Taken(output.limit, old(output.written) + Wire(compact, Attempted(r)))
    {
      ghost var start := output.written;
      ghost var r := Read(ClientOf(start, awaited), scanner.rest, scanner.broken);
      var s, ended, p := Scanning(scanner, awaited, start, r);
      return s.lastID, s.delivered, ended;
    }
  }

  // Printing a stream.

  datatype Event = Event(payload: string, id: Option<string>)

  /** The lines of a payload, without their line feeds; a final line feed is followed by an empty line. */
  function Split(s: string): (r: seq<string>)
    ensures r != []
    ensures forall i :: 0 <= i < |r| ==> '\n' !in r[i]
    decreases |s|
  {
    if '\n' !in s then [s] else [s[..LineLength(s) - 1]] + Split(s[LineLength(s)..])
  }

  lemma {:induction false} JoinUndoesSplit(s: string)
    ensures Join(Split(s)) == s
    decreases |s|
  {
    if '\n' in s {
      var n := LineLength(s);
      JoinUndoesSplit(s[n..]);
      JoinCons(s[..n - 1], Split(s[n..]));
      assert s == s[..n - 1] + "\n" + s[n..];
    }
  }

  lemma JoinCons(line: string, lines: seq<string>)
    requires lines != []
    ensures Join([line] + lines) == line + "\n" + Join(lines)
  {
    assert ([line] + lines)[1..] == lines;
  }

  function DataLines(lines: seq<string>): seq<string> {
    if lines == [] then [] else ["data: " + lines[0] + "\n"] + DataLines(lines[1..])
  }

  function IdLines(id: Option<string>): seq<string> {
    if id.Some? then ["id: " + id.value + "\n"] else []
  }

  function EventLines(e: Event): seq<string> {
    IdLines(e.id) + (DataLines(Split(e.payload)) + ["\n"])
  }

  function StreamLines(events: seq<Event>): seq<string> {
    if events == [] then [] else EventLines(events[0]) + StreamLines(events[1..])
  }

  function Render(events: seq<Event>): string {
    Text(StreamLines(events))
  }

  /** An id is one line; every printed line fits the scanner's buffer and the payload fits one message. */
  predicate Fits(e: Event) {
    && |e.payload| < MAX_MESSAGE_BYTES
    && (forall i :: 0 <= i < |Split(e.payload)| ==> |Split(e.payload)[i]| + 6 < MAX_MESSAGE_BYTES)
    && (e.id.Some? ==> '\n' !in e.id.value && |e.id.value| + 4 < MAX_MESSAGE_BYTES)
  }

  // What the scanner leaves of an event: it drops one carriage return before every line feed.

  function DropCRs(lines: seq<string>): (r: seq<string>)
    ensures |r| == |lines|
  {
    if lines == [] then [] else [DropCR(lines[0])] + DropCRs(lines[1..])
  }

  function Stripped(e: Event): Event {
    Event(Join(DropCRs(Split(e.payload))), if e.id.Some? then Some(DropCR(e.id.value)) else None)
  }

  function IdAfter(id: Option<string>, lastID: string): string {
    if id.Some? && '\0' !in id.value then id.value else lastID
  }

  /** The reference: deliver the events one after the other, up to the one that answers. */
  function Deliver(c: Client, events: seq<Event>, lastID: string, sent: seq<string>): Outcome
    decreases |events|
  {
    if events == [] then Finish(c, false, Progress([], lastID, sent))
    else
      var e := events[0];
      var id := IdAfter(e.id, lastID);
      if e.payload == "" then Deliver(c, events[1..], id, sent)
      else
        match Stop(c, sent, e.payload)
        case None => Deliver(c, events[1..], id, sent + [e.payload])
        case Some(status) => Outcome(id, if status == Answered then sent + [e.payload] else sent, status)
  }

  function StrippedAll(events: seq<Event>): seq<Event> {
    if events == [] then [] else [Stripped(events[0])] + StrippedAll(events[1..])
  }

  // Printed lines scan to themselves, less the carriage returns.

  predicate Printed(lines: seq<string>) {
    forall i :: 0 <= i < |lines| ==> IsLine(lines[i]) && |lines[i]| <= MAX_MESSAGE_BYTES
  }

  lemma TokensCons(line: string, lines: seq<string>)
    requires |Content(line)| < MAX_MESSAGE_BYTES
    ensures Tokens([line] + lines) == [DropCR(Content(line))] + Tokens(lines)
  {
    assert ([line] + lines)[1..] == lines;
  }

  lemma {:induction false} TokensOfConcat(a: seq<string>, b: seq<string>)
    requires Printed(a)
    ensures Tokens(a + b) == Tokens(a) + Tokens(b)
  {
    if a == [] {
      assert a + b == b;
    } else {
      var first, rest := a[0], a[1..];
      TokensOfConcat(rest, b);
      TokensCons(first, rest);
      TokensCons(first, rest + b);
      Associates([first], rest, b);
      Associates([DropCR(Content(first))], Tokens(rest), Tokens(b));
      assert a == [first] + rest;
    }
  }

  function DataTokens(lines: seq<string>): seq<string> {
    if lines == [] then [] else ["data: " + lines[0]] + DataTokens(lines[1..])
  }

  lemma PrintedLine(name: string, value: string)
    requires name != "" && '\n' !in name && name[|name| - 1] != '\r' && '\n' !in value
    ensures IsLine(name + value + "\n")
    ensures DropCR(Content(name + value + "\n")) == name + DropCR(value)
  {
    var l := name + value + "\n";
    assert l[..|l| - 1] == name + value;
    if value == "" {
      assert name + value == name;
    } else {
      assert (name + value)[..|name + value| - 1] == name + value[..|value| - 1];
    }
  }

  lemma {:induction false} TokensOfData(lines: seq<string>)
    requires forall i :: 0 <= i < |lines| ==> '\n' !in lines[i] && |lines[i]| + 6 < MAX_MESSAGE_BYTES
    ensures Printed(DataLines(lines))
    ensures Tokens(DataLines(lines)) == DataTokens(DropCRs(lines))
  {
    if lines != [] {
      PrintedLine("data: ", lines[0]);
      TokensOfData(lines[1..]);
      assert DataLines(lines)[1..] == DataLines(lines[1..]);
      assert DropCRs(lines)[1..] == DropCRs(lines[1..]);
    }
  }

  function IdTokens(id: Option<string>): seq<string> {
    if id.Some? then ["id: " + id.value] else []
  }

  function EventTokens(e: Event): seq<string> {
    IdTokens(Stripped(e).id) + (DataTokens(DropCRs(Split(e.payload))) + [""])
  }

  lemma TokensOfEvent(e: Event)
    requires Fits(e)
    ensures Printed(EventLines(e))
    ensures Tokens(EventLines(e)) == EventTokens(e)
  {
    var ids, data := IdLines(e.id), DataLines(Split(e.payload));
    TokensOfData(Split(e.payload));
    TokensOfConcat(ids, data + ["\n"]);
    TokensOfConcat(data, ["\n"]);
    TokensOfBlank();
    TokensOfId(e.id);
  }

  lemma TokensOfBlank()
    ensures Tokens(["\n"]) == [""]
  {
    assert Content("\n") == "";
    assert ["\n"][1..] == [];
  }

  lemma TokensOfId(id: Option<string>)
    requires id.Some? ==> '\n' !in id.value && |id.value| + 4 < MAX_MESSAGE_BYTES
    ensures Printed(IdLines(id))
    ensures Tokens(IdLines(id)) == if id.Some? then ["id: " + DropCR(id.value)] else []
  {
    if id.Some? {
      PrintedLine("id: ", id.value);
      assert IdLines(id)[1..] == [];
    }
  }

  // Reading back one event.

  lemma ReadsField(name: string, value: string)
    requires name != "" && ':' !in name
    ensures Field(name + ": " + value) == name
    ensures Value(name + ": " + value) == value
  {
    var line := name + ": " + value;
    var n := ColonIndex(line);
    assert line[|name|] == ':';
    assert forall k :: 0 <= k < |name| ==> line[k] == name[k];
    assert line[..|name|] == name;
    assert line[|name| + 1..] == " " + value;
    assert (" " + value)[1..] == value;
  }

  lemma ConsumeDataLine(c: Client, value: string, rest: seq<string>, failed: bool, p: Progress)
    requires Size(p.data) + |value| + 1 <= MAX_MESSAGE_BYTES
    ensures Consume(c, ["data: " + value] + rest, failed, p) ==
            Consume(c, rest, failed, p.(data := p.data + [value]))
  {
    ReadsField("data", value);
    assert "data: " + value == "data" + ": " + value;
    ConsumeLine(c, "data: " + value, rest, failed, p);
  }

  lemma {:induction false} ConsumeData(c: Client, lines: seq<string>, rest: seq<string>,
                                       failed: bool, p: Progress)
    requires Size(p.data) + Size(lines) <= MAX_MESSAGE_BYTES
    ensures Consume(c, DataTokens(lines) + rest, failed, p) ==
            Consume(c, rest, failed, p.(data := p.data + lines))
    decreases |lines|
  {
    if lines == [] {
      assert DataTokens(lines) + rest == rest;
      assert p.data + lines == p.data;
    } else {
      var tail, next := DataTokens(lines[1..]) + rest, p.(data := p.data + [lines[0]]);
      DataTokensCons(lines, rest);
      ConsumeDataLine(c, lines[0], tail, failed, p);
      SizeOfHead(p.data, lines);
      ConsumeData(c, lines[1..], rest, failed, next);
    }
  }

  lemma SizeOfHead(data: seq<string>, lines: seq<string>)
    requires lines != []
    ensures Size(data + [lines[0]]) + Size(lines[1..]) == Size(data) + Size(lines)
    ensures (data + [lines[0]]) + lines[1..] == data + lines
  {
    SizeOfConcat(data, [lines[0]]);
  }

  lemma DataTokensCons(lines: seq<string>, rest: seq<string>)
    requires lines != []
    ensures DataTokens(lines) + rest == ["data: " + lines[0]] + (DataTokens(lines[1..]) + rest)
  {
  }

  lemma ConsumeId(c: Client, id: Option<string>, rest: seq<string>, failed: bool, p: Progress)
    ensures Consume(c, IdTokens(id) + rest, failed, p) ==
            Consume(c, rest, failed,
                    p.(lastID := IdAfter(id, p.lastID)))
  {
    if id.Some? {
      ReadsField("id", id.value);
      assert "id: " + id.value == "id" + ": " + id.value;
      ConsumeLine(c, "id: " + id.value, rest, failed, p);
    } else {
      assert IdTokens(id) + rest == rest;
    }
  }

  lemma {:induction false} StrippedSize(lines: seq<string>)
    ensures Size(DropCRs(lines)) <= Size(lines)
  {
    if lines != [] { StrippedSize(lines[1..]); }
  }

  // Everything of the event but its blank line.
  lemma ConsumeFields(c: Client, e: Event, rest: seq<string>, lastID: string, sent: seq<string>)
    requires Fits(e)
    ensures Consume(c, EventTokens(e) + rest, false, Progress([], lastID, sent)) ==
            Consume(c, [""] + rest, false,
                    Progress(DropCRs(Split(e.payload)), IdAfter(Stripped(e).id, lastID), sent))
  {
    var ids, lines := IdTokens(Stripped(e).id), DropCRs(Split(e.payload));
    JoinUndoesSplit(e.payload);
    JoinedSize(Split(e.payload));
    StrippedSize(Split(e.payload));
    assert EventTokens(e) + rest == ids + (DataTokens(lines) + ([""] + rest));
    var p := Progress([], lastID, sent);
    ConsumeId(c, Stripped(e).id, DataTokens(lines) + ([""] + rest), false, p);
    ConsumeData(c, lines, [""] + rest, false, p.(lastID := IdAfter(Stripped(e).id, lastID)));
    assert [] + lines == lines;
  }

  /** What the reference does with one event, its id read. */
  function OnEvent(c: Client, payload: string, id: string, sent: seq<string>): Move {
    OnBlank(c, Progress([payload], id, sent))
  }

  lemma ReadsEvent(c: Client, e: Event, rest: seq<string>, lastID: string, sent: seq<string>)
    requires Fits(e)
    ensures var m := OnEvent(c, Stripped(e).payload, IdAfter(Stripped(e).id, lastID), sent);
            Consume(c, EventTokens(e) + rest, false, Progress([], lastID, sent)) ==
            if m.stop.Some? then Ending(m) else Consume(c, rest, false, m.next)
  {
    ConsumeFields(c, e, rest, lastID, sent);
    ConsumeLine(c, "", rest, false, Progress(DropCRs(Split(e.payload)), IdAfter(Stripped(e).id, lastID), sent));
  }

  lemma DeliversEvent(c: Client, e: Event, rest: seq<Event>, lastID: string, sent: seq<string>)
    ensures var m := OnEvent(c, e.payload, IdAfter(e.id, lastID), sent);
            Deliver(c, [e] + rest, lastID, sent) ==
            if m.stop.Some? then Ending(m) else Deliver(c, rest, m.next.lastID, m.next.sent)
    ensures OnEvent(c, e.payload, IdAfter(e.id, lastID), sent).stop.None? ==>
              OnEvent(c, e.payload, IdAfter(e.id, lastID), sent).next.data == []
  {
    assert ([e] + rest)[1..] == rest;
  }

  lemma {:induction false} ReadsEvents(c: Client, events: seq<Event>, lastID: string, sent: seq<string>)
    requires forall i :: 0 <= i < |events| ==> Fits(events[i])
    ensures Consume(c, Tokens(StreamLines(events)), false, Progress([], lastID, sent)) ==
            Deliver(c, StrippedAll(events), lastID, sent)
    decreases |events|
  {
    if events != [] {
      var e, tail := events[0], events[1..];
      var m := OnEvent(c, Stripped(e).payload, IdAfter(Stripped(e).id, lastID), sent);
      TokensOfEvent(e);
      TokensOfConcat(EventLines(e), StreamLines(tail));
      ReadsEvent(c, e, Tokens(StreamLines(tail)), lastID, sent);
      DeliversEvent(c, Stripped(e), StrippedAll(tail), lastID, sent);
      if m.stop.None? { ReadsEvents(c, tail, m.next.lastID, m.next.sent); }
    }
  }

  lemma {:induction false} PrintsLines(events: seq<Event>)
    requires forall i :: 0 <= i < |events| ==> Fits(events[i])
    ensures Printed(StreamLines(events))
  {
    if events != [] {
      TokensOfEvent(events[0]);
      PrintsLines(events[1..]);
    }
  }

  lemma PrintedDoesNotOverflow(lines: seq<string>)
    requires Printed(lines)
    ensures !Overflows(lines) && WellFormed(lines)
  {
  }

  /** Reading a printed stream delivers its events in order, as the reference does, except that every payload
      line and every id has lost a final carriage return. */
  lemma ParseOfPrint(c: Client, events: seq<Event>)
    requires forall i :: 0 <= i < |events| ==> Fits(events[i])
    ensures Read(c, Render(events), false) == Deliver(c, StrippedAll(events), "", [])
  {
    ReadsEvents(c, events, "", []);
    PrintsLines(events);
    PrintedDoesNotOverflow(StreamLines(events));
    LinesOfText(StreamLines(events));
  }

  // When the round trip is exact.

  predicate EndsCR(s: string) {
    s != "" && s[|s| - 1] == '\r'
  }

  predicate KeepsLines(lines: seq<string>) {
    forall i :: 0 <= i < |lines| ==> !EndsCR(lines[i])
  }

  /** No payload line and no id ends with a carriage return. */
  predicate Exact(e: Event) {
    KeepsLines(Split(e.payload)) && (e.id.Some? ==> !EndsCR(e.id.value))
  }

  lemma {:induction false} DroppedSize(lines: seq<string>)
    ensures Size(DropCRs(lines)) <= Size(lines)
    ensures Size(DropCRs(lines)) == Size(lines) <==> KeepsLines(lines)
    ensures KeepsLines(lines) ==> DropCRs(lines) == lines
  {
    if lines != [] {
      DroppedSize(lines[1..]);
      assert lines == [lines[0]] + lines[1..];
    }
  }

  lemma StrippedIsIdentityIff(e: Event)
    ensures Stripped(e) == e <==> Exact(e)
    ensures Stripped(e).payload == e.payload <==> KeepsLines(Split(e.payload))
  {
    JoinUndoesSplit(e.payload);
    JoinedSize(Split(e.payload));
    JoinedSize(DropCRs(Split(e.payload)));
    DroppedSize(Split(e.payload));
  }

  lemma {:induction false} StrippedAllIsIdentity(events: seq<Event>)
    requires forall i :: 0 <= i < |events| ==> Exact(events[i])
    ensures StrippedAll(events) == events
  {
    if events != [] {
      StrippedIsIdentityIff(events[0]);
      StrippedAllIsIdentity(events[1..]);
    }
  }

  predicate AllDeliverable(c: Client, events: seq<Event>) {
    forall i :: 0 <= i < |events| ==> events[i].payload != "" && c.parse(events[i].payload).Some?
  }

  /** The events delivered: all of them, or those up to the first that answers. */
  function DeliveredEvents(c: Client, events: seq<Event>): (r: seq<Event>)
    requires AllDeliverable(c, events)
    ensures r <= events
    ensures forall i :: 0 <= i < |r| - 1 ==> !Answers(c.parse(r[i].payload).value, c.awaited)
    ensures r == events || (r != [] && Answers(c.parse(r[|r| - 1].payload).value, c.awaited))
    decreases |events|
  {
    if events == [] || Answers(c.parse(events[0].payload).value, c.awaited) then events[..if events == [] then 0 else 1]
    else [events[0]] + DeliveredEvents(c, events[1..])
  }

  predicate IsAnswered(c: Client, events: seq<Event>) {
    exists i :: 0 <= i < |events| && c.parse(events[i].payload).Some? &&
      Answers(c.parse(events[i].payload).value, c.awaited)
  }

  function Payloads(events: seq<Event>): (r: seq<string>)
    ensures |r| == |events| && forall i :: 0 <= i < |r| ==> r[i] == events[i].payload
  {
    if events == [] then [] else [events[0].payload] + Payloads(events[1..])
  }

  function LastEventID(events: seq<Event>, before: string): string
    decreases |events|
  {
    if events == [] then before else LastEventID(events[1..], IdAfter(events[0].id, before))
  }

  lemma AnsweredInTail(c: Client, events: seq<Event>)
    requires events != [] && c.parse(events[0].payload).Some? && !Answers(c.parse(events[0].payload).value, c.awaited)
    ensures IsAnswered(c, events) <==> IsAnswered(c, events[1..])
  {
    var tail := events[1..];
    assert forall i :: 0 < i < |events| ==> events[i] == tail[i - 1];
    assert forall i :: 0 <= i < |tail| ==> tail[i] == events[i + 1];
  }

  lemma DeliveredSplit(c: Client, events: seq<Event>)
    requires AllDeliverable(c, events) && events != []
    ensures AllDeliverable(c, events[1..])
    ensures DeliveredEvents(c, events) ==
            [events[0]] + if Answers(c.parse(events[0].payload).value, c.awaited) then []
                          else DeliveredEvents(c, events[1..])
  {
  }

  lemma DeliversNext(c: Client, events: seq<Event>, lastID: string, sent: seq<string>)
    requires TakesAll(c) && AllDeliverable(c, events) && events != []
    ensures var e := events[0];
            Deliver(c, events, lastID, sent) ==
            if Answers(c.parse(e.payload).value, c.awaited) then
              Outcome(IdAfter(e.id, lastID), sent + [e.payload], Answered)
            else Deliver(c, events[1..], IdAfter(e.id, lastID), sent + [e.payload])
  {
  }

  lemma {:induction false} DeliversInOrder(c: Client, events: seq<Event>, lastID: string, sent: seq<string>)
    requires TakesAll(c) && AllDeliverable(c, events)
    ensures Deliver(c, events, lastID, sent).sent == sent + Payloads(DeliveredEvents(c, events))
    ensures Deliver(c, events, lastID, sent).lastID == LastEventID(DeliveredEvents(c, events), lastID)
    decreases |events|
  {
    if events != [] {
      var e, tail := events[0], events[1..];
      DeliversNext(c, events, lastID, sent);
      DeliveredSplit(c, events);
      if Answers(c.parse(e.payload).value, c.awaited) {
        DeliveredCons(e, [], lastID, sent);
      } else {
        DeliveredCons(e, DeliveredEvents(c, tail), lastID, sent);
        DeliversInOrder(c, tail, IdAfter(e.id, lastID), sent + [e.payload]);
      }
    }
  }

  lemma DeliveredCons(e: Event, rest: seq<Event>, lastID: string, sent: seq<string>)
    ensures sent + Payloads([e] + rest) == (sent + [e.payload]) + Payloads(rest)
    ensures LastEventID([e] + rest, lastID) == LastEventID(rest, IdAfter(e.id, lastID))
  {
    assert ([e] + rest)[1..] == rest;
    Associates(sent, [e.payload], Payloads(rest));
  }

  lemma {:induction false} DeliversToTheAnswer(c: Client, events: seq<Event>, lastID: string, sent: seq<string>)
    requires TakesAll(c) && AllDeliverable(c, events)
    ensures Deliver(c, events, lastID, sent).status ==
            if IsAnswered(c, events) then Answered else if c.awaited != "" then Unanswered else Ended
    decreases |events|
  {
    if events != [] {
      DeliversNext(c, events, lastID, sent);
      if !Answers(c.parse(events[0].payload).value, c.awaited) {
        AnsweredInTail(c, events);
        DeliversToTheAnswer(c, events[1..], IdAfter(events[0].id, lastID), sent + [events[0].payload]);
      }
    }
  }

  /** Printing then reading: exactly the payloads, in order, up to the awaited answer, and the last id. */
  lemma RoundTrip(c: Client, events: seq<Event>)
    requires TakesAll(c) && AllDeliverable(c, events)
    requires forall i :: 0 <= i < |events| ==> Fits(events[i]) && Exact(events[i])
    ensures var r, delivered := Read(c, Render(events), false), DeliveredEvents(c, events);
            && r.sent == Payloads(delivered)
            && r.lastID == LastEventID(delivered, "")
            && r.status == (if IsAnswered(c, events) then Answered
                            else if c.awaited != "" then Unanswered else Ended)
  {
    ParseOfPrint(c, events);
    StrippedAllIsIdentity(events);
    DeliversInOrder(c, events, "", []);
    DeliversToTheAnswer(c, events, "", []);
  }

  /** Reading ends as answered exactly when some message is the response to the awaited request; a request of the peer
      with the same id is not. */
  lemma AnsweredIff(c: Client, events: seq<Event>)
    requires TakesAll(c) && AllDeliverable(c, events)
    requires forall i :: 0 <= i < |events| ==> Fits(events[i]) && Exact(events[i])
    ensures Read(c, Render(events), false).status == Answered <==>
            c.awaited != "" && exists e :: e in events && c.parse(e.payload) == Some(Message("", c.awaited))
  {
    RoundTrip(c, events);
    forall i | 0 <= i < |events|
      ensures c.parse(events[i].payload).Some?
      ensures Answers(c.parse(events[i].payload).value, c.awaited) <==>
              c.awaited != "" && c.parse(events[i].payload) == Some(Message("", c.awaited))
    {
    }
    if IsAnswered(c, events) {
      var i :| 0 <= i < |events| && c.parse(events[i].payload).Some? &&
               Answers(c.parse(events[i].payload).value, c.awaited);
      assert events[i] in events;
    }
  }

  /** The events whose payloads the scanner leaves alone. */
  predicate AllKeepLines(events: seq<Event>) {
    forall i :: 0 <= i < |events| ==> KeepsLines(Split(events[i].payload))
  }

  // One event more at the front; `s` is what the scanner leaves of e.
  lemma SamePayloadsStep(e: Event, rest: seq<Event>, s: Event, strippedRest: seq<Event>)
    requires s.payload == e.payload <==> KeepsLines(Split(e.payload))
    ensures Payloads([s] + strippedRest) == Payloads([e] + rest) <==>
            KeepsLines(Split(e.payload)) && Payloads(strippedRest) == Payloads(rest)
    ensures AllKeepLines([e] + rest) <==> KeepsLines(Split(e.payload)) && AllKeepLines(rest)
  {
    DeliveredCons(e, rest, "", []);
    DeliveredCons(s, strippedRest, "", []);
    var all, events := Payloads([s] + strippedRest), [e] + rest;
    assert all[0] == s.payload && all[1..] == Payloads(strippedRest);
    assert Payloads(events)[0] == e.payload && Payloads(events)[1..] == Payloads(rest);
    assert events[0] == e && forall i :: 0 <= i < |rest| ==> events[i + 1] == rest[i];
  }

  lemma {:induction false} SamePayloadsIff(c: Client, events: seq<Event>)
    requires AllDeliverable(c, events) && AllDeliverable(c, StrippedAll(events))
    ensures Payloads(DeliveredEvents(c, StrippedAll(events))) == Payloads(DeliveredEvents(c, events)) <==>
            AllKeepLines(DeliveredEvents(c, events))
    decreases |events|
  {
    if events != [] {
      var e, s, tail := events[0], Stripped(events[0]), events[1..];
      assert StrippedAll(events)[1..] == StrippedAll(tail);
      StrippedIsIdentityIff(e);
      DeliveredSplit(c, events);
      DeliveredSplit(c, StrippedAll(events));
      var rest := if Answers(c.parse(e.payload).value, c.awaited) then [] else DeliveredEvents(c, tail);
      var left := if Answers(c.parse(s.payload).value, c.awaited) then [] else DeliveredEvents(c, StrippedAll(tail));
      SamePayloadsStep(e, rest, s, left);
      SamePayloadsIff(c, tail);
    }
  }

  /** A whole stream arrives unchanged exactly when no line of what is delivered ends with a carriage return. */
  lemma StreamUnchangedIff(c: Client, events: seq<Event>)
    requires TakesAll(c) && forall i :: 0 <= i < |events| ==> Fits(events[i])
    requires AllDeliverable(c, events) && AllDeliverable(c, StrippedAll(events))
    ensures Read(c, Render(events), false).sent == Payloads(DeliveredEvents(c, events)) <==>
            AllKeepLines(DeliveredEvents(c, events))
  {
    ParseOfPrint(c, events);
    DeliversInOrder(c, StrippedAll(events), "", []);
    SamePayloadsIff(c, events);
  }

  /** The premise on carriage returns is needed: a message arrives unchanged exactly when no line of it ends with
      one. */
  lemma DeliveredUnchangedIff(c: Client, payload: string)
    requires TakesAll(c) && payload != "" && c.parse(payload).Some? && Fits(Event(payload, None))
    ensures Read(c, Render([Event(payload, None)]), false).sent == [payload] <==> KeepsLines(Split(payload))
  {
    var e := Event(payload, None);
    ParseOfPrint(c, [e]);
    StrippedIsIdentityIff(e);
    assert StrippedAll([e]) == [Stripped(e)];
    DeliversOne(c, Stripped(e));
  }

  lemma DeliversOne(c: Client, e: Event)
    requires TakesAll(c)
    ensures Deliver(c, [e], "", []).sent == if e.payload != "" && c.parse(e.payload).Some? then [e.payload] else []
  {
    DeliversEvent(c, e, [], "", []);
    assert [e] + [] == [e];
  }

  lemma CarriageReturnIsLost(c: Client)
    requires TakesAll(c) && c.parse("{\r\n}").Some?
    ensures Read(c, Render([Event("{\r\n}", None)]), false).sent != ["{\r\n}"]
  {
    var payload := "{\r\n}";
    var first, rest := "{\r\n", "}";
    assert payload == first + rest;
    FirstLine(first, rest);
    assert payload[..2] == "{\r" && payload[3..] == "}";
    assert '\n' == payload[2];
    assert Split(payload) == ["{\r"] + Split("}");
    assert EndsCR(Split(payload)[0]);
    DeliveredUnchangedIff(c, payload);
  }

  // Other ways to write the same stream.

  /** Lines that mean the same to the reader are interchangeable. */
  lemma {:induction false} SameLineReadsTheSame(c: Client, before: seq<string>, x: string, y: string,
                                                after: seq<string>, failed: bool, p: Progress)
    requires forall q :: OnLine(c, x, q) == OnLine(c, y, q)
    ensures Consume(c, before + [x] + after, failed, p) == Consume(c, before + [y] + after, failed, p)
    decreases |before|
  {
    if before == [] {
      assert before + [x] + after == [x] + after && before + [y] + after == [y] + after;
      ConsumeLine(c, x, after, failed, p);
      ConsumeLine(c, y, after, failed, p);
    } else {
      var m := OnLine(c, before[0], p);
      assert (before + [x] + after)[1..] == before[1..] + [x] + after;
      assert (before + [y] + after)[1..] == before[1..] + [y] + after;
      if m.stop.None? { SameLineReadsTheSame(c, before[1..], x, y, after, failed, m.next); }
    }
  }

  /** Lines that mean nothing to it may be left out. */
  lemma {:induction false} IdleLineIsSkipped(c: Client, before: seq<string>, x: string, after: seq<string>,
                                             failed: bool, p: Progress)
    requires forall q :: OnLine(c, x, q) == Move(None, q)
    ensures Consume(c, before + [x] + after, failed, p) == Consume(c, before + after, failed, p)
    decreases |before|
  {
    if before == [] {
      assert before + [x] + after == [x] + after && before + after == after;
      ConsumeLine(c, x, after, failed, p);
    } else {
      var m := OnLine(c, before[0], p);
      assert (before + [x] + after)[1..] == before[1..] + [x] + after;
      assert (before + after)[1..] == before[1..] + after;
      if m.stop.None? { IdleLineIsSkipped(c, before[1..], x, after, failed, m.next); }
    }
  }

  /** Comments and the fields of other names are skipped, wherever they stand. */
  lemma OtherFieldsAreSkipped(c: Client, before: seq<string>, name: string, value: string, after: seq<string>,
                              failed: bool, p: Progress)
    requires ':' !in name && name != "data" && name != "id"
    ensures Consume(c, before + [name + ":" + value] + after, failed, p) == Consume(c, before + after, failed, p)
  {
    FieldAndValue(name, value);
    IdleLineIsSkipped(c, before, name + ":" + value, after, failed, p);
  }

  lemma FieldAndValue(name: string, value: string)
    requires ':' !in name
    ensures Field(name + ":" + value) == name
    ensures Value(name + ":" + value) == if value != "" && value[0] == ' ' then value[1..] else value
    ensures Field(name) == name && Value(name) == ""
  {
    var line := name + ":" + value;
    var n := ColonIndex(line);
    assert line[|name|] == ':';
    assert forall k :: 0 <= k < |name| ==> line[k] == name[k];
    assert line[..|name|] == name;
    assert line[|name| + 1..] == value;
  }

  /** One space after the colon is optional. */
  lemma SpaceIsOptional(c: Client, before: seq<string>, name: string, value: string, after: seq<string>,
                        failed: bool, p: Progress)
    requires ':' !in name && (value != "" ==> value[0] != ' ')
    ensures Consume(c, before + [name + ":" + value] + after, failed, p) ==
            Consume(c, before + [name + ": " + value] + after, failed, p)
  {
    FieldAndValue(name, value);
    FieldAndValue(name, " " + value);
    assert name + ":" + (" " + value) == name + ": " + value;
    SameLineReadsTheSame(c, before, name + ":" + value, name + ": " + value, after, failed, p);
  }

  /** And so is the colon of an empty field. */
  lemma ColonIsOptional(c: Client, before: seq<string>, name: string, after: seq<string>, failed: bool, p: Progress)
    requires name != "" && ':' !in name
    ensures Consume(c, before + [name] + after, failed, p) == Consume(c, before + [name + ":"] + after, failed, p)
  {
    FieldAndValue(name, "");
    assert name + ":" + "" == name + ":";
    SameLineReadsTheSame(c, before, name, name + ":", after, failed, p);
  }

  // When the peer stops taking messages.

  function Unlimited(): seq<string> -> bool {
    sent => true
  }

  ghost predicate Accepted(c: Client, sent: seq<string>) {
    forall k :: 0 <= k <= |sent| ==> c.accepts(sent[..k])
  }

  lemma {:induction false} SentGrows(c: Client, tokens: seq<string>, failed: bool, p: Progress)
    ensures p.sent <= Consume(c, tokens, failed, p).sent
    decreases |tokens|
  {
    if tokens != [] { SentGrows(c, tokens[1..], failed, OnLine(c, tokens[0], p).next); }
  }

  /** r is what the peer of `c` gets of `full`. */
  ghost predicate CutShort(c: Client, r: Outcome, full: Outcome) {
    && Accepted(c, r.sent)
    && (if r.status.Unwritten? then Attempted(r) <= full.sent && !c.accepts(Attempted(r)) else r == full)
  }

  lemma StopOfUnlimited(c: Client, line: string, p: Progress)
    requires Accepted(c, p.sent)
    ensures var m, free := OnLine(c, line, p), OnLine(c.(accepts := Unlimited()), line, p);
            if m.stop.Some? && m.stop.value.Unwritten? then
              && m.next == p && !c.accepts(p.sent + [m.stop.value.payload])
              && free.next.sent == p.sent + [m.stop.value.payload]
            else m == free && Accepted(c, m.next.sent)
  {
    var payload := Join(p.data);
    var more := p.sent + [payload];
    assert forall k :: 0 <= k <= |p.sent| ==> more[..k] == p.sent[..k];
    assert more[..|more|] == more;
  }

  lemma {:induction false} ConsumeCutShort(c: Client, tokens: seq<string>, failed: bool, p: Progress)
    requires Accepted(c, p.sent)
    ensures CutShort(c, Consume(c, tokens, failed, p), Consume(c.(accepts := Unlimited()), tokens, failed, p))
    decreases |tokens|
  {
    if tokens != [] {
      var free := c.(accepts := Unlimited());
      var m, u := OnLine(c, tokens[0], p), OnLine(free, tokens[0], p);
      StopOfUnlimited(c, tokens[0], p);
      if m.stop.None? {
        ConsumeCutShort(c, tokens[1..], failed, m.next);
      } else if m.stop.value.Unwritten? {
        SentGrows(free, tokens[1..], failed, u.next);
      }
    }
  }

  /** A peer that stops taking messages has got those before the one it did not take, and nothing else changes; the
      reading ends with that failure exactly when the peer does not take all that would be passed on. */
  lemma FailedWriteCutsShort(c: Client, body: string, broken: bool)
    requires c.accepts([])
    ensures var r, full := Read(c, body, broken), Read(c.(accepts := Unlimited()), body, broken);
            CutShort(c, r, full) && (r.status.Unwritten? <==> !Accepted(c, full.sent))
  {
    ConsumeCutShort(c, Tokens(Lines(body)), broken || Overflows(Lines(body)), START);
    var r, full := Read(c, body, broken), Read(c.(accepts := Unlimited()), body, broken);
    if r.status.Unwritten? { assert full.sent[..|Attempted(r)|] == Attempted(r); }
  }

  function WireLines(compact: string -> string, sent: seq<string>): seq<string> {
    seq(|sent|, i requires 0 <= i < |sent| => compact(sent[i]) + "\n")
  }

  lemma {:induction false} WireIsLines(compact: string -> string, sent: seq<string>)
    ensures Wire(compact, sent) == Text(WireLines(compact, sent))
    decreases |sent|
  {
    if sent != [] {
      var front, last := sent[..|sent| - 1], compact(sent[|sent| - 1]) + "\n";
      WireIsLines(compact, front);
      TextOfConcat(WireLines(compact, front), [last]);
      assert WireLines(compact, sent) == WireLines(compact, front) + [last];
      assert Text([last]) == last;
    }
  }

  /** The peer finds one message on every line. */
  lemma OneMessagePerLine(compact: string -> string, sent: seq<string>)
    requires forall m <- sent :: '\n' !in compact(m)
    ensures Lines(Wire(compact, sent)) == WireLines(compact, sent)
  {
    WireIsLines(compact, sent);
    var lines := WireLines(compact, sent);
    forall i | 0 <= i < |lines| ensures IsLine(lines[i]) {
      assert lines[i][..|lines[i]| - 1] == compact(sent[i]);
    }
    LinesOfText(lines);
  }

  // The cursor for reconnecting.

  predicate IsId(token: string) {
    token != "" && Field(token) == "id" && '\0' !in Value(token)
  }

  /** The value of the last valid id field. */
  function LastId(tokens: seq<string>): Option<string> {
    if tokens == [] then None
    else
      var last := tokens[|tokens| - 1];
      if IsId(last) then Some(Value(last)) else LastId(tokens[..|tokens| - 1])
  }

  function OrElse(o: Option<string>, default: string): string {
    if o.Some? then o.value else default
  }

  lemma {:induction false} LastIdOfConcat(a: seq<string>, b: seq<string>)
    ensures LastId(a + b) == if LastId(b).Some? then LastId(b) else LastId(a)
    decreases |b|
  {
    if b == [] {
      assert a + b == a;
    } else {
      assert (a + b)[..|a + b| - 1] == a + b[..|b| - 1];
      LastIdOfConcat(a, b[..|b| - 1]);
    }
  }

  predicate ReadToEnd(r: Outcome) {
    r.status == Ended || r.status == Unanswered || r.status == BrokenOff
  }

  lemma LineKeepsLastId(c: Client, line: string, p: Progress)
    ensures var m := OnLine(c, line, p);
            if m.stop.Some? then !ReadToEnd(Ending(m)) else m.next.lastID == if IsId(line) then Value(line)
              else p.lastID
  {
  }

  lemma LastIdOfCons(line: string, rest: seq<string>, before: string)
    ensures OrElse(LastId([line] + rest), before) == OrElse(LastId(rest), if IsId(line) then Value(line) else before)
  {
    LastIdOfConcat([line], rest);
    assert [line][..0] == [];
  }

  lemma {:induction false} ConsumeKeepsLastId(c: Client, tokens: seq<string>, failed: bool, p: Progress)
    ensures var r := Consume(c, tokens, failed, p);
            ReadToEnd(r) ==> r.lastID == OrElse(LastId(tokens), p.lastID)
    decreases |tokens|
  {
    if tokens != [] {
      var line, rest := tokens[0], tokens[1..];
      LineKeepsLastId(c, line, p);
      LastIdOfCons(line, rest, p.lastID);
      assert tokens == [line] + rest;
      ConsumeKeepsLastId(c, rest, failed, OnLine(c, line, p).next);
    }
  }

  /** The events that end with a blank line; the standard takes ids only from those. */
  function Completed(tokens: seq<string>): (r: seq<string>)
    ensures r <= tokens
  {
    if tokens == [] || tokens[|tokens| - 1] == "" then tokens else Completed(tokens[..|tokens| - 1])
  }

  lemma LastIdIsOfCompletedIff(tokens: seq<string>)
    ensures var completed := Completed(tokens);
            var id := OrElse(LastId(completed), "");
            OrElse(LastId(tokens), "") == id <==> OrElse(LastId(tokens[|completed|..]), id) == id
  {
    var completed := Completed(tokens);
    LastIdOfConcat(completed, tokens[|completed|..]);
    assert tokens == completed + tokens[|completed|..];
  }

  /** The returned cursor is the id of the last completed event exactly when the unfinished tail of the stream has no
      other id: a stream cut off inside an event leaves a cursor beyond what was delivered. */
  lemma CursorIsOfCompletedEventsIff(c: Client, body: string, broken: bool)
    requires ReadToEnd(Read(c, body, broken))
    ensures var tokens := Tokens(Lines(body));
            var completed := Completed(tokens);
            var tail := tokens[|completed|..];
            var id := OrElse(LastId(completed), "");
            Read(c, body, broken).lastID == id <==> OrElse(LastId(tail), id) == id
  {
    ConsumeKeepsLastId(c, Tokens(Lines(body)), broken || Overflows(Lines(body)), START);
    LastIdIsOfCompletedIff(Tokens(Lines(body)));
  }

  lemma ScansIdOnly(id: string)
    requires id != "" && !EndsCR(id) && '\n' !in id && |id| + 4 < MAX_MESSAGE_BYTES
    ensures Tokens(Lines("id: " + id + "\n")) == ["id: " + id] && !Overflows(Lines("id: " + id + "\n"))
  {
    var lines := IdLines(Some(id));
    TokensOfId(Some(id));
    PrintedDoesNotOverflow(lines);
    LinesOfText(lines);
    TextCons(lines[0], []);
    assert lines == [lines[0]] + [] && lines[0] + "" == lines[0];
  }

  lemma CutOffAfterId(c: Client, id: string)
    requires id != "" && !EndsCR(id) && '\n' !in id && '\0' !in id && |id| + 4 < MAX_MESSAGE_BYTES
    ensures Read(c, "id: " + id + "\n", false).lastID == id
    ensures Completed(Tokens(Lines("id: " + id + "\n"))) == []
  {
    ScansIdOnly(id);
    ConsumeId(c, Some(id), [], false, START);
    assert IdTokens(Some(id)) + [] == ["id: " + id];
  }

  /** A stream cut off right after its id: no event was completed, yet the id becomes the cursor. */
  lemma CutOffIdIsKept(c: Client)
    ensures Read(c, "id: 7\n", false).lastID == "7"
    ensures Completed(Tokens(Lines("id: 7\n"))) == []
  {
    CutOffAfterId(c, "7");
    assert "id: " + "7" + "\n" == "id: 7\n";
  }

  /** `listen` keeps its cursor over a stream that returned no id. */
  function CursorAfter(ids: seq<string>): string {
    if ids == [] then ""
    else if ids[|ids| - 1] != "" then ids[|ids| - 1] else CursorAfter(ids[..|ids| - 1])
  }

  /** The cursor sent on reconnecting is the id of the latest stream that had one. */
  lemma {:induction false} CursorIsLatest(ids: seq<string>, k: nat)
    requires k < |ids| && ids[k] != ""
    requires forall i :: k < i < |ids| ==> ids[i] == ""
    ensures CursorAfter(ids) == ids[k]
    decreases |ids|
  {
    if k < |ids| - 1 { CursorIsLatest(ids[..|ids| - 1], k); }
  }
}
