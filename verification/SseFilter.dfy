/** The stream filter of the SSE bridge: copies an event stream without the blocks that announce an endpoint. */
module SseFilter {
  import opened Wrappers
  import opened Collections
  import opened GoStrings

  const EVENT := "event:"
  const ENDPOINT := "endpoint"
  const MESSAGE := "message"

  // Lines keep their line feed, as `ReadString('\n')` returns them; only the last one may lack it.

  predicate IsLine(l: string) {
    l != "" && l[|l| - 1] == '\n' && '\n' !in l[..|l| - 1]
  }

  predicate IsFragment(l: string) {
    l != "" && '\n' !in l
  }

  /** The length of the first line, its line feed included. */
  function LineLength(s: string): (n: nat)
    requires s != ""
    ensures 0 < n <= |s|
    ensures IsLine(s[..n]) || (n == |s| && IsFragment(s))
  {
    if s[0] == '\n' then 1
    else if |s| == 1 then 1
    else
      var n := 1 + LineLength(s[1..]);
      assert s[..n] == [s[0]] + s[1..][..n - 1];
      assert s == [s[0]] + s[1..];
      assert IsLine(s[1..][..n - 1]) ==> s[..n][..n - 1] == [s[0]] + s[1..][..n - 2];
      n
  }

  function Lines(s: string): seq<string>
    decreases |s|
  {
    if s == "" then [] else [s[..LineLength(s)]] + Lines(s[LineLength(s)..])
  }

  function Text(lines: seq<string>): string {
    if lines == [] then "" else lines[0] + Text(lines[1..])
  }

  predicate WellFormed(lines: seq<string>) {
    && (forall i :: 0 <= i < |lines| - 1 ==> IsLine(lines[i]))
    && (lines != [] ==> IsLine(lines[|lines| - 1]) || IsFragment(lines[|lines| - 1]))
  }

  predicate IsBlank(line: string) {
    line == "\n" || line == "\r\n"
  }

  /** The length of the first block: up to and including the first blank line, or everything. */
  function BlockLength(lines: seq<string>): (n: nat)
    requires lines != []
    ensures 0 < n <= |lines|
    ensures forall i :: 0 <= i < n - 1 ==> !IsBlank(lines[i])
    ensures n < |lines| ==> IsBlank(lines[n - 1])
  {
    if IsBlank(lines[0]) || |lines| == 1 then 1 else 1 + BlockLength(lines[1..])
  }

  function Blocks(lines: seq<string>): seq<seq<string>> {
    if lines == [] then [] else [lines[..BlockLength(lines)]] + Blocks(lines[BlockLength(lines)..])
  }

  /** The name of the last event field of a block. */
  function EventName(block: seq<string>): string {
    if block == [] then MESSAGE
    else
      var last := block[|block| - 1];
      if HasPrefix(last, EVENT) then TrimSpace(TrimPrefix(last, EVENT)) else EventName(block[..|block| - 1])
  }

  predicate Kept(block: seq<string>) {
    EventName(block) != ENDPOINT
  }

  predicate NamesEvent(line: string) {
    HasPrefix(line, EVENT)
  }

  /** The line names the event, with white space around the name. */
  ghost predicate AnnouncesEndpoint(line: string) {
    NamesEvent(line) && exists pre, post :: TrimsTo(line[|EVENT|..], pre, ENDPOINT, post)
  }

  /** A block is dropped exactly when the last of its lines that names the event names it `endpoint`. */
  lemma {:induction false} DroppedIff(block: seq<string>)
    ensures !Kept(block) <==> exists i :: 0 <= i < |block| && AnnouncesEndpoint(block[i])
                                          && forall j :: i < j < |block| ==> !NamesEvent(block[j])
    decreases |block|
  {
    if block != [] {
      var front, last := block[..|block| - 1], block[|block| - 1];
      TrimSpaceIff(TrimPrefix(last, EVENT), ENDPOINT);
      DroppedIff(front);
      assert forall i :: 0 <= i < |front| ==> front[i] == block[i];
    }
  }

  function Select(blocks: seq<seq<string>>): seq<seq<string>> {
    if blocks == [] then []
    else (if Kept(blocks[0]) then [blocks[0]] else []) + Select(blocks[1..])
  }

  function Flatten(blocks: seq<seq<string>>): seq<string> {
    if blocks == [] then [] else blocks[0] + Flatten(blocks[1..])
  }

  function Output(lines: seq<string>): string {
    Text(Flatten(Select(Blocks(lines))))
  }

  /** The specification: the input without its endpoint blocks. */
  function Filtered(s: string): string {
    Output(Lines(s))
  }

  predicate IsClosed(lines: seq<string>) {
    lines == [] || IsBlank(lines[|lines| - 1])
  }

  // Everything up to the last blank line: the blocks that are certainly complete.
  function Closed(lines: seq<string>): (r: seq<string>)
    ensures r <= lines
    ensures IsClosed(r)
    ensures forall i :: |r| <= i < |lines| ==> !IsBlank(lines[i])
  {
    if lines == [] || IsBlank(lines[|lines| - 1]) then lines else Closed(lines[..|lines| - 1])
  }

  // Text and lines.

  lemma {:induction false} TextOfConcat(a: seq<string>, b: seq<string>)
    ensures Text(a + b) == Text(a) + Text(b)
  {
    if a == [] {
      assert a + b == b;
    } else {
      var rest := a[1..] + b;
      TextOfConcat(a[1..], b);
      assert a + b == [a[0]] + rest;
      TextCons(a[0], rest);
      Associates(a[0], Text(a[1..]), Text(b));
    }
  }

  predicate AllLines(lines: seq<string>) {
    forall i :: 0 <= i < |lines| ==> IsLine(lines[i])
  }

  lemma WellFormedConcat(a: seq<string>, b: seq<string>)
    ensures WellFormed(a + b) <==> if b == [] then WellFormed(a) else AllLines(a) && WellFormed(b)
  {
    var s := a + b;
    if b == [] {
      assert s == a;
    } else {
      assert forall i :: 0 <= i < |a| ==> s[i] == a[i];
      assert forall i :: 0 <= i < |b| ==> b[i] == s[|a| + i];
    }
  }

  /** Splitting loses nothing. */
  lemma {:induction false} LinesAreExact(s: string)
    ensures Text(Lines(s)) == s
    ensures WellFormed(Lines(s))
    decreases |s|
  {
    if s != "" {
      var n := LineLength(s);
      LinesAreExact(s[n..]);
      TextCons(s[..n], Lines(s[n..]));
      assert s == s[..n] + s[n..];
      FirstIsWellFormed(s);
    }
  }

  lemma FirstIsWellFormed(s: string)
    requires s != "" && WellFormed(Lines(s[LineLength(s)..]))
    ensures WellFormed([s[..LineLength(s)]] + Lines(s[LineLength(s)..]))
  {
    var n := LineLength(s);
    assert s[n..] != "" ==> AllLines([s[..n]]);
    WellFormedConcat([s[..n]], Lines(s[n..]));
  }

  lemma TextCons(first: string, lines: seq<string>)
    ensures Text([first] + lines) == first + Text(lines)
  {
    assert ([first] + lines)[1..] == lines;
  }

  lemma FirstLine(l: string, rest: string)
    requires IsLine(l) || (IsFragment(l) && rest == "")
    ensures LineLength(l + rest) == |l|
  {
    var s := l + rest;
    var n := LineLength(s);
    assert s[|l| - 1] == l[|l| - 1];
    assert forall k :: 0 <= k < |l| - 1 ==> l[..|l| - 1][k] == s[k];
  }

  /** Well-formed lines are recovered from their text. */
  lemma {:induction false} LinesOfText(lines: seq<string>)
    requires WellFormed(lines)
    ensures Lines(Text(lines)) == lines
  {
    if lines != [] {
      var rest := Text(lines[1..]);
      LinesOfText(lines[1..]);
      FirstLine(lines[0], rest);
      assert (lines[0] + rest)[|lines[0]|..] == rest;
      assert lines == [lines[0]] + lines[1..];
    }
  }

  // Blocks.

  predicate IsBlock(b: seq<string>) {
    b != [] && forall i :: 0 <= i < |b| - 1 ==> !IsBlank(b[i])
  }

  predicate EndsBlank(b: seq<string>) {
    b != [] && IsBlank(b[|b| - 1])
  }

  /** A cutting into blocks: all but the last end with a blank line. */
  predicate IsCutting(blocks: seq<seq<string>>) {
    && (forall i :: 0 <= i < |blocks| ==> IsBlock(blocks[i]))
    && (forall i :: 0 <= i < |blocks| - 1 ==> EndsBlank(blocks[i]))
  }

  lemma CuttingOfConcat(x: seq<seq<string>>, y: seq<seq<string>>)
    requires IsCutting(x) && IsCutting(y) && (x != [] && y != [] ==> EndsBlank(x[|x| - 1]))
    ensures IsCutting(x + y)
  {
    assert forall i :: 0 <= i < |x| ==> (x + y)[i] == x[i];
    assert forall i :: 0 <= i < |y| ==> (x + y)[|x| + i] == y[i];
  }

  lemma BlocksAreExact(lines: seq<string>)
    ensures Flatten(Blocks(lines)) == lines
    ensures IsCutting(Blocks(lines))
  {
    BlocksFlatten(lines);
    BlocksCut(lines);
  }

  lemma {:induction false} BlocksFlatten(lines: seq<string>)
    ensures Flatten(Blocks(lines)) == lines
    decreases |lines|
  {
    if lines != [] {
      var n := BlockLength(lines);
      BlocksFlatten(lines[n..]);
      FlattenCons(lines[..n], Blocks(lines[n..]));
    }
  }

  lemma {:induction false} BlocksCut(lines: seq<string>)
    ensures IsCutting(Blocks(lines))
    decreases |lines|
  {
    if lines != [] {
      var n := BlockLength(lines);
      var first, rest := lines[..n], Blocks(lines[n..]);
      BlocksCut(lines[n..]);
      assert IsBlock(first);
      assert rest != [] ==> EndsBlank(first);
      CuttingOfConcat([first], rest);
    }
  }

  lemma FlattenCons(first: seq<string>, blocks: seq<seq<string>>)
    ensures Flatten([first] + blocks) == first + Flatten(blocks)
  {
    assert ([first] + blocks)[1..] == blocks;
  }

  /** A cutting is the only one of its lines. */
  lemma {:induction false} BlocksOfFlatten(blocks: seq<seq<string>>)
    requires IsCutting(blocks)
    ensures Blocks(Flatten(blocks)) == blocks
  {
    if blocks != [] {
      var first, rest := blocks[0], Flatten(blocks[1..]);
      BlocksOfFlatten(blocks[1..]);
      FirstBlock(first, rest);
      assert blocks == [blocks[0]] + blocks[1..];
    }
  }

  lemma FirstBlock(first: seq<string>, rest: seq<string>)
    requires IsBlock(first) && (rest == [] || EndsBlank(first))
    ensures Blocks(first + rest) == [first] + Blocks(rest)
  {
    BlockEnds(first, rest);
    assert (first + rest)[..|first|] == first && (first + rest)[|first|..] == rest;
  }

  lemma BlockEnds(first: seq<string>, rest: seq<string>)
    requires IsBlock(first) && (rest == [] || EndsBlank(first))
    ensures BlockLength(first + rest) == |first|
  {
    var lines := first + rest;
    assert forall i :: 0 <= i < |first| ==> lines[i] == first[i];
    assert lines[|first| - 1] == first[|first| - 1];
  }

  lemma {:induction false} SelectKeepsCutting(blocks: seq<seq<string>>)
    requires IsCutting(blocks)
    ensures IsCutting(Select(blocks))
    ensures forall b <- Select(blocks) :: b in blocks && Kept(b)
  {
    if blocks != [] {
      SelectKeepsCutting(blocks[1..]);
      SelectIsShorter(blocks[1..]);
      var rest := Select(blocks[1..]);
      if Kept(blocks[0]) {
        assert Select(blocks) == [blocks[0]] + rest;
        assert forall i :: 0 < i < |Select(blocks)| ==> Select(blocks)[i] == rest[i - 1];
        assert rest != [] ==> EndsBlank(blocks[0]);
      }
    }
  }

  // What is left of a well-formed stream is well-formed.
  lemma {:induction false} SelectedLinesAreWellFormed(blocks: seq<seq<string>>)
    requires WellFormed(Flatten(blocks)) && forall i :: 0 <= i < |blocks| ==> blocks[i] != []
    ensures WellFormed(Flatten(Select(blocks)))
  {
    if blocks != [] {
      var rest, kept := Flatten(blocks[1..]), Flatten(Select(blocks[1..]));
      WellFormedConcat(blocks[0], rest);
      assert blocks[1..] != [] ==> rest == blocks[1] + Flatten(blocks[1..][1..]);
      SelectedLinesAreWellFormed(blocks[1..]);
      WellFormedConcat(blocks[0], kept);
      if Kept(blocks[0]) {
        assert Select(blocks) == [blocks[0]] + Select(blocks[1..]);
      } else {
        assert Select(blocks) == Select(blocks[1..]);
      }
    }
  }

  lemma FilterCuts(s: string)
    ensures Lines(Filtered(s)) == Flatten(Select(Blocks(Lines(s))))
    ensures Blocks(Lines(Filtered(s))) == Select(Blocks(Lines(s)))
  {
    var lines := Lines(s);
    LinesAreExact(s);
    BlocksAreExact(lines);
    SelectedLinesAreWellFormed(Blocks(lines));
    LinesOfText(Flatten(Select(Blocks(lines))));
    SelectKeepsCutting(Blocks(lines));
    BlocksOfFlatten(Select(Blocks(lines)));
  }

  /** The blocks of the output are exactly the blocks of the input that are kept, in their order and byte for
      byte, and filtering a second time changes nothing. */
  lemma FilterIsExactAndIdempotent(s: string)
    ensures Blocks(Lines(Filtered(s))) == Select(Blocks(Lines(s)))
    ensures forall b <- Blocks(Lines(Filtered(s))) :: b in Blocks(Lines(s)) && Kept(b)
    ensures Filtered(Filtered(s)) == Filtered(s)
  {
    FilterCuts(s);
    BlocksAreExact(Lines(s));
    SelectKeepsCutting(Blocks(Lines(s)));
    SelectAll(Select(Blocks(Lines(s))));
  }

  lemma {:induction false} SelectAll(blocks: seq<seq<string>>)
    ensures Select(blocks) == blocks <==> forall b <- blocks :: Kept(b)
  {
    if blocks != [] {
      SelectAll(blocks[1..]);
      SelectIsShorter(blocks[1..]);
      assert blocks == [blocks[0]] + blocks[1..];
      assert forall b <- blocks :: b == blocks[0] || b in blocks[1..];
      if Kept(blocks[0]) { assert Select(blocks)[1..] == Select(blocks[1..]); }
    }
  }

  lemma {:induction false} SelectIsShorter(blocks: seq<seq<string>>)
    ensures |Select(blocks)| <= |blocks|
  {
    if blocks != [] { SelectIsShorter(blocks[1..]); }
  }

  /** The filter is the identity exactly on streams without an endpoint block. */
  lemma FilterIsIdentityIff(s: string)
    ensures Filtered(s) == s <==> forall b <- Blocks(Lines(s)) :: Kept(b)
  {
    LinesAreExact(s);
    BlocksAreExact(Lines(s));
    SelectAll(Blocks(Lines(s)));
    FilterCuts(s);
  }

  lemma SelectCons(first: seq<string>, blocks: seq<seq<string>>)
    ensures Select([first] + blocks) == (if Kept(first) then [first] else []) + Select(blocks)
  {
    assert ([first] + blocks)[1..] == blocks;
  }

  lemma {:induction false} SelectOfConcat(a: seq<seq<string>>, b: seq<seq<string>>)
    ensures Select(a + b) == Select(a) + Select(b)
  {
    if a == [] {
      assert a + b == b;
    } else {
      var first, rest := a[0], a[1..];
      SelectOfConcat(rest, b);
      SelectCons(first, rest);
      SelectCons(first, rest + b);
      assert a == [first] + rest && a + b == [first] + (rest + b);
    }
  }

  lemma {:induction false} FlattenOfConcat(a: seq<seq<string>>, b: seq<seq<string>>)
    ensures Flatten(a + b) == Flatten(a) + Flatten(b)
  {
    if a == [] {
      assert a + b == b;
    } else {
      FlattenOfConcat(a[1..], b);
      assert (a + b)[1..] == a[1..] + b;
    }
  }

  lemma {:induction false} LastEndsBlank(blocks: seq<seq<string>>)
    requires IsCutting(blocks) && blocks != [] && IsClosed(Flatten(blocks))
    ensures EndsBlank(blocks[|blocks| - 1])
  {
    var first, rest := blocks[0], Flatten(blocks[1..]);
    if blocks[1..] == [] {
      assert Flatten(blocks) == first + [];
    } else {
      assert rest == blocks[1] + Flatten(blocks[1..][1..]);
      assert Flatten(blocks)[|Flatten(blocks)| - 1] == rest[|rest| - 1];
      LastEndsBlank(blocks[1..]);
    }
  }

  lemma ClosedPrefix(a: seq<string>, b: seq<string>)
    requires IsClosed(a)
    ensures Blocks(a + b) == Blocks(a) + Blocks(b)
  {
    BlocksAreExact(a);
    BlocksAreExact(b);
    if a != [] { LastEndsBlank(Blocks(a)); }
    FlattenOfConcat(Blocks(a), Blocks(b));
    CuttingOfConcat(Blocks(a), Blocks(b));
    BlocksOfFlatten(Blocks(a) + Blocks(b));
  }

  lemma OutputOfBlock(done: seq<string>, block: seq<string>)
    requires IsClosed(done) && IsBlock(block)
    ensures Output(done + block) == Output(done) + if Kept(block) then Text(block) else ""
  {
    ClosedPrefix(done, block);
    BlocksOfFlatten([block]);
    assert Flatten([block]) == block;
    SelectOfConcat(Blocks(done), [block]);
    FlattenOfConcat(Select(Blocks(done)), Select([block]));
    TextOfConcat(Flatten(Select(Blocks(done))), Flatten(Select([block])));
    assert Select([block]) == if Kept(block) then [block] else [];
  }

  predicate NoBlank(lines: seq<string>) {
    forall i :: 0 <= i < |lines| ==> !IsBlank(lines[i])
  }

  lemma EventNameStep(lines: seq<string>, line: string)
    ensures EventName(lines + [line]) ==
            if HasPrefix(line, EVENT) then TrimSpace(TrimPrefix(line, EVENT)) else EventName(lines)
  {
    assert (lines + [line])[..|lines|] == lines;
  }

  // A blank line completes the pending block.
  lemma OutputOfCompleted(done: seq<string>, pending: seq<string>, blank: string)
    requires IsClosed(done) && NoBlank(pending) && IsBlank(blank)
    ensures IsClosed(done + (pending + [blank]))
    ensures Output(done + (pending + [blank])) ==
            Output(done) + if EventName(pending) != ENDPOINT then Text(pending) + blank else ""
  {
    OutputOfBlock(done, pending + [blank]);
    EventNameStep(pending, blank);
    TextOfConcat(pending, [blank]);
    assert Text([blank]) == blank;
  }

  lemma OutputOfPending(done: seq<string>, pending: seq<string>)
    requires IsClosed(done) && NoBlank(pending)
    ensures Output(done + pending) ==
            Output(done) + if pending != [] && EventName(pending) != ENDPOINT then Text(pending) else ""
  {
    if pending == [] {
      assert done + pending == done;
    } else {
      OutputOfBlock(done, pending);
    }
  }

  lemma ClosedIs(done: seq<string>, pending: seq<string>)
    requires IsClosed(done) && NoBlank(pending)
    ensures Closed(done + pending) == done
  {
    var r := Closed(done + pending);
    assert done != [] ==> IsBlank((done + pending)[|done| - 1]);
    assert r == (done + pending)[..|r|];
  }

  /** A `bufio.Reader` over a body that ends after `rest`: with EOF, or with another error when it is `broken`. */
  class Reader {
    var rest: string
    const broken: bool

    constructor (text: string, broken: bool)
      ensures rest == text && this.broken == broken
    {
      rest, this.broken := text, broken;
    }

    method ReadString() returns (line: string, ended: bool)
      modifies this
      ensures Lines(old(rest)) == (if line == "" then [] else [line]) + Lines(rest)
      ensures if ended then rest == "" && (line == "" || IsFragment(line)) else IsLine(line) && |rest| < old(|rest|)
    {
      if rest == "" { return "", true; }
      var n := LineLength(rest);
      line, rest := rest[..n], rest[n..];
      ended := line[n - 1] != '\n';
    }
  }

  // What a client takes: everything, or the first `limit` characters, after which its writes fail.

  predicate Takes(limit: Option<nat>, s: string) {
    limit.Some? ==> |s| <= limit.value
  }

  function Taken(limit: Option<nat>, s: string): (r: string)
    ensures r <= s && (r == s <==> Takes(limit, s))
  {
    if limit.Some? && limit.value < |s| then s[..limit.value] else s
  }

  lemma TakenIsPrefix(limit: Option<nat>, a: string, b: string)
    requires !Takes(limit, a)
    ensures !Takes(limit, a + b) && Taken(limit, a + b) == Taken(limit, a)
  {
    assert (a + b)[..limit.value] == a[..limit.value];
  }

  class Writer {
    var written: string
    const limit: Option<nat>

    constructor (limit: Option<nat>)
      ensures written == "" && this.limit == limit
    {
      written, this.limit := "", limit;
    }

    method WriteString(s: string) returns (ok: bool)
      requires Takes(limit, written)
      modifies this
      ensures written == Taken(limit, old(written) + s)
      ensures ok <==> Takes(limit, old(written) + s)
    {
      ok := limit.None? || |s| <= limit.value - |written|;
      written := written + if ok then s else s[..limit.value - |written|];
    }

    method WriteLines(lines: seq<string>) returns (ok: bool)
      requires Takes(limit, written)
      modifies this
      ensures written == Taken(limit, old(written) + Text(lines))
      ensures ok <==> Takes(limit, old(written) + Text(lines))
    {
      ghost var all := written + Text(lines);
      for i := 0 to |lines|
        invariant written + Text(lines[i..]) == all && Takes(limit, written)
      {
        assert lines[i..][1..] == lines[i + 1..];
        ghost var before, rest := written, Text(lines[i + 1..]);
        assert all == (before + lines[i]) + rest;
        ok := WriteString(lines[i]);
        if !ok {
          TakenIsPrefix(limit, before + lines[i], rest);
          return;
        }
      }
      assert lines[|lines|..] == [] && written == all;
      ok := true;
    }
  }

  // Copies the pending block with its blank line, if it is kept.
  method Flush(w: Writer, eventName: string, eventLines: seq<string>, line: string,
               ghost done: seq<string>, ghost start: string) returns (ok: bool)
    requires IsClosed(done) && NoBlank(eventLines) && eventName == EventName(eventLines)
    requires IsBlank(line) && Takes(w.limit, w.written) && w.written == start + Output(done)
    modifies w
    ensures IsClosed(done + (eventLines + [line]))
    ensures w.written == Taken(w.limit, start + Output(done + (eventLines + [line])))
    ensures ok <==> Takes(w.limit, start + Output(done + (eventLines + [line])))
  {
    OutputOfCompleted(done, eventLines, line);
    if eventName == ENDPOINT { return true; }
    ghost var all := start + Output(done) + Text(eventLines);
    assert start + Output(done + (eventLines + [line])) == all + line;
    ok := w.WriteLines(eventLines);
    if !ok {
      TakenIsPrefix(w.limit, all, line);
      return;
    }
    ok := w.WriteString(line);
  }

  // At the end of the stream the pending lines are a block of their own.
  method FlushPending(w: Writer, eventName: string, eventLines: seq<string>,
                      ghost done: seq<string>, ghost start: string) returns (ok: bool)
    requires IsClosed(done) && NoBlank(eventLines) && eventName == EventName(eventLines)
    requires Takes(w.limit, w.written) && w.written == start + Output(done)
    modifies w
    ensures w.written == Taken(w.limit, start + Output(done + eventLines))
    ensures ok <==> Takes(w.limit, start + Output(done + eventLines))
  {
    AfterPending(start, done, eventLines);
    if eventLines == [] || eventName == ENDPOINT { return true; }
    ok := w.WriteLines(eventLines);
  }

  lemma AfterPending(start: string, done: seq<string>, pending: seq<string>)
    requires IsClosed(done) && NoBlank(pending)
    ensures start + Output(done + pending) ==
            (start + Output(done)) + if pending != [] && EventName(pending) != ENDPOINT then Text(pending) else ""
  {
    OutputOfPending(done, pending);
  }

  // The completed blocks, the lines pending after them with the event name they give, and the text not read yet.
  ghost predicate Reading(all: seq<string>, done: seq<string>, pending: seq<string>, rest: seq<string>, name: string) {
    && all == done + (pending + rest)
    && IsClosed(done) && NoBlank(pending) && name == EventName(pending)
  }

  lemma ReadLine(all: seq<string>, done: seq<string>, pending: seq<string>, line: string, rest: seq<string>,
                 name: string)
    requires Reading(all, done, pending, [line] + rest, name) && !IsBlank(line)
    ensures Reading(all, done, pending + [line], rest,
                    if HasPrefix(line, EVENT) then TrimSpace(TrimPrefix(line, EVENT)) else name)
  {
    assert pending + ([line] + rest) == (pending + [line]) + rest;
    EventNameStep(pending, line);
  }

  lemma ReadBlank(all: seq<string>, done: seq<string>, pending: seq<string>, line: string, rest: seq<string>,
                  name: string)
    requires Reading(all, done, pending, [line] + rest, name) && IsBlank(line)
    ensures Reading(all, done + (pending + [line]), [], rest, MESSAGE)
  {
    assert done + (pending + ([line] + rest)) == (done + (pending + [line])) + ([] + rest);
  }

  /** What is copied of a stream: all but its endpoint blocks; of one that breaks off only the completed blocks. */
  function Copy(s: string, broken: bool): string {
    if broken then Output(Closed(Lines(s))) else Filtered(s)
  }

  // Whatever follows completed blocks only adds to their copy.
  lemma OutputGrows(done: seq<string>, rest: seq<string>)
    requires IsClosed(done)
    ensures Output(done) <= Output(done + rest)
    ensures Output(done) <= Output(Closed(done + rest))
  {
    OutputOfConcat(done, rest);
    var r := Closed(done + rest);
    assert done != [] ==> IsBlank((done + rest)[|done| - 1]);
    assert r == done + r[|done|..];
    OutputOfConcat(done, r[|done|..]);
  }

  lemma OutputOfConcat(done: seq<string>, rest: seq<string>)
    requires IsClosed(done)
    ensures Output(done + rest) == Output(done) + Output(rest)
  {
    ClosedPrefix(done, rest);
    SelectOfConcat(Blocks(done), Blocks(rest));
    FlattenOfConcat(Select(Blocks(done)), Select(Blocks(rest)));
    TextOfConcat(Flatten(Select(Blocks(done))), Flatten(Select(Blocks(rest))));
  }

  lemma TakenOfPrefix(limit: Option<nat>, start: string, a: string, b: string)
    requires a <= b && !Takes(limit, start + a)
    ensures !Takes(limit, start + b) && Taken(limit, start + b) == Taken(limit, start + a)
  {
    assert start + b == (start + a) + b[|a|..];
    TakenIsPrefix(limit, start + a, b[|a|..]);
  }

  // A write that fails leaves what the client takes of the whole copy.
  lemma FailedWrite(limit: Option<nat>, start: string, all: string, broken: bool, done: seq<string>, rest: seq<string>)
    requires Reading(Lines(all), done, [], rest, MESSAGE) && !Takes(limit, start + Output(done))
    ensures !Takes(limit, start + Copy(all, broken))
    ensures Taken(limit, start + Output(done)) == Taken(limit, start + Copy(all, broken))
  {
    assert [] + rest == rest;
    OutputGrows(done, rest);
    TakenOfPrefix(limit, start, Output(done), Copy(all, broken));
  }

  datatype Copied = Completed | ReadFailed | WriteFailed

  /** The client has what it takes of the copy of the stream; the copying fails if that is not all, or if the
      stream breaks off. */
  method CopySSEWithoutEndpointEvents(w: Writer, reader: Reader) returns (result: Copied)
    requires Takes(w.limit, w.written)
    modifies w, reader
    ensures var all := old(w.written) + Copy(old(reader.rest), reader.broken);
            w.written == Taken(w.limit, all) && (result == WriteFailed <==> !Takes(w.limit, all))
    ensures result != WriteFailed ==> reader.rest == "" && (result == Completed <==> !reader.broken)
  {
    var eventLines: seq<string> := [];
    var eventName := MESSAGE;
    ghost var done: seq<string> := [];
    ghost var start, text := w.written, reader.rest;
    Beginning(start, Lines(text));
    while true
      invariant Reading(Lines(text), done, eventLines, Lines(reader.rest), eventName)
      invariant w.written == start + Output(done) && Takes(w.limit, w.written)
      decreases |reader.rest|
    {
      var line, ended := reader.ReadString();
      if line != "" {
        if line == "\n" || line == "\r\n" {
          ReadBlank(Lines(text), done, eventLines, line, Lines(reader.rest), eventName);
          var ok := Flush(w, eventName, eventLines, line, done, start);
          done := done + (eventLines + [line]);
          if !ok {
            FailedWrite(w.limit, start, text, reader.broken, done, Lines(reader.rest));
            return WriteFailed;
          }
          eventLines, eventName := [], MESSAGE;
        } else {
          ReadLine(Lines(text), done, eventLines, line, Lines(reader.rest), eventName);
          eventLines := eventLines + [line];
          if HasPrefix(line, EVENT) {
            eventName := TrimSpace(TrimPrefix(line, EVENT));
          }
        }
      }
      if ended {
        StreamEnds(Lines(text), done, eventLines, eventName);
        if reader.broken { return ReadFailed; }
        var ok := FlushPending(w, eventName, eventLines, done, start);
        return if ok then Completed else WriteFailed;
      }
    }
  }

  lemma Beginning(start: string, all: seq<string>)
    ensures Reading(all, [], [], all, MESSAGE) && start + Output([]) == start
  {
    assert Output([]) == "";
  }

  lemma StreamEnds(all: seq<string>, done: seq<string>, pending: seq<string>, name: string)
    requires Reading(all, done, pending, [], name)
    ensures all == done + pending && Closed(all) == done
  {
    assert pending + [] == pending;
    ClosedIs(done, pending);
  }
}
