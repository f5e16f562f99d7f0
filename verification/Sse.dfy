/** The event stream: printed by sseEvents (internal/httpapi/server.go:189-215) and read by the
    admin client's buffer loop (internal/admin/ui/assets/app.js:351-362). The stream is a
    sequence of characters; the client receives it cut into arbitrary pieces. */
module Sse {
  import opened Common

  datatype Event = Event(name: string, data: string)

  // ---------------------------------------------------------------- the printer

  const Greeting := ": connected\n\n"

  function Body(e: Event): string {
    "event: " + e.name + "\n" + "data: " + e.data
  }

  function Frames(events: seq<Event>): string {
    if events == [] then "" else Body(events[0]) + "\n\n" + Frames(events[1..])
  }

  function Stream(events: seq<Event>): string {
    Greeting + Frames(events)
  }

  lemma {:induction false} FramesSnoc(events: seq<Event>, e: Event)
    ensures Frames(events + [e]) == Frames(events) + (Body(e) + "\n\n")
  {
    if events == [] {
      assert [] + [e] == [e] && [e][1..] == [];
      assert Frames([e]) == (Body(e) + "\n\n") + "" == "" + (Body(e) + "\n\n");
    } else {
      FramesSnoc(events[1..], e);
      FromTheFront(events, [e]);
      Regroup(Body(events[0]) + "\n\n", Frames(events[1..]), Body(e) + "\n\n");
    }
  }

  /** The write loop of sseEvents over the events it receives from its channel. */
  method WriteEvents(events: seq<Event>) returns (out: string)
    ensures out == Stream(events)
  {
    out := ": connected\n\n";
    for i := 0 to |events|
      invariant out == Greeting + Frames(events[..i])
    {
      FramesSnoc(events[..i], events[i]);
      assert events[..i + 1] == events[..i] + [events[i]];
      assert "event: " + events[i].name + "\ndata: " + events[i].data + "\n\n" == Body(events[i]) + "\n\n";
      out := out + ("event: " + events[i].name + "\ndata: " + events[i].data + "\n\n");
    }
    assert events[..|events|] == events;
  }

  // ---------------------------------------------------------------- splitting at blank lines

  predicate BreakAt(s: string, i: int) {
    0 <= i && i + 1 < |s| && s[i] == '\n' && s[i + 1] == '\n'
  }

  function FirstBreak(s: string): (i: Option<nat>)
    ensures i.Some? ==> i.value + 1 < |s|
  {
    if |s| < 2 then None
    else if BreakAt(s, 0) then Some(0)
    else
      var r := FirstBreak(s[1..]);
      if r.Some? then Some(r.value + 1) else None
  }

  lemma {:induction false} FirstBreakIs(s: string, i: nat)
    requires BreakAt(s, i) && forall j | 0 <= j < i :: !BreakAt(s, j)
    ensures FirstBreak(s) == Some(i)
  {
    if i > 0 {
      forall j | 0 <= j < i - 1 ensures !BreakAt(s[1..], j) {
        assert !BreakAt(s, j + 1);
      }
      FirstBreakIs(s[1..], i - 1);
    }
  }

  /** s.split('\n\n') */
  function Split(s: string): (parts: seq<string>)
    ensures parts != []
  {
    var i := FirstBreak(s);
    if i.None? then [s] else [s[..i.value]] + Split(s[i.value + 2..])
  }

  function Init<T>(s: seq<T>): seq<T>
    requires s != []
  {
    s[..|s| - 1]
  }

  function Last<T>(s: seq<T>): T
    requires s != []
  {
    s[|s| - 1]
  }

  lemma {:induction false} BreakStays(s: string, t: string)
    requires FirstBreak(s).Some?
    ensures FirstBreak(s + t) == FirstBreak(s)
  {
    assert (s + t)[1..] == s[1..] + t;
    if !BreakAt(s, 0) {
      BreakStays(s[1..], t);
    }
  }

  lemma SplitAtBreak(s: string, i: nat)
    requires FirstBreak(s) == Some(i)
    ensures Split(s) == [s[..i]] + Split(s[i + 2..])
  {
  }

  lemma Glue(head: string, a: seq<string>, b: seq<string>)
    requires a != []
    ensures [head] + (Init(a) + b) == Init([head] + a) + b && Last([head] + a) == Last(a)
  {
    assert Init([head] + a) == [head] + Init(a);
  }

  /** Splitting what is left over together with more input continues the split. */
  lemma {:induction false} SplitContinues(s: string, t: string)
    ensures Split(s + t) == Init(Split(s)) + Split(Last(Split(s)) + t)
    decreases |s|
  {
    var i := FirstBreak(s);
    if i.None? {
      assert Split(s) == [s];
      assert Init([s]) + Split(s + t) == Split(s + t);
    } else {
      var head, tail := s[..i.value], s[i.value + 2..];
      BreakStays(s, t);
      SplitAtBreak(s, i.value);
      SplitAtBreak(s + t, i.value);
      assert (s + t)[..i.value] == head && (s + t)[i.value + 2..] == tail + t;
      SplitContinues(tail, t);
      Glue(head, Split(tail), Split(Last(Split(tail)) + t));
    }
  }

  // ---------------------------------------------------------------- reading one block

  /** The characters that `.` does not match and at which ^ and $ match in multiline mode. */
  predicate LineTerminator(c: char) {
    c == '\n' || c == '\r' || c == '\U{2028}' || c == '\U{2029}'
  }

  predicate SingleLine(s: string) {
    forall i | 0 <= i < |s| :: !LineTerminator(s[i])
  }

  /** The length of the first line. */
  function LineEnd(s: string): (n: nat)
    ensures n <= |s| && SingleLine(s[..n])
    ensures n < |s| ==> LineTerminator(s[n])
  {
    if s == "" || LineTerminator(s[0]) then 0
    else
      var n := LineEnd(s[1..]);
      assert s[..n + 1] == [s[0]] + s[1..][..n];
      n + 1
  }

  function Lines(s: string): (lines: seq<string>)
    ensures forall i | 0 <= i < |lines| :: SingleLine(lines[i])
  {
    var n := LineEnd(s);
    if n == |s| then [s[..n]] else [s[..n]] + Lines(s[n + 1..])
  }

  /** A line matched against ^prefix ?(.+)$: the optional space is skipped if text follows it. */
  function Field(line: string, prefix: string): Option<string> {
    if !(prefix <= line) || |line| == |prefix| then None
    else
      var rest := line[|prefix|..];
      Some(if rest[0] == ' ' && |rest| > 1 then rest[1..] else rest)
  }

  function FirstField(lines: seq<string>, prefix: string): Option<string> {
    if lines == [] then None
    else if Field(lines[0], prefix).Some? then Field(lines[0], prefix)
    else FirstField(lines[1..], prefix)
  }

  /** What String.prototype.trim removes. */
  predicate Space(c: char) {
    || LineTerminator(c) || c == '\t' || c == '\U{0B}' || c == '\U{0C}' || c == ' '
    || c == '\U{A0}' || c == '\U{1680}' || '\U{2000}' <= c <= '\U{200A}'
    || c == '\U{202F}' || c == '\U{205F}' || c == '\U{3000}' || c == '\U{FEFF}'
  }

  function Trim(s: string): (r: string)
    ensures |r| <= |s|
    ensures r != "" ==> !Space(r[0]) && !Space(r[|r| - 1])
    ensures SingleLine(s) ==> SingleLine(r)
    ensures s != "" && !Space(s[0]) && !Space(s[|s| - 1]) ==> r == s
  {
    if s == "" then ""
    else if Space(s[0]) then Trim(s[1..])
    else if Space(s[|s| - 1]) then Trim(s[..|s| - 1])
    else s
  }

  /** A block as the client sees it; `data` is the text handed to JSON.parse. */
  datatype Received = Received(name: string, data: Option<string>)

  function ReadBlock(block: string): Option<Received> {
    var lines := Lines(block);
    var name := FirstField(lines, "event:");
    if name.None? then None else Some(Received(Trim(name.value), FirstField(lines, "data:")))
  }

  function ReadOne(block: string): seq<Received> {
    match ReadBlock(block) case Some(r) => [r] case None => []
  }

  function ReadAll(blocks: seq<string>): seq<Received> {
    if blocks == [] then [] else ReadOne(blocks[0]) + ReadAll(blocks[1..])
  }

  function KnownOne(r: Received, names: set<string>): seq<Received> {
    if r.name in names then [r] else []
  }

  function Known(got: seq<Received>, names: set<string>): seq<Received> {
    if got == [] then [] else KnownOne(got[0], names) + Known(got[1..], names)
  }

  lemma {:induction false} ReadAllConcat(a: seq<string>, b: seq<string>)
    ensures ReadAll(a + b) == ReadAll(a) + ReadAll(b)
  {
    if a == [] {
      assert a + b == b;
    } else {
      ReadAllConcat(a[1..], b);
      FromTheFront(a, b);
      Regroup(ReadOne(a[0]), ReadAll(a[1..]), ReadAll(b));
    }
  }

  lemma {:induction false} KnownConcat(a: seq<Received>, b: seq<Received>, names: set<string>)
    ensures Known(a + b, names) == Known(a, names) + Known(b, names)
  {
    if a == [] {
      assert a + b == b;
    } else {
      KnownConcat(a[1..], b, names);
      FromTheFront(a, b);
      Regroup(KnownOne(a[0], names), Known(a[1..], names), Known(b, names));
    }
  }

  // ---------------------------------------------------------------- the client loop

  function Concat(chunks: seq<string>): string {
    if chunks == [] then "" else Concat(Init(chunks)) + Last(chunks)
  }

  /** The blocks a stream completes. */
  function Blocks(stream: string): seq<string> {
    Init(Split(stream))
  }

  /** The inner loop: refreshForEvent is called for the known events, in order. */
  method HandleBlocks(blocks: seq<string>, names: set<string>) returns (handled: seq<Received>)
    ensures handled == Known(ReadAll(blocks), names)
  {
    handled := [];
    for i := 0 to |blocks|
      invariant handled == Known(ReadAll(blocks[..i]), names)
    {
      assert blocks[..i + 1] == blocks[..i] + [blocks[i]];
      ReadAllConcat(blocks[..i], [blocks[i]]);
      KnownConcat(ReadAll(blocks[..i]), ReadAll([blocks[i]]), names);
      var block := ReadBlock(blocks[i]);
      if block.Some? {
        assert ReadAll([blocks[i]]) == [block.value];
        if block.value.name in names {
          handled := handled + [block.value];
        }
      }
    }
    assert blocks[..|blocks|] == blocks;
  }

  /** One more chunk: the buffered remainder with the chunk completes the further blocks, and leaves the
      remainder of the whole stream so far. */
  lemma OneMoreChunk(before: string, chunk: string, names: set<string>)
    ensures var parts := Split(Last(Split(before)) + chunk);
            && Last(parts) == Last(Split(before + chunk))
            && Known(ReadAll(Blocks(before + chunk)), names)
               == Known(ReadAll(Blocks(before)), names) + Known(ReadAll(Init(parts)), names)
  {
    var parts := Split(Last(Split(before)) + chunk);
    SplitContinues(before, chunk);
    assert Blocks(before + chunk) == Blocks(before) + Init(parts);
    ReadAllConcat(Blocks(before), Init(parts));
    KnownConcat(ReadAll(Blocks(before)), ReadAll(Init(parts)), names);
  }

  /** The read loop of connectEvents. However the stream is cut into chunks, the client handles
      exactly the blocks of the whole stream. */
  method ConnectEvents(chunks: seq<string>, names: set<string>) returns (handled: seq<Received>)
    ensures handled == Known(ReadAll(Blocks(Concat(chunks))), names)
  {
    var buffer := "";
    handled := [];
    assert Split("") == [""];
    for i := 0 to |chunks|
      invariant handled == Known(ReadAll(Blocks(Concat(chunks[..i]))), names)
      invariant buffer == Last(Split(Concat(chunks[..i])))
    {
      assert Init(chunks[..i + 1]) == chunks[..i] && Last(chunks[..i + 1]) == chunks[i];
      OneMoreChunk(Concat(chunks[..i]), chunks[i], names);
      buffer := buffer + chunks[i];
      var parts := Split(buffer);
      buffer := parts[|parts| - 1];
      var more := HandleBlocks(parts[..|parts| - 1], names);
      handled := handled + more;
    }
    assert chunks[..|chunks|] == chunks;
  }

  // ---------------------------------------------------------------- round trip

  function Expected(events: seq<Event>): (r: seq<Received>)
    ensures |r| == |events| && forall i | 0 <= i < |r| :: r[i] == Received(events[i].name, Some(events[i].data))
  {
    seq(|events|, i requires 0 <= i < |events| => Received(events[i].name, Some(events[i].data)))
  }

  /** A one-line name that trimming leaves alone, and one-line, non-empty data. */
  predicate Printable(e: Event) {
    SingleLine(e.name) && Trim(e.name) == e.name && SingleLine(e.data) && e.data != ""
  }

  lemma BodyIsOneBlock(e: Event, rest: string)
    requires Printable(e)
    ensures Split(Body(e) + "\n\n" + rest) == [Body(e)] + Split(rest)
  {
    var s, n := Body(e) + "\n\n" + rest, |Body(e)|;
    assert s[..n] == Body(e) && s[n + 2..] == rest && BreakAt(s, n);
    forall j | 0 <= j < n ensures !BreakAt(s, j) {
      assert s[j] == Body(e)[j];
      if j == 7 + |e.name| {
        assert s[j + 1] == 'd';
      } else if 7 <= j < 7 + |e.name| {
        assert s[j] == e.name[j - 7];
      } else if j >= 14 + |e.name| {
        assert s[j] == e.data[j - 14 - |e.name|];
      }
    }
    FirstBreakIs(s, n);
  }

  lemma {:induction false} LineEndIs(s: string, n: nat)
    requires n <= |s| && SingleLine(s[..n]) && (n < |s| ==> LineTerminator(s[n]))
    ensures LineEnd(s) == n
  {
    if n > 0 {
      assert s[..n][0] == s[0] && s[1..][..n - 1] == s[..n][1..];
      LineEndIs(s[1..], n - 1);
    }
  }

  lemma LinesOfTwo(a: string, b: string)
    requires SingleLine(a) && SingleLine(b)
    ensures Lines(a + "\n" + b) == [a, b]
  {
    var s := a + "\n" + b;
    assert s[..|a|] == a && s[|a| + 1..] == b && b[..|b|] == b;
    LineEndIs(s, |a|);
    LineEndIs(b, |b|);
  }

  lemma FieldReadsBack(prefix: string, text: string)
    ensures Field(prefix + (" " + text), prefix) == Some(if text == "" then " " else text)
  {
    var line := prefix + (" " + text);
    assert line[|prefix|..] == " " + text;
    assert (" " + text)[1..] == text && prefix <= line;
    assert text == "" ==> " " + text == " ";
  }

  lemma BodyReadsBack(e: Event)
    requires Printable(e)
    ensures ReadBlock(Body(e)) == Some(Received(e.name, Some(e.data)))
  {
    var a, b := "event: " + e.name, "data: " + e.data;
    assert a == "event:" + (" " + e.name) && b == "data:" + (" " + e.data);
    assert Body(e) == a + "\n" + b;
    LinesOfTwo(a, b);
    FieldReadsBack("event:", e.name);
    FieldReadsBack("data:", e.data);
    assert FirstField([a, b], "event:") == Some(if e.name == "" then " " else e.name);
    assert a[0] == 'e' && "data:"[0] == 'd';
    assert Field(a, "data:") == None;
    assert [a, b][1..] == [b];
    assert FirstField([a, b], "data:") == Some(e.data);
    assert " "[1..] == "" && Trim("") == "" && Trim(" ") == "";
  }

  /** Whatever the stream, what the client reads is printable again. */
  lemma {:induction false} FieldIsSingleLine(lines: seq<string>, prefix: string)
    requires forall i | 0 <= i < |lines| :: SingleLine(lines[i])
    ensures var f := FirstField(lines, prefix); f.Some? ==> SingleLine(f.value) && f.value != ""
  {
    if lines != [] {
      FieldIsSingleLine(lines[1..], prefix);
    }
  }

  lemma {:induction false} ReadIsPrintable(blocks: seq<string>, i: nat)
    requires i < |ReadAll(blocks)|
    ensures var r := ReadAll(blocks)[i]; r.data.Some? ==> Printable(Event(r.name, r.data.value))
  {
    var here := ReadOne(blocks[0]);
    if i < |here| {
      FieldIsSingleLine(Lines(blocks[0]), "event:");
      FieldIsSingleLine(Lines(blocks[0]), "data:");
    } else {
      ReadIsPrintable(blocks[1..], i - |here|);
    }
  }

  lemma BlocksOfFrame(e: Event, rest: string)
    requires Printable(e)
    ensures Blocks(Body(e) + "\n\n" + rest) == [Body(e)] + Blocks(rest)
  {
    BodyIsOneBlock(e, rest);
    Glue(Body(e), Split(rest), []);
  }

  lemma ReadOneMore(block: string, blocks: seq<string>)
    ensures ReadAll([block] + blocks) == ReadOne(block) + ReadAll(blocks)
  {
    assert ([block] + blocks)[1..] == blocks;
  }

  lemma {:induction false} FramesReadBack(events: seq<Event>)
    requires forall i | 0 <= i < |events| :: Printable(events[i])
    ensures ReadAll(Blocks(Frames(events))) == Expected(events)
  {
    if events == [] {
      assert Split("") == [""];
    } else {
      var e, rest := events[0], events[1..];
      FramesReadBack(rest);
      BlocksOfFrame(e, Frames(rest));
      BodyReadsBack(e);
      ReadOneMore(Body(e), Blocks(Frames(rest)));
      ExpectedOneMore(events);
    }
  }

  lemma ExpectedOneMore(events: seq<Event>)
    requires events != []
    ensures Expected(events) == [Received(events[0].name, Some(events[0].data))] + Expected(events[1..])
  {
  }

  /** A one-line block that is not an event field is skipped. */
  lemma CommentIsSkipped(text: string)
    requires SingleLine(text) && !("event:" <= text)
    ensures ReadOne(text) == []
  {
    assert text[..|text|] == text;
    LineEndIs(text, |text|);
    assert Lines(text) == [text] && [text][1..] == [];
    assert FirstField([text], "event:") == FirstField([text][1..], "event:");
  }

  lemma {:induction false} FirstBlock(a: string, rest: string)
    requires a != "" && SingleLine(a)
    ensures Split(a + ("\n\n" + rest)) == [a] + Split(rest)
  {
    var s := a + ("\n\n" + rest);
    assert forall j | 0 <= j < |a| :: s[j] == a[j];
    FirstBreakIs(s, |a|);
    assert s[..|a|] == a && s[|a| + 2..] == rest;
  }

  lemma BlocksAfterComment(comment: string, rest: string)
    requires comment != "" && SingleLine(comment)
    ensures Blocks(comment + ("\n\n" + rest)) == [comment] + Blocks(rest)
  {
    FirstBlock(comment, rest);
    Glue(comment, Split(rest), []);
  }

  const Comment := ": connected"

  lemma GreetingIsAComment()
    ensures Greeting == Comment + "\n\n"
    ensures Comment != "" && SingleLine(Comment) && !("event:" <= Comment)
  {
    assert Comment[0] == ':' && "event:"[0] == 'e';
  }

  /** A comment in front of the stream changes nothing. */
  lemma CommentInFront(comment: string, rest: string)
    requires comment != "" && SingleLine(comment) && !("event:" <= comment)
    ensures ReadAll(Blocks(comment + ("\n\n" + rest))) == ReadAll(Blocks(rest))
  {
    CommentIsSkipped(comment);
    BlocksAfterComment(comment, rest);
    ReadOneMore(comment, Blocks(rest));
  }

  lemma GreetingIsSkipped(rest: string)
    ensures ReadAll(Blocks(Greeting + rest)) == ReadAll(Blocks(rest))
  {
    GreetingIsAComment();
    Regroup(Comment, "\n\n", rest);
    CommentInFront(Comment, rest);
  }

  /** Round trip: the client reads back exactly the printed events, in order, if and only if every
      one of them is printable. */
  lemma RoundTripIff(events: seq<Event>)
    ensures ReadAll(Blocks(Stream(events))) == Expected(events)
            <==> forall i | 0 <= i < |events| :: Printable(events[i])
  {
    GreetingIsSkipped(Frames(events));
    if forall i | 0 <= i < |events| :: Printable(events[i]) {
      FramesReadBack(events);
    } else if ReadAll(Blocks(Stream(events))) == Expected(events) {
      var i :| 0 <= i < |events| && !Printable(events[i]);
      ReadIsPrintable(Blocks(Stream(events)), i);
    }
  }

  // ---------------------------------------------------------------- which events are handled

  /** The handled events are those with known names, at the positions `idx`, in order. */
  predicate Picks(got: seq<Received>, handled: seq<Received>, idx: seq<nat>, names: set<string>) {
    && |idx| == |handled|
    && (forall i, j | 0 <= i < j < |idx| :: idx[i] < idx[j])
    && (forall i | 0 <= i < |idx| :: idx[i] < |got| && handled[i] == got[idx[i]])
    && forall k: nat | k < |got| :: got[k].name in names <==> k in idx
  }

  lemma PicksSnoc(got: seq<Received>, handled: seq<Received>, idx: seq<nat>, names: set<string>, r: Received)
    requires Picks(got, handled, idx, names)
    ensures r.name in names ==> Picks(got + [r], handled + [r], idx + [|got|], names)
    ensures r.name !in names ==> Picks(got + [r], handled, idx, names)
  {
  }

  lemma {:induction false} KnownPicks(got: seq<Received>, names: set<string>) returns (idx: seq<nat>)
    ensures Picks(got, Known(got, names), idx, names)
  {
    if got == [] {
      idx := [];
    } else {
      var front, r := got[..|got| - 1], got[|got| - 1];
      assert got == front + [r];
      idx := KnownPicks(front, names);
      PicksSnoc(front, Known(front, names), idx, names, r);
      KnownConcat(front, [r], names);
      assert Known([r], names) == if r.name in names then [r] else [];
      if r.name in names {
        idx := idx + [|front|];
      } else {
        assert Known(front, names) + [] == Known(front, names);
      }
    }
  }

  lemma {:induction false} AllKnown(got: seq<Received>, names: set<string>)
    requires forall r <- got :: r.name in names
    ensures Known(got, names) == got
  {
    if got != [] {
      assert got[0] in got && forall r <- got[1..] :: r in got;
      AllKnown(got[1..], names);
    }
  }

  /** End to end: however the stream of printable events is cut, the client handles exactly those with
      known names, in order; all of them when every name is known. */
  lemma EndToEnd(events: seq<Event>, chunks: seq<string>, names: set<string>) returns (idx: seq<nat>)
    requires Concat(chunks) == Stream(events) && forall i | 0 <= i < |events| :: Printable(events[i])
    ensures Picks(Expected(events), Known(ReadAll(Blocks(Concat(chunks))), names), idx, names)
    ensures (forall i | 0 <= i < |events| :: events[i].name in names) ==>
              Known(ReadAll(Blocks(Concat(chunks))), names) == Expected(events)
  {
    RoundTripIff(events);
    idx := KnownPicks(Expected(events), names);
    if forall i | 0 <= i < |events| :: events[i].name in names {
      AllKnown(Expected(events), names);
    }
  }

  // ---------------------------------------------------------------- the formats themselves

  /** Which characters end a line, and which are trimmed. */
  lemma Characters(c: char)
    ensures !SingleLine([c]) <==> c in {'\n', '\r', '\U{2028}', '\U{2029}'}
    ensures Trim([c]) == "" <==>
            c in {'\t', '\n', '\U{0B}', '\U{0C}', '\r', ' ', '\U{A0}', '\U{1680}', '\U{2000}', '\U{2001}', '\U{2002}',
                  '\U{2003}', '\U{2004}', '\U{2005}', '\U{2006}', '\U{2007}', '\U{2008}', '\U{2009}', '\U{200A}',
                  '\U{2028}', '\U{2029}', '\U{202F}', '\U{205F}', '\U{3000}', '\U{FEFF}'}
  {
    assert [c][0] == c && Space(c) ==> Trim([c]) == Trim([c][1..]);
  }

  /** What is on the wire: the greeting, then one frame per event. */
  lemma StreamIs(events: seq<Event>, e: Event)
    ensures Stream([]) == ": connected\n\n"
    ensures Stream(events + [e]) == Stream(events) + ("event: " + e.name + "\n" + "data: " + e.data + "\n\n")
  {
    assert Greeting + "" == Greeting;
    FramesSnoc(events, e);
    Regroup(Greeting, Frames(events), Body(e) + "\n\n");
  }

  /** A line matches exactly when it is the prefix, at most one space, and some text; the space is
      dropped when text follows it. */
  lemma FieldIff(line: string, prefix: string, text: string)
    ensures Field(line, prefix) == Some(text) <==>
            && text != ""
            && (line == prefix + " " + text || (line == prefix + text && (text[0] != ' ' || text == " ")))
  {
    if prefix <= line && |line| > |prefix| {
      var rest := line[|prefix|..];
      assert line == prefix + rest && rest == [rest[0]] + rest[1..];
      assert (prefix + " " + text)[|prefix|..] == " " + text && (prefix + text)[|prefix|..] == text;
      assert rest[0] == ' ' ==> rest == " " + rest[1..];
      assert (" " + text)[1..] == text;
    } else if text != "" {
      assert prefix <= prefix + " " + text && prefix <= prefix + text;
    }
  }

  /** The first line that matches decides. */
  lemma {:induction false} FirstFieldIff(lines: seq<string>, prefix: string, text: string)
    ensures FirstField(lines, prefix) == Some(text) <==>
            exists i | 0 <= i < |lines| :: Field(lines[i], prefix) == Some(text)
                                           && forall j | 0 <= j < i :: Field(lines[j], prefix) == None
  {
    if lines != [] {
      FirstFieldIff(lines[1..], prefix, text);
      if i :| 0 <= i < |lines| && Field(lines[i], prefix) == Some(text)
              && forall j | 0 <= j < i :: Field(lines[j], prefix) == None {
        if i > 0 {
          assert Field(lines[0], prefix) == None;
          assert lines[1..][i - 1] == lines[i];
          assert forall j | 0 <= j < i - 1 :: lines[1..][j] == lines[j + 1];
        }
      }
      if i :| 0 <= i < |lines| - 1 && Field(lines[1..][i], prefix) == Some(text)
              && (forall j | 0 <= j < i :: Field(lines[1..][j], prefix) == None) && Field(lines[0], prefix) == None {
        forall j | 0 <= j < i + 1 ensures Field(lines[j], prefix) == None {
          assert j > 0 ==> lines[1..][j - 1] == lines[j];
        }
        assert lines[i + 1] == lines[1..][i];
      }
    }
  }

  /** All characters outside s[i..j] are white space. */
  predicate SpaceAround(s: string, i: nat, j: nat) {
    i <= j <= |s| && forall k | 0 <= k < |s| && !(i <= k < j) :: Space(s[k])
  }

  lemma SpaceInFront(s: string, i: nat, j: nat)
    requires s != "" && Space(s[0]) && SpaceAround(s[1..], i, j)
    ensures SpaceAround(s, i + 1, j + 1) && s[1..][i..j] == s[i + 1..j + 1]
  {
    forall k | 0 <= k < |s| && !(i + 1 <= k < j + 1) ensures Space(s[k]) {
      assert k > 0 ==> s[k] == s[1..][k - 1];
    }
  }

  lemma SpaceBehind(s: string, i: nat, j: nat)
    requires s != "" && Space(s[|s| - 1]) && SpaceAround(s[..|s| - 1], i, j)
    ensures SpaceAround(s, i, j) && s[..|s| - 1][i..j] == s[i..j]
  {
    forall k | 0 <= k < |s| && !(i <= k < j) ensures Space(s[k]) {
      assert k < |s| - 1 ==> s[k] == s[..|s| - 1][k];
    }
  }

  lemma TrimStep(s: string)
    requires s != ""
    ensures Space(s[0]) ==> Trim(s) == Trim(s[1..])
    ensures !Space(s[0]) && Space(s[|s| - 1]) ==> Trim(s) == Trim(s[..|s| - 1])
    ensures !Space(s[0]) && !Space(s[|s| - 1]) ==> Trim(s) == s
  {
  }

  /** Trimming removes white space at both ends and nothing else. */
  lemma {:induction false} TrimIs(s: string) returns (i: nat, j: nat)
    ensures SpaceAround(s, i, j) && Trim(s) == s[i..j]
    decreases |s|
  {
    i, j := 0, |s|;
    assert s[0..|s|] == s;
    if s != "" {
      TrimStep(s);
      if Space(s[0]) {
        i, j := TrimIs(s[1..]);
        SpaceInFront(s, i, j);
        i, j := i + 1, j + 1;
      } else if Space(s[|s| - 1]) {
        i, j := TrimIs(s[..|s| - 1]);
        SpaceBehind(s, i, j);
      }
    }
  }
}
