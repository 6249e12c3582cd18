/** The server-sent-event decoder of the Computer Use client (src/computer_use/openai.rs:843-907). It follows
    sections 9.2.5 and 9.2.6 of the WHATWG HTML Living Standard except that a bare carriage return does not end
    a line, an event name alone dispatches, and finish flushes an incomplete event. */
module Sse {
  import opened Common

  type Bytes = seq<Byte>

  const LF: Byte := 10
  const CR: Byte := 13

  datatype Event = Event(event: Option<string>, data: string)

  /** What is remembered between lines. */
  datatype Fields = Fields(name: Option<string>, lines: seq<string>)

  const EMPTY := Fields(None, [])

  // ---------------------------------------------------------------- one line

  function Join(lines: seq<string>): string {
    if lines == [] then "" else if |lines| == 1 then lines[0] else lines[0] + "\n" + Join(lines[1..])
  }

  datatype Consumed = Consumed(fields: Fields, events: seq<Event>)

  function Dispatch(f: Fields): Consumed {
    if f.name.None? && f.lines == [] then Consumed(f, [])
    else Consumed(EMPTY, [Event(f.name, Join(f.lines))])
  }

  function FindFrom<T(==)>(s: seq<T>, c: T, from: nat): (i: nat)
    requires from <= |s|
    ensures from <= i <= |s| && (i < |s| ==> s[i] == c) && forall j | from <= j < i :: s[j] != c
    decreases |s| - from
  {
    if from == |s| || s[from] == c then from else FindFrom(s, c, from + 1)
  }

  /** The first position of `c`, or the length. */
  function Find<T(==)>(s: seq<T>, c: T): nat {
    FindFrom(s, c, 0)
  }

  /** The field name before the first colon, and the value after it without one leading space. */
  function FieldOf(line: string): string { line[..Find(line, ':')] }

  function ValueOf(line: string): string {
    var i := Find(line, ':');
    if i == |line| then ""
    else var v := line[i + 1..]; if v != [] && v[0] == ' ' then v[1..] else v
  }

  function Consume(f: Fields, line: string): Consumed {
    if line == [] then Dispatch(f)
    else if line[0] == ':' then Consumed(f, [])
    else if FieldOf(line) == "event" then Consumed(f.(name := Some(ValueOf(line))), [])
    else if FieldOf(line) == "data" then Consumed(f.(lines := f.lines + [ValueOf(line)]), [])
    else Consumed(f, [])
  }

  // ---------------------------------------------------------------- a buffer

  function StripCr(line: Bytes): Bytes {
    if line != [] && line[|line| - 1] == CR then line[..|line| - 1] else line
  }

  datatype Out = Out(fields: Fields, rest: Bytes, events: seq<Event>)

  function Prepend(events: seq<Event>, o: Out): Out {
    o.(events := events + o.events)
  }

  /** Consumes every complete line of the buffer; `text` is the lossy UTF-8 decoding. */
  function Pump(text: Bytes -> string, f: Fields, b: Bytes): (o: Out)
    ensures |o.rest| <= |b|
    decreases |b|
  {
    var i := Find(b, LF);
    if i == |b| then Out(f, b, [])
    else
      var c := Consume(f, text(StripCr(b[..i])));
      Prepend(c.events, Pump(text, c.fields, b[i + 1..]))
  }

  /** finish: an unterminated last line is consumed as it is, then whatever is pending is dispatched. */
  function Flush(text: Bytes -> string, f: Fields, rest: Bytes): seq<Event> {
    var c := if rest == [] then Consumed(f, []) else Consume(f, text(rest));
    c.events + Dispatch(c.fields).events
  }

  /** The decoder as the source has it: push and finish on a buffer and two pending fields. */
  class Decoder {
    const text: Bytes -> string
    var buffer: Bytes
    var name: Option<string>
    var lines: seq<string>

    constructor (text: Bytes -> string)
      ensures this.text == text && buffer == [] && Pending() == EMPTY
    {
      this.text := text;
      buffer, name, lines := [], None, [];
    }

    function Pending(): Fields
      reads this
    {
      Fields(name, lines)
    }

    method DispatchPending(events: seq<Event>) returns (r: seq<Event>)
      modifies `name, `lines
      ensures Pending() == Dispatch(old(Pending())).fields && r == events + Dispatch(old(Pending())).events
    {
      if name.None? && lines == [] {
        return events;
      }
      r := events + [Event(name, Join(lines))];
      name, lines := None, [];
    }

    method ConsumeLine(line: string, events: seq<Event>) returns (r: seq<Event>)
      modifies `name, `lines
      ensures Pending() == Consume(old(Pending()), line).fields && r == events + Consume(old(Pending()), line).events
    {
      r := events;
      if line == [] {
        r := DispatchPending(events);
      } else if line[0] != ':' {
        var field, value := FieldOf(line), ValueOf(line);
        if field == "event" {
          name := Some(value);
        } else if field == "data" {
          lines := lines + [value];
        }
      }
    }

    method Push(chunk: Bytes) returns (events: seq<Event>)
      modifies this
      ensures Out(Pending(), buffer, events) == Pump(text, old(Pending()), old(buffer) + chunk)
    {
      buffer := buffer + chunk;
      ghost var whole := Pump(text, Pending(), buffer);
      events := [];
      var position := Find(buffer, LF);
      while position < |buffer|
        invariant position == Find(buffer, LF)
        invariant whole == Prepend(events, Pump(text, Pending(), buffer))
        decreases |buffer|
      {
        var line := StripCr(buffer[..position]);
        ghost var before, c := events, Consume(Pending(), text(line));
        buffer := buffer[position + 1..];
        events := ConsumeLine(text(line), events);
        PrependTwice(before, c.events, Pump(text, Pending(), buffer));
        position := Find(buffer, LF);
      }
    }

    method Finish() returns (events: seq<Event>)
      modifies this
      ensures events == Flush(text, old(Pending()), old(buffer)) && buffer == [] && Pending() == EMPTY
    {
      events := [];
      if buffer != [] {
        var line := buffer;
        buffer := [];
        events := ConsumeLine(text(line), events);
      }
      events := DispatchPending(events);
    }
  }

  lemma PrependTwice(a: seq<Event>, b: seq<Event>, o: Out)
    ensures Prepend(a, Prepend(b, o)) == Prepend(a + b, o)
  {
    assert a + (b + o.events) == a + b + o.events;
  }

  lemma PrependNothing(o: Out)
    ensures Prepend([], o) == o
  {
    assert [] + o.events == o.events;
  }

  // ---------------------------------------------------------------- independence of fragmentation

  lemma FindAppend<T>(a: seq<T>, b: seq<T>, c: T)
    ensures Find(a + b, c) == if Find(a, c) < |a| then Find(a, c) else |a| + Find(b, c)
  {
    var i, j := Find(a + b, c), if Find(a, c) < |a| then Find(a, c) else |a| + Find(b, c);
    assert forall k | 0 <= k < |a| :: (a + b)[k] == a[k];
    assert forall k | 0 <= k < |b| :: (a + b)[|a| + k] == b[k];
    assert j < |a + b| ==> (a + b)[j] == c;
    assert forall k | 0 <= k < j :: (a + b)[k] != c by {
      forall k | 0 <= k < j ensures (a + b)[k] != c {
        assert k < |a| || (a + b)[k] == b[k - |a|];
      }
    }
  }

  lemma TailAppend(a: Bytes, b: Bytes, i: nat)
    requires i < |a|
    ensures (a + b)[..i] == a[..i] && (a + b)[i + 1..] == a[i + 1..] + b
  {
  }

  /** Pumping continues from `o` when `b` arrives. */
  function Continue(text: Bytes -> string, o: Out, b: Bytes): Out {
    Prepend(o.events, Pump(text, o.fields, o.rest + b))
  }

  lemma ContinuePrepend(text: Bytes -> string, events: seq<Event>, o: Out, b: Bytes)
    ensures Continue(text, Prepend(events, o), b) == Prepend(events, Continue(text, o, b))
  {
    PrependTwice(events, o.events, Pump(text, o.fields, o.rest + b));
  }

  lemma NoLineYet(text: Bytes -> string, f: Fields, a: Bytes, b: Bytes)
    requires Find(a, LF) == |a|
    ensures Pump(text, f, a + b) == Continue(text, Pump(text, f, a), b)
  {
    PrependNothing(Pump(text, f, a + b));
  }

  lemma FirstLine(text: Bytes -> string, f: Fields, a: Bytes, b: Bytes) returns (c: Consumed, tail: Bytes)
    requires Find(a, LF) < |a|
    ensures |tail| < |a|
    ensures Pump(text, f, a) == Prepend(c.events, Pump(text, c.fields, tail))
    ensures Pump(text, f, a + b) == Prepend(c.events, Pump(text, c.fields, tail + b))
  {
    var i := Find(a, LF);
    c, tail := Consume(f, text(StripCr(a[..i]))), a[i + 1..];
    FindAppend(a, b, LF);
    TailAppend(a, b, i);
  }

  /** Pumping a longer buffer is pumping its beginning, then the remainder with what follows. */
  lemma {:induction false} PumpAppend(text: Bytes -> string, f: Fields, a: Bytes, b: Bytes)
    ensures Pump(text, f, a + b) == Continue(text, Pump(text, f, a), b)
    decreases |a|
  {
    if Find(a, LF) < |a| {
      var c, tail := FirstLine(text, f, a, b);
      PumpAppend(text, c.fields, tail, b);
      ContinuePrepend(text, c.events, Pump(text, c.fields, tail), b);
    } else {
      NoLineYet(text, f, a, b);
    }
  }

  function Concat(chunks: seq<Bytes>): Bytes {
    if chunks == [] then [] else chunks[0] + Concat(chunks[1..])
  }

  /** Successive pushes; `o` is what happened so far. */
  function Feed(text: Bytes -> string, o: Out, chunks: seq<Bytes>): Out
    decreases |chunks|
  {
    if chunks == [] then o
    else Feed(text, Continue(text, o, chunks[0]), chunks[1..])
  }

  lemma {:induction false} FeedAppend(text: Bytes -> string, f: Fields, p: Bytes, chunks: seq<Bytes>)
    ensures Feed(text, Pump(text, f, p), chunks) == Pump(text, f, p + Concat(chunks))
    decreases |chunks|
  {
    if chunks == [] {
      assert p + Concat(chunks) == p;
    } else {
      PumpAppend(text, f, p, chunks[0]);
      FeedAppend(text, f, p + chunks[0], chunks[1..]);
      Associative(p, chunks[0], Concat(chunks[1..]));
    }
  }

  /** The events of a whole stream: pushed at once, then finished. */
  function Decode(text: Bytes -> string, b: Bytes): seq<Event> {
    var o := Pump(text, EMPTY, b);
    o.events + Flush(text, o.fields, o.rest)
  }

  /** Every fragmentation of a byte stream, pushed piece by piece and finished, yields the events of one push. */
  method DecodeStream(text: Bytes -> string, chunks: seq<Bytes>) returns (events: seq<Event>)
    ensures events == Decode(text, Concat(chunks))
  {
    var d := new Decoder(text);
    events := [];
    ghost var start := Out(EMPTY, [], []);
    for i := 0 to |chunks|
      invariant fresh(d) && d.text == text
      invariant Feed(text, start, chunks) == Feed(text, Out(d.Pending(), d.buffer, events), chunks[i..])
    {
      assert chunks[i..][1..] == chunks[i + 1..];
      var part := d.Push(chunks[i]);
      events := events + part;
    }
    assert Pump(text, EMPTY, []) == start;
    FeedAppend(text, EMPTY, [], chunks);
    assert [] + Concat(chunks) == Concat(chunks);
    var last := d.Finish();
    events := events + last;
  }

  // ---------------------------------------------------------------- printing and decoding back

  predicate EndsInCr(s: string) {
    s != [] && s[|s| - 1] == '\r'
  }

  function Strip(s: string): string {
    if EndsInCr(s) then s[..|s| - 1] else s
  }

  /** What is used of UTF-8: decoding undoes encoding, and line feed and carriage return are single bytes that
      stand only for themselves. */
  ghost predicate Utf8(encode: string -> Bytes, text: Bytes -> string) {
    && encode("") == []
    && (forall s :: text(encode(s)) == s)
    && (forall s :: LF in encode(s) <==> '\n' in s)
    && (forall s :: EndsInCr(s) ==> encode(s) == encode(Strip(s)) + [CR])
    && (forall s :: !EndsInCr(s) ==> StripCr(encode(s)) == encode(s))
    && (forall b :: LF !in b ==> '\n' !in text(b))
  }

  function Line(encode: string -> Bytes, s: string): Bytes {
    encode(s) + [LF]
  }

  function Split(data: string): (lines: seq<string>)
    ensures lines != [] && forall i | 0 <= i < |lines| :: '\n' !in lines[i]
    decreases |data|
  {
    var i := Find(data, '\n');
    if i == |data| then [data] else [data[..i]] + Split(data[i + 1..])
  }

  function PrintData(encode: string -> Bytes, lines: seq<string>): Bytes {
    if lines == [] then [] else Line(encode, "data: " + lines[0]) + PrintData(encode, lines[1..])
  }

  /** An event as an event line, one data line per line of its data, and a blank line. */
  function Print(encode: string -> Bytes, e: Event): Bytes {
    (if e.event.Some? then Line(encode, "event: " + e.event.value) else [])
    + (PrintData(encode, Split(e.data)) + [LF])
  }

  function PrintAll(encode: string -> Bytes, es: seq<Event>): Bytes {
    if es == [] then [] else Print(encode, es[0]) + PrintAll(encode, es[1..])
  }

  function StripAll(lines: seq<string>): seq<string> {
    seq(|lines|, i requires 0 <= i < |lines| => Strip(lines[i]))
  }

  lemma JoinCons(line: string, lines: seq<string>)
    requires lines != []
    ensures Join([line] + lines) == line + "\n" + Join(lines)
  {
    assert ([line] + lines)[1..] == lines;
  }

  lemma CutAt(data: string, i: nat)
    requires i < |data| && data[i] == '\n'
    ensures data[..i] + "\n" + data[i + 1..] == data
  {
  }

  lemma {:induction false} JoinSplit(data: string)
    ensures Join(Split(data)) == data
    decreases |data|
  {
    var i := Find(data, '\n');
    if i < |data| {
      JoinSplit(data[i + 1..]);
      JoinCons(data[..i], Split(data[i + 1..]));
      CutAt(data, i);
    }
  }

  lemma FindIs<T>(head: seq<T>, c: T, tail: seq<T>)
    requires c !in head
    ensures Find(head + [c] + tail, c) == |head|
  {
    assert head + [c] + tail == head + ([c] + tail);
    FindAppend(head, [c] + tail, c);
  }

  /** A line `field: value` read back. */
  lemma FieldLine(field: string, v: string)
    requires ':' !in field
    ensures var s := field + ": " + v; FieldOf(s) == field && ValueOf(s) == v
  {
    var s := field + ": " + v;
    assert s == field + [':'] + (" " + v);
    FindIs(field, ':', " " + v);
    assert s[|field| + 1..] == " " + v && (" " + v)[1..] == v;
  }

  lemma ConsumeEvent(f: Fields, v: string)
    ensures Consume(f, "event: " + v) == Consumed(f.(name := Some(v)), [])
  {
    assert "event" + ": " + v == "event: " + v;
    FieldLine("event", v);
  }

  lemma ConsumeData(f: Fields, v: string)
    ensures Consume(f, "data: " + v) == Consumed(f.(lines := f.lines + [v]), [])
  {
    assert "data" + ": " + v == "data: " + v;
    FieldLine("data", v);
    assert FieldOf("data: " + v)[0] == 'd';
  }

  lemma StripPrefixed(head: string, v: string)
    requires head != [] && !EndsInCr(head)
    ensures Strip(head + v) == head + Strip(v)
  {
    if v == [] {
      assert head + v == head;
    } else {
      assert EndsInCr(head + v) <==> EndsInCr(v);
    }
  }

  lemma CutLine(raw: Bytes, rest: Bytes)
    requires LF !in raw
    ensures var b := raw + [LF] + rest; Find(b, LF) == |raw| && b[..|raw|] == raw && b[|raw| + 1..] == rest
  {
    FindIs(raw, LF, rest);
  }

  /** A printed line is consumed as its text without one trailing carriage return. */
  lemma PumpLine(text: Bytes -> string, encode: string -> Bytes, f: Fields, s: string, rest: Bytes)
    requires Utf8(encode, text) && '\n' !in s
    ensures var c := Consume(f, Strip(s));
            Pump(text, f, Line(encode, s) + rest) == Prepend(c.events, Pump(text, c.fields, rest))
  {
    CutLine(encode(s), rest);
    assert StripCr(encode(s)) == encode(Strip(s));
  }

  lemma PumpDataLine(text: Bytes -> string, encode: string -> Bytes, f: Fields, v: string, rest: Bytes)
    requires Utf8(encode, text) && '\n' !in v
    ensures Pump(text, f, Line(encode, "data: " + v) + rest) == Pump(text, f.(lines := f.lines + [Strip(v)]), rest)
  {
    PumpLine(text, encode, f, "data: " + v, rest);
    StripPrefixed("data: ", v);
    ConsumeData(f, Strip(v));
    PrependNothing(Pump(text, f.(lines := f.lines + [Strip(v)]), rest));
  }

  lemma PumpEventLine(text: Bytes -> string, encode: string -> Bytes, f: Fields, v: string, rest: Bytes)
    requires Utf8(encode, text) && '\n' !in v
    ensures Pump(text, f, Line(encode, "event: " + v) + rest) == Pump(text, f.(name := Some(Strip(v))), rest)
  {
    PumpLine(text, encode, f, "event: " + v, rest);
    StripPrefixed("event: ", v);
    ConsumeEvent(f, Strip(v));
    PrependNothing(Pump(text, f.(name := Some(Strip(v))), rest));
  }

  lemma StripFirst(xs: seq<string>, lines: seq<string>)
    requires lines != []
    ensures xs + [Strip(lines[0])] + StripAll(lines[1..]) == xs + StripAll(lines)
  {
  }

  lemma {:induction false} PumpData(text: Bytes -> string, encode: string -> Bytes, f: Fields, lines: seq<string>,
                                    rest: Bytes)
    requires Utf8(encode, text) && forall i | 0 <= i < |lines| :: '\n' !in lines[i]
    ensures Pump(text, f, PrintData(encode, lines) + rest)
         == Pump(text, f.(lines := f.lines + StripAll(lines)), rest)
    decreases |lines|
  {
    if lines == [] {
      assert PrintData(encode, lines) + rest == rest;
      assert f.lines + StripAll(lines) == f.lines;
    } else {
      var v, later := lines[0], lines[1..];
      Associative(Line(encode, "data: " + v), PrintData(encode, later), rest);
      PumpDataLine(text, encode, f, v, PrintData(encode, later) + rest);
      PumpData(text, encode, f.(lines := f.lines + [Strip(v)]), later, rest);
      StripFirst(f.lines, lines);
    }
  }

  lemma PumpBlank(text: Bytes -> string, encode: string -> Bytes, f: Fields, rest: Bytes)
    requires Utf8(encode, text)
    ensures Pump(text, f, [LF] + rest) == Prepend(Dispatch(f).events, Pump(text, Dispatch(f).fields, rest))
  {
    assert Line(encode, "") == [LF];
    PumpLine(text, encode, f, "", rest);
  }

  function StripName(n: Option<string>): Option<string> {
    if n.Some? then Some(Strip(n.value)) else None
  }

  predicate NameIsOneLine(e: Event) {
    e.event.Some? ==> '\n' !in e.event.value
  }

  /** What a printed event decodes to: the same event with one trailing carriage return per field removed. */
  function Printed(e: Event): Event {
    Event(StripName(e.event), Join(StripAll(Split(e.data))))
  }

  lemma PumpBody(text: Bytes -> string, encode: string -> Bytes, name: Option<string>, data: string, rest: Bytes)
    requires Utf8(encode, text)
    ensures Pump(text, Fields(name, []), PrintData(encode, Split(data)) + [LF] + rest)
         == Prepend([Event(name, Join(StripAll(Split(data))))], Pump(text, EMPTY, rest))
  {
    Associative(PrintData(encode, Split(data)), [LF], rest);
    PumpData(text, encode, Fields(name, []), Split(data), [LF] + rest);
    var g := Fields(name, StripAll(Split(data)));
    assert [] + StripAll(Split(data)) == g.lines;
    PumpBlank(text, encode, g, rest);
  }

  lemma PumpPrinted(text: Bytes -> string, encode: string -> Bytes, e: Event, rest: Bytes)
    requires Utf8(encode, text) && NameIsOneLine(e)
    ensures Pump(text, EMPTY, Print(encode, e) + rest) == Prepend([Printed(e)], Pump(text, EMPTY, rest))
  {
    var body := PrintData(encode, Split(e.data)) + [LF];
    PumpBody(text, encode, StripName(e.event), e.data, rest);
    if e.event.Some? {
      Associative(Line(encode, "event: " + e.event.value), body, rest);
      PumpEventLine(text, encode, EMPTY, e.event.value, body + rest);
    } else {
      assert [] + body == body;
    }
  }

  /** The fields of the event contain no line feed and do not end in a carriage return. */
  predicate Printable(e: Event) {
    && (e.event.Some? ==> '\n' !in e.event.value && !EndsInCr(e.event.value))
    && (forall i | 0 <= i < |Split(e.data)| :: !EndsInCr(Split(e.data)[i]))
  }

  function PrintedAll(es: seq<Event>): seq<Event> {
    if es == [] then [] else [Printed(es[0])] + PrintedAll(es[1..])
  }

  /** Printed events decode to themselves with their trailing carriage returns removed. */
  lemma {:induction false} PumpAll(text: Bytes -> string, encode: string -> Bytes, es: seq<Event>)
    requires Utf8(encode, text) && forall i | 0 <= i < |es| :: NameIsOneLine(es[i])
    ensures Pump(text, EMPTY, PrintAll(encode, es)) == Out(EMPTY, [], PrintedAll(es))
    decreases |es|
  {
    if es != [] {
      PumpPrinted(text, encode, es[0], PrintAll(encode, es[1..]));
      PumpAll(text, encode, es[1..]);
    }
  }

  // ---------------------------------------------------------------- exactly when events survive the trip

  predicate OneLine(n: Option<string>) {
    n.Some? ==> '\n' !in n.value
  }

  lemma ConsumeKeepsOneLine(f: Fields, line: string)
    requires OneLine(f.name) && '\n' !in line
    ensures OneLine(Consume(f, line).fields.name)
    ensures forall e | e in Consume(f, line).events :: OneLine(e.event)
  {
  }

  lemma {:induction false} PumpKeepsOneLine(text: Bytes -> string, encode: string -> Bytes, f: Fields, b: Bytes)
    requires Utf8(encode, text) && OneLine(f.name)
    ensures var o := Pump(text, f, b);
            OneLine(o.fields.name) && LF !in o.rest && forall e | e in o.events :: OneLine(e.event)
    decreases |b|
  {
    var i := Find(b, LF);
    if i < |b| {
      var line := StripCr(b[..i]);
      assert LF !in line;
      ConsumeKeepsOneLine(f, text(line));
      PumpKeepsOneLine(text, encode, Consume(f, text(line)).fields, b[i + 1..]);
    } else {
      assert b[..i] == b;
    }
  }

  /** No decoded event has a line feed in its name. */
  lemma DecodedNamesAreOneLine(text: Bytes -> string, encode: string -> Bytes, b: Bytes)
    requires Utf8(encode, text)
    ensures forall e | e in Decode(text, b) :: OneLine(e.event)
  {
    PumpKeepsOneLine(text, encode, EMPTY, b);
    var o := Pump(text, EMPTY, b);
    if o.rest != [] {
      ConsumeKeepsOneLine(o.fields, text(o.rest));
    }
  }

  lemma {:induction false} StrippingShortens(lines: seq<string>)
    ensures |Join(StripAll(lines))| <= |Join(lines)|
    ensures |Join(StripAll(lines))| == |Join(lines)| <==> forall i | 0 <= i < |lines| :: !EndsInCr(lines[i])
    decreases |lines|
  {
    if lines != [] {
      assert StripAll(lines)[1..] == StripAll(lines[1..]);
      StrippingShortens(lines[1..]);
      assert forall i | 1 <= i < |lines| :: lines[i] == lines[1..][i - 1];
    }
  }

  lemma PrintedExactly(e: Event)
    requires NameIsOneLine(e)
    ensures Printed(e) == e <==> Printable(e)
  {
    StrippingShortens(Split(e.data));
    JoinSplit(e.data);
    if Printable(e) {
      assert StripAll(Split(e.data)) == Split(e.data);
    }
  }

  lemma {:induction false} PrintedAllExactly(es: seq<Event>)
    requires forall i | 0 <= i < |es| :: NameIsOneLine(es[i])
    ensures PrintedAll(es) == es <==> forall i | 0 <= i < |es| :: Printable(es[i])
    decreases |es|
  {
    if es != [] {
      var head, tail := es[0], es[1..];
      HeadTail(es);
      PrintedExactly(head);
      PrintedAllExactly(tail);
      HeadsAndTails(Printed(head), PrintedAll(tail), head, tail);
      assert forall i | 1 <= i < |es| :: es[i] == tail[i - 1];
      assert forall i | 0 <= i < |tail| :: tail[i] == es[i + 1];
    }
  }

  lemma HeadsAndTails<T>(a: T, s: seq<T>, b: T, t: seq<T>)
    ensures [a] + s == [b] + t <==> a == b && s == t
  {
    assert ([a] + s)[0] == a && ([b] + t)[0] == b;
    assert ([a] + s)[1..] == s && ([b] + t)[1..] == t;
  }

  /** A list of printed events decodes back to itself if and only if no name has a line feed and no line of a name or
      of data ends in a carriage return. */
  lemma RoundTripExactly(text: Bytes -> string, encode: string -> Bytes, es: seq<Event>)
    requires Utf8(encode, text)
    ensures Decode(text, PrintAll(encode, es)) == es <==> forall i | 0 <= i < |es| :: Printable(es[i])
  {
    var b := PrintAll(encode, es);
    DecodedNamesAreOneLine(text, encode, b);
    if forall i | 0 <= i < |es| :: NameIsOneLine(es[i]) {
      PumpAll(text, encode, es);
      PrintedAllExactly(es);
    } else {
      var i :| 0 <= i < |es| && !NameIsOneLine(es[i]);
      assert es[i] in es && !OneLine(es[i].event) && !Printable(es[i]);
    }
  }

  /** In particular printable events decode back to themselves. */
  lemma PrintedEventsDecode(text: Bytes -> string, encode: string -> Bytes, es: seq<Event>)
    requires Utf8(encode, text) && forall i | 0 <= i < |es| :: Printable(es[i])
    ensures Decode(text, PrintAll(encode, es)) == es
  {
    RoundTripExactly(text, encode, es);
  }

  // ---------------------------------------------------------------- every form of a line

  lemma NoColon(s: string, tail: string)
    requires ':' !in s
    ensures Find(s, ':') == |s| && Find(s + ":" + tail, ':') == |s|
    ensures (s + ":" + tail)[..|s|] == s && (s + ":" + tail)[|s| + 1..] == tail
  {
    FindIs(s, ':', tail);
    assert forall j | 0 <= j < |s| :: s[j] in s;
  }

  /** A field with its value: one leading space belongs to the separator, and any further one to the value. */
  lemma FieldForms(f: Fields, field: string, v: string)
    requires field != [] && ':' !in field
    ensures var after := (value: string) =>
              if field == "data" then f.(lines := f.lines + [value])
              else if field == "event" then f.(name := Some(value))
              else f;
            && Consume(f, field) == Consumed(after(""), [])
            && Consume(f, field + ":" + (" " + v)) == Consumed(after(v), [])
            && (v == [] || v[0] != ' ' ==> Consume(f, field + ":" + v) == Consumed(after(v), []))
  {
    NoColon(field, v);
    NoColon(field, " " + v);
  }

  /** A comment changes nothing. */
  lemma CommentsAreIgnored(f: Fields, v: string)
    ensures Consume(f, ":" + v) == Consumed(f, [])
  {
  }

  /** A blank line hands out the pending name and the pending data lines, joined by line feeds, and forgets them;
      when nothing is pending it hands out nothing. */
  lemma BlankLine(f: Fields)
    ensures f.name.None? && f.lines == [] ==> Consume(f, "") == Consumed(f, [])
    ensures f.name.Some? || f.lines != [] ==>
              Consume(f, "") == Consumed(Fields(None, []), [Event(f.name, Join(f.lines))])
  {
  }

  /** Finishing is one line feed for an unterminated line, unless a carriage return ends it, and one blank line. */
  lemma FinishIsABlankLine(text: Bytes -> string, b: Bytes)
    requires text([]) == "" && (b != [] ==> b[|b| - 1] != CR)
    ensures Decode(text, b) == Pump(text, EMPTY, b + [LF, LF]).events
  {
    var o := Pump(text, EMPTY, b);
    PumpAppend(text, EMPTY, b, [LF, LF]);
    RestIsTail(text, EMPTY, b);
    FlushIsABlankLine(text, o.fields, o.rest);
  }

  lemma FlushIsABlankLine(text: Bytes -> string, f: Fields, rest: Bytes)
    requires text([]) == "" && LF !in rest && (rest != [] ==> rest[|rest| - 1] != CR)
    ensures Pump(text, f, rest + [LF, LF]).events == Flush(text, f, rest)
  {
    if rest == [] {
      TwoBlankLines(text, f);
    } else {
      LastLine(text, f, rest);
    }
  }

  lemma {:induction false} RestIsTail(text: Bytes -> string, f: Fields, b: Bytes)
    ensures var r := Pump(text, f, b).rest;
            LF !in r && (r != [] ==> b != [] && r[|r| - 1] == b[|b| - 1])
    decreases |b|
  {
    var i := Find(b, LF);
    if i < |b| {
      RestIsTail(text, Consume(f, text(StripCr(b[..i]))).fields, b[i + 1..]);
    }
  }

  lemma TwoBlankLines(text: Bytes -> string, f: Fields)
    requires text([]) == ""
    ensures Pump(text, f, [] + [LF, LF]).events == Dispatch(f).events
  {
    assert [] + [LF, LF] == [LF, LF] && [LF, LF][1..] == [LF] && [LF][1..] == [];
    assert [LF, LF][..0] == [] && [LF][..0] == [];
    assert Pump(text, Dispatch(f).fields, [LF]).events == [];
  }

  lemma LastLine(text: Bytes -> string, f: Fields, rest: Bytes)
    requires text([]) == "" && rest != [] && LF !in rest && rest[|rest| - 1] != CR
    ensures Pump(text, f, rest + [LF, LF]).events == Flush(text, f, rest)
  {
    CutLine(rest, [LF]);
    assert rest + [LF] + [LF] == rest + [LF, LF];
    var c := Consume(f, text(rest));
    assert [LF][..0] == [] && [LF][1..] == [];
    assert Pump(text, c.fields, [LF]).events == Dispatch(c.fields).events;
  }
}
