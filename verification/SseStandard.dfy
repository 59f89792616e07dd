/**
 Server-sent events as section 9.2.6 of the WHATWG HTML Standard reads them, for the fields event and data, and when the
 reader of Sse agrees with it.
 */
module SseStandard {
  import opened Common
  import opened Sse
  import Utf8

  /** Where a line ends, and where the next one begins. */
  datatype Break = Break(end: nat, next: nat)

  /** The end of the first line: CR LF, LF or a CR alone. */
  function LineBreak(s: Bytes): (r: Option<Break>)
    ensures r.Some? ==> r.value.end < r.value.next <= |s|
  {
    if s == [] then None
    else if s[0] == LF then Some(Break(0, 1))
    else if s[0] == CR then Some(Break(0, if |s| > 1 && s[1] == LF then 2 else 1))
    else
      match LineBreak(s[1..])
      case None => None
      case Some(b) => Some(Break(b.end + 1, b.next + 1))
  }

  /** What no blank line ends is discarded. */
  function StandardLines(rest: Bytes, p: Partial): seq<Event>
    decreases |rest|
  {
    match LineBreak(rest)
    case None => []
    case Some(Break(end, next)) =>
      if end == 0 then Dispatched(p) + StandardLines(rest[next..], NOTHING)
      else StandardLines(rest[next..], TakeLine(p, rest[..end]))
  }

  const MARK: Bytes := [0xEF, 0xBB, 0xBF]

  function WithoutMark(s: Bytes): Bytes { if MARK <= s then s[3..] else s }

  /** One byte order mark at the start does not count, and the rest is decoded. */
  function Standard(s: Bytes): seq<Event> { StandardLines(Utf8.Decode(WithoutMark(s)), NOTHING) }

  predicate EveryCRBeforeLF(s: Bytes) { forall i :: 0 <= i < |s| && s[i] == CR ==> i + 1 < |s| && s[i + 1] == LF }

  /** The event that is still being put together when the input ends. */
  function Left(rest: Bytes, p: Partial): Partial
    decreases |rest|
  {
    if rest == [] then p
    else
      LineOfRest(rest);
      Left(Tail(rest), if Content(rest) == [] then NOTHING else TakeLine(p, Content(rest)))
  }

  lemma {:induction false} LineBreakIs(s: Bytes, i: nat)
    requires i < |s| && (s[i] == LF || s[i] == CR) && forall k :: 0 <= k < i ==> s[k] != LF && s[k] != CR
    ensures LineBreak(s) == Some(Break(i, if s[i] == CR && i + 1 < |s| && s[i + 1] == LF then i + 2 else i + 1))
  {
    if i > 0 {
      LineBreakIs(s[1..], i - 1);
    }
  }

  lemma {:induction false} LineBreakNone(s: Bytes)
    requires LF !in s && CR !in s
    ensures LineBreak(s) == None
  {
    if s != [] {
      LineBreakNone(s[1..]);
    }
  }

  /** Where each CR comes before LF, both readings split the input at the same places. */
  lemma SameLine(rest: Bytes)
    requires EveryCRBeforeLF(rest) && rest != []
    ensures EveryCRBeforeLF(Tail(rest))
    ensures var b := LineBreak(rest);
            if b.None? then Tail(rest) == [] && Content(rest) == rest
            else Content(rest) == rest[..b.value.end] && Tail(rest) == rest[b.value.next..]
  {
    hide LineFeed, LineBreak;
    match LineFeed(rest)
    case None =>
      forall k | 0 <= k < |rest|
        ensures rest[k] != CR
      {
        assert k + 1 < |rest| ==> rest[k + 1] != LF;
      }
      LineBreakNone(rest);
    case Some(i) =>
      forall k | 0 <= k < i && rest[k] == CR
        ensures k + 1 == i
      {
        assert rest[k + 1] == LF;
      }
      LineBreakIs(rest, if i > 0 && rest[i - 1] == CR then i - 1 else i);
  }

  lemma StandardStep(rest: Bytes, p: Partial)
    ensures var b := LineBreak(rest);
            StandardLines(rest, p) ==
            if b.None? then []
            else if b.value.end == 0 then Dispatched(p) + StandardLines(rest[b.value.next..], NOTHING)
            else StandardLines(rest[b.value.next..], TakeLine(p, rest[..b.value.end]))
  {
  }

  /** The reader dispatches what the standard does, and then what is left. */
  lemma {:induction false} StandardThenLeft(rest: Bytes, p: Partial, maximum: nat)
    requires EveryCRBeforeLF(rest) && Events(rest, p, maximum).1
    ensures Events(rest, p, maximum).0 == StandardLines(rest, p) + Dispatched(Left(rest, p))
    decreases |rest|
  {
    hide LineFeed, Content, Tail, LineBreak, TakeLine, Dispatched, StandardLines;
    if rest == [] {
      StandardNothing(p);
    } else {
      LineOfRest(rest);
      SameLine(rest);
      StandardStep(rest, p);
      EventsStep(rest, p, maximum);
      var next := if Content(rest) == [] then NOTHING else TakeLine(p, Content(rest));
      StandardThenLeft(Tail(rest), next, maximum);
      if LineBreak(rest).None? {
        StandardNothing(next);
      }
    }
  }

  lemma StandardNothing(p: Partial)
    ensures StandardLines([], p) == [] && Left([], p) == p && LineBreak([]) == None
  {
  }

  // ---- Decoding before or after ----

  function DecodedEvent(e: Event): Event { Event(Utf8.Decode(e.name), Utf8.Decode(e.data)) }

  function DecodedEvents(events: seq<Event>): seq<Event> {
    seq(|events|, i requires 0 <= i < |events| => DecodedEvent(events[i]))
  }

  /** q is put together from decoded lines as p is from the lines themselves. */
  predicate Alike(p: Partial, q: Partial) {
    && q.name == Utf8.Decode(p.name) && |q.data| == |p.data|
    && forall i :: 0 <= i < |p.data| ==> q.data[i] == Utf8.Decode(p.data[i])
  }

  lemma {:induction false} JoinDecoded(lines: seq<Bytes>, decoded: seq<Bytes>)
    requires |lines| == |decoded| && forall i :: 0 <= i < |lines| ==> decoded[i] == Utf8.Decode(lines[i])
    ensures Join(decoded) == Utf8.Decode(Join(lines))
    decreases |lines|
  {
    hide Utf8.Decode;
    if lines == [] {
      Utf8.DecodeNothing();
    } else if |lines| > 1 {
      var n := |lines| - 1;
      JoinDecoded(lines[..n], decoded[..n]);
      Utf8.DecodeAscii(Join(lines[..n]), LF, lines[n]);
    }
  }

  lemma DispatchedDecoded(p: Partial, q: Partial)
    requires Alike(p, q)
    ensures Dispatched(q) == DecodedEvents(Dispatched(p))
  {
    hide Utf8.Decode, Join;
    JoinDecoded(p.data, q.data);
  }

  /** A field name is the same before and after decoding. */
  lemma SameField(field: Bytes, name: Bytes)
    requires Utf8.Valid(name) && 0xEF !in name
    ensures Utf8.Decode(field) == name <==> field == name
  {
    hide Utf8.Valid, Utf8.Decode;
    Utf8.DecodeIdentity(name);
    if Utf8.Valid(field) {
      Utf8.DecodeIdentity(field);
    } else {
      Utf8.InvalidShows(field);
    }
  }

  lemma SameFields(field: Bytes)
    ensures Utf8.Decode(field) == EVENT <==> field == EVENT
    ensures Utf8.Decode(field) == DATA <==> field == DATA
  {
    hide Utf8.Decode;
    assert EVENT[1..][1..][1..][1..][1..] == [] && DATA[1..][1..][1..][1..] == [];
    SameField(field, EVENT);
    SameField(field, DATA);
  }

  lemma WithoutSpaceDecoded(value: Bytes)
    ensures WithoutSpace(Utf8.Decode(value)) == Utf8.Decode(WithoutSpace(value))
  {
    hide Utf8.Decode, Utf8.First, Utf8.Width;
    Utf8.DecodeNothing();
    if value != [] {
      Utf8.DecodeStep(value);
      if value[0] == SPACE {
        assert value == [] + [SPACE] + value[1..];
        Utf8.DecodeAscii([], SPACE, value[1..]);
      }
    }
  }

  lemma ColonDecoded(line: Bytes)
    ensures Colon(line).Some? ==> Colon(line).value < |line|
    ensures var c, decoded := Colon(line), Utf8.Decode(line);
            if c.None? then Colon(decoded) == None
            else
              var field, value := Utf8.Decode(line[..c.value]), Utf8.Decode(line[c.value + 1..]);
              && Colon(decoded) == Some(|field|) && (|field| == 0 <==> c.value == 0)
              && decoded == field + [COLON] + value
  {
    hide Utf8.Decode, Utf8.First, Utf8.Width, Colon;
    ColonFirst(line);
    match Colon(line)
    case None =>
      Utf8.DecodeWithout(line, COLON);
      ColonNone(Utf8.Decode(line));
    case Some(i) =>
      assert line == line[..i] + [COLON] + line[i + 1..];
      Utf8.DecodeAscii(line[..i], COLON, line[i + 1..]);
      Utf8.DecodeWithout(line[..i], COLON);
      ColonAt(Utf8.Decode(line), |Utf8.Decode(line[..i])|);
      Utf8.DecodeNothing();
      if i > 0 {
        Utf8.DecodeStep(line[..i]);
      }
  }

  lemma {:induction false} ColonFirst(line: Bytes)
    ensures Colon(line).None? ==> COLON !in line
    ensures Colon(line).Some? ==>
              Colon(line).value < |line| && line[Colon(line).value] == COLON && COLON !in line[..Colon(line).value]
  {
    if line != [] {
      ColonFirst(line[1..]);
    }
  }

  lemma {:induction false} ColonNone(line: Bytes)
    requires COLON !in line
    ensures Colon(line) == None
  {
    if line != [] {
      ColonNone(line[1..]);
    }
  }

  lemma FieldDecoded(line: Bytes)
    ensures var decoded := Utf8.Decode(line);
            && FieldOf(decoded) == Utf8.Decode(FieldOf(line)) && ValueOf(decoded) == Utf8.Decode(ValueOf(line))
            && (Colon(decoded) == Some(0) <==> Colon(line) == Some(0))
  {
    hide Utf8.Decode, Colon, WithoutSpace;
    ColonDecoded(line);
    Utf8.DecodeNothing();
    if Colon(line).Some? {
      var i := Colon(line).value;
      var decoded, field, value := Utf8.Decode(line), Utf8.Decode(line[..i]), Utf8.Decode(line[i + 1..]);
      assert decoded[..|field|] == field && decoded[|field| + 1..] == value;
      WithoutSpaceDecoded(line[i + 1..]);
    }
  }

  lemma WithFieldAlike(p: Partial, q: Partial, field: Bytes, value: Bytes)
    requires Alike(p, q)
    ensures Alike(WithField(p, field, value), WithField(q, Utf8.Decode(field), Utf8.Decode(value)))
  {
    hide Utf8.Decode;
    SameFields(field);
  }

  lemma TakeLineDecoded(p: Partial, q: Partial, line: Bytes)
    requires Alike(p, q)
    ensures Alike(TakeLine(p, line), TakeLine(q, Utf8.Decode(line)))
  {
    hide Utf8.Decode, Colon, FieldOf, ValueOf, WithField;
    FieldDecoded(line);
    var before, after := p.(taken := p.taken + |line|), q.(taken := q.taken + |Utf8.Decode(line)|);
    assert Alike(before, after);
    WithFieldAlike(before, after, FieldOf(line), ValueOf(line));
  }

  lemma {:induction false} LineBreakFound(s: Bytes)
    ensures var b := LineBreak(s);
            if b.None? then LF !in s && CR !in s
            else
              var end, next := b.value.end, b.value.next;
              && LF !in s[..end] && CR !in s[..end] && (s[end] == LF || s[end] == CR)
              && (next == end + 1 || (next == end + 2 && s[end] == CR && s[end + 1] == LF))
              && (next == end + 1 && s[end] == CR && next < |s| ==> s[next] != LF)
  {
    if s != [] && s[0] != LF && s[0] != CR {
      LineBreakFound(s[1..]);
    }
  }

  /** The first line, what ends it and what comes then. */
  lemma BreakAt(line: Bytes, end: byte, after: Bytes)
    requires LF !in line && CR !in line && (end == LF || end == CR)
    ensures var s, pair := line + [end] + after, end == CR && after != [] && after[0] == LF;
            && LineBreak(s) == Some(Break(|line|, if pair then |line| + 2 else |line| + 1))
            && s[..|line|] == line && s[|line| + 1..] == after && (pair ==> s[|line| + 2..] == after[1..])
  {
    LineBreakIs(line + [end] + after, |line|);
  }

  /** Decoding leaves the ends of lines where they are. */
  lemma LineBreakDecoded(s: Bytes)
    ensures var b, decoded := LineBreak(s), Utf8.Decode(s);
            if b.None? then LineBreak(decoded) == None
            else
              var line, rest := Utf8.Decode(s[..b.value.end]), Utf8.Decode(s[b.value.next..]);
              && LineBreak(decoded).Some? && LineBreak(decoded).value.end == |line|
              && (|line| == 0 <==> b.value.end == 0)
              && decoded[..|line|] == line && decoded[LineBreak(decoded).value.next..] == rest
  {
    hide Utf8.Decode, Utf8.First, Utf8.Width, LineBreak;
    LineBreakFound(s);
    match LineBreak(s)
    case None =>
      Utf8.DecodeWithout(s, LF);
      Utf8.DecodeWithout(s, CR);
      LineBreakNone(Utf8.Decode(s));
    case Some(Break(end, next)) =>
      var line, after := s[..end], s[end + 1..];
      assert s == line + [s[end]] + after;
      Utf8.DecodeAscii(line, s[end], after);
      Utf8.DecodeWithout(line, LF);
      Utf8.DecodeWithout(line, CR);
      BreakAt(Utf8.Decode(line), s[end], Utf8.Decode(after));
      EmptyDecoded(line);
      AfterDecoded(after);
      assert after == if next == end + 2 then [LF] + s[next..] else s[next..];
  }

  lemma EmptyDecoded(s: Bytes)
    ensures Utf8.Decode(s) == [] <==> s == []
  {
    hide Utf8.Decode;
    Utf8.DecodeNothing();
    if s != [] {
      Utf8.DecodeStep(s);
    }
  }

  /** LF comes first after decoding exactly when it came first before. */
  lemma AfterDecoded(after: Bytes)
    ensures var decoded := Utf8.Decode(after);
            && (decoded != [] && decoded[0] == LF <==> after != [] && after[0] == LF)
            && (after != [] && after[0] == LF ==> decoded != [] && decoded[1..] == Utf8.Decode(after[1..]))
  {
    hide Utf8.Decode, Utf8.First, Utf8.Width;
    Utf8.DecodeNothing();
    if after != [] {
      Utf8.DecodeStep(after);
    }
  }

  /** Splitting and dispatching decoded text gives the decoded events. */
  lemma {:induction false} StandardDecoded(rest: Bytes, p: Partial, q: Partial)
    requires Alike(p, q)
    ensures StandardLines(Utf8.Decode(rest), q) == DecodedEvents(StandardLines(rest, p))
    decreases |rest|
  {
    hide Utf8.Decode, LineBreak, TakeLine, Dispatched, StandardLines, Alike, DecodedEvent;
    LineBreakDecoded(rest);
    StandardStep(rest, p);
    StandardStep(Utf8.Decode(rest), q);
    if LineBreak(rest).Some? {
      var Break(end, next) := LineBreak(rest).value;
      if end == 0 {
        DispatchedDecoded(p, q);
        AlikeNothing();
        StandardDecoded(rest[next..], NOTHING, NOTHING);
      } else {
        TakeLineDecoded(p, q, rest[..end]);
        StandardDecoded(rest[next..], TakeLine(p, rest[..end]), TakeLine(q, Utf8.Decode(rest[..end])));
      }
    }
  }

  lemma AlikeNothing()
    ensures Alike(NOTHING, NOTHING)
  {
    Utf8.DecodeNothing();
  }

  /** So the standard's events are those of the undecoded text, decoded. */
  lemma StandardIs(source: Bytes)
    ensures Standard(source) == DecodedEvents(StandardLines(WithoutMark(source), NOTHING))
  {
    hide Utf8.Decode, StandardLines, DecodedEvents;
    AlikeNothing();
    StandardDecoded(WithoutMark(source), NOTHING, NOTHING);
  }

  // ---- When they agree ----

  predicate ValidEvents(events: seq<Event>) {
    forall i :: 0 <= i < |events| ==> Utf8.Valid(events[i].name) && Utf8.Valid(events[i].data)
  }

  lemma DecodedSame(events: seq<Event>)
    ensures DecodedEvents(events) == events <==> ValidEvents(events)
  {
    hide Utf8.Decode, Utf8.Valid;
    forall i | 0 <= i < |events|
      ensures DecodedEvent(events[i]) == events[i] <==> Utf8.Valid(events[i].name) && Utf8.Valid(events[i].data)
    {
      Utf8.DecodeIdentity(events[i].name);
      Utf8.DecodeIdentity(events[i].data);
    }
    if DecodedEvents(events) == events {
      assert forall i :: 0 <= i < |events| ==> DecodedEvents(events)[i] == DecodedEvent(events[i]);
    }
  }

  /**
   When the reader agrees with the standard. Where no byte order mark comes first, every CR comes before LF and the
   limit is kept, it does so exactly if no event with data is left when the input ends and all that was dispatched is
   valid UTF-8. In valid input the latter is so.
   */
  lemma AgreesWithStandard(source: Bytes, maximum: nat)
    requires !(MARK <= source) && EveryCRBeforeLF(source) && Events(source, NOTHING, maximum).1
    ensures var events, complete := Events(source, NOTHING, maximum).0, Left(source, NOTHING).data == [];
            && (events == Standard(source) <==> complete && ValidEvents(events))
            && (Utf8.Valid(source) ==> (events == Standard(source) <==> complete))
  {
    hide Events, Left, StandardLines, DecodedEvents, ValidEvents, Utf8.Decode, Utf8.Valid;
    StandardThenLeft(source, NOTHING, maximum);
    StandardIs(source);
    var raw := StandardLines(source, NOTHING);
    DecodedLength(raw);
    DecodedSame(raw);
    assert raw + [] == raw;
    Utf8.DecodeIdentity(source);
  }

  lemma DecodedLength(events: seq<Event>)
    ensures |DecodedEvents(events)| == |events|
  {
  }

  // ---- Where they differ ----

  /** The first line of an input, and what comes after it. */
  lemma FirstBreak(line: Bytes, rest: Bytes)
    requires LF !in line && CR !in line
    ensures LineBreak(line + [LF] + rest) == Some(Break(|line|, |line| + 1))
    ensures (line + [LF] + rest)[..|line|] == line && (line + [LF] + rest)[|line| + 1..] == rest
  {
    LineBreakIs(line + [LF] + rest, |line|);
  }

  lemma BlankLine(p: Partial, maximum: nat)
    requires p.taken <= maximum
    ensures Events([LF], p, maximum) == (Dispatched(p), true) && StandardLines([LF], p) == Dispatched(p)
  {
    hide Content, Tail, LineFeed;
    LineIs([], []);
    assert [] + [LF] + [] == [LF] && [LF][1..] == [];
    EventsStep([LF], p, maximum);
    LineOfRest([]);
    EventsStep([], NOTHING, maximum);
    assert Dispatched(NOTHING) == [] && Dispatched(p) + [] == Dispatched(p);
    StandardNothing(NOTHING);
  }

  /** An event that the end of the input cuts off is dispatched, and the standard discards it. */
  lemma UnendedDispatched(value: Bytes, maximum: nat)
    requires LF !in value && CR !in value && 6 + |value| <= maximum
    ensures var source := DATA_PREFIX + value;
            Events(source, NOTHING, maximum) == ([Event([], value)], true) && Standard(source) == []
  {
    hide Content, Tail, LineFeed, TakeLine, LineBreak;
    var source := DATA_PREFIX + value;
    LineBreakNone(source);
    FieldLine(NOTHING, value);
    assert forall k :: 0 <= k < |source| ==> source[k] != LF;
    LineOfRest(source);
    LineOfRest([]);
    EventsStep(source, NOTHING, maximum);
    EventsStep([], TakeLine(NOTHING, source), maximum);
    assert [] + [value] == [value];
    assert source[0] == 100 && MARK[0] == 0xEF;
    StandardStep(source, NOTHING);
    StandardIs(source);
  }

  const LONE_CR: Bytes := DATA_PREFIX + [120, CR, 121] + [LF] + [LF]

  lemma LoneCRRead(maximum: nat)
    requires 9 <= maximum
    ensures Events(LONE_CR, NOTHING, maximum).0 == [Event([], [120, CR, 121])]
  {
    hide Content, Tail, LineFeed, TakeLine, Events, StandardLines, Dispatched;
    var value: Bytes := [120, CR, 121];
    var line := DATA_PREFIX + value;
    LineFeedIs(LONE_CR, 9);
    assert LONE_CR[..9] == line && LONE_CR[10..] == [LF];
    ContentAt(LONE_CR, 9);
    FieldLine(NOTHING, value);
    EventsStep(LONE_CR, NOTHING, maximum);
    var p := TakeLine(NOTHING, line);
    BlankLine(p, maximum);
    DispatchedOne(p, value);
  }

  lemma LoneCRSplit()
    ensures StandardLines(LONE_CR, NOTHING) == [Event([], [120])]
  {
    hide TakeLine, LineBreak, Events, StandardLines, Dispatched;
    LineBreakIs(LONE_CR, 7);
    assert LONE_CR[..7] == DATA_PREFIX + [120] && LONE_CR[8..] == [121] + [LF] + [LF];
    StandardStep(LONE_CR, NOTHING);
    FieldLine(NOTHING, [120]);
    var q := TakeLine(NOTHING, DATA_PREFIX + [120]);
    FirstBreak([121], [LF]);
    StandardStep([121] + [LF] + [LF], q);
    UnknownField(q);
    BlankLine(TakeLine(q, [121]), 8);
    DispatchedOne(TakeLine(q, [121]), [120]);
  }

  /** A CR alone ends a line in the standard, and belongs to the value here. */
  lemma LoneCRKept(maximum: nat)
    requires 9 <= maximum
    ensures Events(LONE_CR, NOTHING, maximum).0 == [Event([], [120, CR, 121])]
    ensures Standard(LONE_CR) == [Event([], [120])]
  {
    hide Events, StandardLines, Utf8.Decode;
    LoneCRRead(maximum);
    LoneCRSplit();
    StandardIs(LONE_CR);
    assert LONE_CR[0] == 100 && MARK[0] == 0xEF;
    DecodedOne([120]);
    Utf8.DecodeIdentity([120]);
    assert [120][1..] == [];
  }

  lemma DecodedOne(value: Bytes)
    ensures DecodedEvents([Event([], value)]) == [Event([], Utf8.Decode(value))]
  {
    Utf8.DecodeNothing();
  }

  lemma ContentAt(rest: Bytes, i: nat)
    requires LineFeed(rest) == Some(i) && i > 0 && rest[i - 1] != CR
    ensures Content(rest) == rest[..i] && Tail(rest) == rest[i + 1..]
  {
  }

  lemma DispatchedOne(p: Partial, value: Bytes)
    requires p.name == [] && p.data == [] + [value]
    ensures Dispatched(p) == [Event([], value)]
  {
  }

  lemma UnknownField(p: Partial)
    ensures TakeLine(p, [121]) == p.(taken := p.taken + 1)
  {
  }

  /** A byte order mark hides the first field name here; the standard drops it. */
  lemma MarkKept(value: Bytes, maximum: nat)
    requires LF !in value && CR !in value && 9 + |value| <= maximum
    ensures var source := MARK + DATA_PREFIX + value + [LF] + [LF];
            Events(source, NOTHING, maximum).0 == [] && Standard(source) == [Event([], Utf8.Decode(value))]
  {
    hide Content, Tail, LineFeed, TakeLine, LineBreak, Events, StandardLines, Dispatched;
    var source, line := MARK + DATA_PREFIX + value + [LF] + [LF], MARK + DATA_PREFIX + value;
    assert source == line + [LF] + [LF] && source[3..] == DATA_PREFIX + value + [LF] + [LF] && MARK <= source;
    LineIs(line, [LF]);
    EventsStep(source, NOTHING, maximum);
    MarkedField(value);
    var p := TakeLine(NOTHING, line);
    BlankLine(p, maximum);
    assert Dispatched(p) == [] by { DispatchedNone(p); }
    FirstBreak(DATA_PREFIX + value, [LF]);
    StandardStep(source[3..], NOTHING);
    FieldLine(NOTHING, value);
    var q := TakeLine(NOTHING, DATA_PREFIX + value);
    BlankLine(q, q.taken);
    DispatchedOne(q, value);
    StandardIs(source);
    DecodedOne(value);
  }

  lemma DispatchedNone(p: Partial)
    requires p.data == []
    ensures Dispatched(p) == []
  {
  }

  lemma MarkedField(value: Bytes)
    ensures TakeLine(NOTHING, MARK + DATA_PREFIX + value) == NOTHING.(taken := 9 + |value|)
  {
    var line := MARK + DATA_PREFIX + value;
    ColonAt(line, 7);
    assert line[..7][0] == 0xEF;
  }

  /** A byte that is no UTF-8 reaches the callback as it is; the standard replaces it. */
  lemma InvalidKept(maximum: nat)
    requires 7 <= maximum
    ensures var source := DATA_PREFIX + [0xFF] + [LF] + [LF];
            && Events(source, NOTHING, maximum).0 == [Event([], [0xFF])]
            && Standard(source) == [Event([], Utf8.REPLACEMENT)]
  {
    hide Content, Tail, LineFeed, TakeLine, LineBreak, Events, StandardLines, Dispatched;
    var source := DATA_PREFIX + [0xFF] + [LF] + [LF];
    assert source[0] == 100 && MARK[0] == 0xEF;
    LineIs(DATA_PREFIX + [0xFF], [LF]);
    FieldLine(NOTHING, [0xFF]);
    EventsStep(source, NOTHING, maximum);
    var p := TakeLine(NOTHING, DATA_PREFIX + [0xFF]);
    BlankLine(p, maximum);
    DispatchedOne(p, [0xFF]);
    FirstBreak(DATA_PREFIX + [0xFF], [LF]);
    StandardStep(source, NOTHING);
    StandardIs(source);
    DecodedOne([0xFF]);
    InvalidReplaced();
  }

  lemma InvalidReplaced()
    ensures Utf8.Decode([0xFF]) == Utf8.REPLACEMENT
  {
    var s: Bytes := [0xFF];
    assert s[Utf8.Width(s)..] == [] && Utf8.REPLACEMENT + [] == Utf8.REPLACEMENT;
    Utf8.DecodeStep(s);
    Utf8.DecodeNothing();
  }
}
