/** Server-sent events from a buffered reader whose source hands out bytes in pieces of any size. */
module Sse {
  import opened Common

  const LF: byte := 10
  const CR: byte := 13
  const COLON: byte := 58
  const SPACE: byte := 32

  /** bufio never uses a smaller buffer. */
  const LEAST_CAPACITY: nat := 16

  // ---- Lines ----

  function LineFeed(s: Bytes): (r: Option<nat>)
    ensures r.Some? ==> r.value < |s| && s[r.value] == LF && forall k :: 0 <= k < r.value ==> s[k] != LF
    ensures r.None? ==> LF !in s
  {
    if s == [] then None
    else if s[0] == LF then Some(0)
    else
      match LineFeed(s[1..])
      case None => None
      case Some(i) => Some(i + 1)
  }

  /**
   The first line of the input without its end, which is LF or CR LF; a last line without an end keeps all its bytes.
   */
  function Content(s: Bytes): Bytes {
    match LineFeed(s)
    case None => s
    case Some(i) => if i > 0 && s[i - 1] == CR then s[..i - 1] else s[..i]
  }

  function Tail(s: Bytes): Bytes {
    match LineFeed(s)
    case None => []
    case Some(i) => s[i + 1..]
  }

  lemma LineFeedIs(s: Bytes, i: nat)
    requires i < |s| && s[i] == LF && forall k :: 0 <= k < i ==> s[k] != LF
    ensures LineFeed(s) == Some(i)
  {
  }

  // ---- The buffered reader ----

  datatype Slice = Delimited(line: Bytes) | Full(line: Bytes) | AtEnd(line: Bytes)

  /**
   What ReadSlice('\\n') returns of the bytes to come. eager: the source reports its end together with its last bytes.
   */
  function SliceOf(rest: Bytes, capacity: nat, eager: bool): Slice {
    match LineFeed(rest)
    case Some(i) => if i < capacity then Delimited(rest[..i + 1]) else Full(rest[..capacity])
    case None => if |rest| > capacity || (|rest| == capacity && !eager) then Full(rest[..capacity]) else AtEnd(rest)
  }

  /** A part of a line from ReadLine: whether more of the line follows, and whether the end was reached with nothing. */
  datatype Fragment = Fragment(bytes: Bytes, prefix: bool, atEnd: bool)

  predicate NoneEmpty(chunks: seq<Bytes>) { forall i :: 0 <= i < |chunks| ==> chunks[i] != [] }

  class Reader {
    const capacity: nat
    const eager: bool
    var buffered: Bytes
    var chunks: seq<Bytes>  // what the source will hand out, at most one piece for each read
    var ended: bool         // the source has reported its end, but not yet to the caller

    constructor (size: nat, source: seq<Bytes>, eager: bool)
      requires NoneEmpty(source)
      ensures Valid() && Rest() == Flatten(source)
      ensures capacity == (if size < LEAST_CAPACITY then LEAST_CAPACITY else size) && this.eager == eager
    {
      capacity := if size < LEAST_CAPACITY then LEAST_CAPACITY else size;
      this.eager := eager;
      buffered, chunks, ended := [], source, false;
    }

    ghost function Rest(): Bytes
      reads this
    {
      buffered + Flatten(chunks)
    }

    ghost predicate Valid()
      reads this
    {
      && LEAST_CAPACITY <= capacity && |buffered| <= capacity
      && NoneEmpty(chunks)
      && (ended ==> chunks == [] && (eager || |buffered| < capacity))
      && (eager && chunks == [] && buffered != [] ==> ended)
    }

    /** Reads once more into the free part of the buffer. */
    method Fill()
      requires Valid() && |buffered| < capacity && !ended
      modifies this`buffered, this`chunks, this`ended
      ensures Valid() && Rest() == old(Rest())
      ensures ended || |buffered| > |old(buffered)|
    {
      if chunks == [] {
        ended := true;
        return;
      }
      var first, n := chunks[0], capacity - |buffered|;
      if |first| <= n {
        buffered, chunks := buffered + first, chunks[1..];
        if eager && chunks == [] {
          ended := true;
        }
      } else {
        assert first == first[..n] + first[n..];
        buffered, chunks := buffered + first[..n], [first[n..]] + chunks[1..];
      }
    }

    method ReadSlice() returns (r: Slice)
      requires Valid()
      modifies this`buffered, this`chunks, this`ended
      ensures Valid() && r == SliceOf(old(Rest()), capacity, eager) && old(Rest()) == r.line + Rest()
      ensures r.Full? ==> buffered == [] && !ended && (eager ==> chunks != [])
    {
      hide LineFeed;
      ghost var rest := Rest();
      while true
        invariant Valid() && Rest() == rest
        decreases !ended, capacity - |buffered|
      {
        InBuffer(buffered, Flatten(chunks));
        assert chunks != [] ==> chunks[0] != [];
        var i := LineFeed(buffered);
        if i.Some? {
          r := Delimited(buffered[..i.value + 1]);
          buffered := buffered[i.value + 1..];
          return;
        }
        if ended {
          r := AtEnd(buffered);
          buffered, ended := [], false;
          return;
        }
        if |buffered| >= capacity {
          r := Full(buffered);
          buffered := [];
          return;
        }
        Fill();
      }
    }

    /** A line, or a part of one: a full buffer that ends in CR gives the CR back, in case LF follows. */
    method ReadLine() returns (f: Fragment)
      requires Valid()
      modifies this`buffered, this`chunks, this`ended
      ensures Valid() && IsFragment(old(Rest()), f, Rest())
    {
      hide SliceOf, IsFragment, LineFeed;
      ghost var rest := Rest();
      var slice := ReadSlice();
      var line := slice.line;
      if slice.Full? {
        PrefixFragment(rest, capacity, eager, slice, Rest());
        if line[|line| - 1] == CR {
          assert Rest() == Flatten(chunks);
          buffered := [CR];
          line := line[..|line| - 1];
        }
        return Fragment(line, true, false);
      }
      WholeFragment(rest, capacity, eager, slice, Rest());
      assert line[..|line|] == line;
      if line == [] {
        return Fragment([], false, true);
      }
      if line[|line| - 1] == LF {
        line := line[..|line| - (if |line| > 1 && line[|line| - 2] == CR then 2 else 1)];
      }
      f := Fragment(line, false, false);
    }
  }

  /** A fragment tells the first line of the input, or a part of it with the rest of the line still to come. */
  predicate IsFragment(rest: Bytes, f: Fragment, after: Bytes) {
    if f.prefix then
      && f.bytes != [] && !f.atEnd && |after| < |rest|
      && Content(rest) == f.bytes + Content(after) && Tail(rest) == Tail(after)
      && (LineFeed(rest).Some? <==> LineFeed(after).Some?)
    else
      f.bytes == Content(rest) && after == Tail(rest) && (f.atEnd <==> rest == [])
  }

  /** Cutting a line within its content leaves the rest of the same line. */
  lemma CutLine(rest: Bytes, k: nat)
    requires 0 < k <= |rest| && (LineFeed(rest).Some? ==> k <= |Content(rest)|)
    ensures IsFragment(rest, Fragment(rest[..k], true, false), rest[k..])
  {
    hide LineFeed;
    if LineFeed(rest).Some? {
      CutEnded(rest, LineFeed(rest).value, k);
    } else {
      CutOpen(rest, k);
    }
  }

  lemma CutOpen(rest: Bytes, k: nat)
    requires LineFeed(rest).None? && k <= |rest|
    ensures LineFeed(rest[k..]).None?
    ensures Content(rest) == rest[..k] + Content(rest[k..]) && Tail(rest) == Tail(rest[k..])
  {
    hide LineFeed;
    assert rest == rest[..k] + rest[k..];
    assert forall j :: 0 <= j < |rest| - k ==> rest[k..][j] == rest[k + j];
  }

  lemma CutEnded(rest: Bytes, i: nat, k: nat)
    requires LineFeed(rest) == Some(i) && 0 < k <= |Content(rest)|
    ensures LineFeed(rest[k..]).Some?
    ensures Content(rest) == rest[..k] + Content(rest[k..]) && Tail(rest) == Tail(rest[k..])
  {
    hide LineFeed, Content;
    ContentShort(rest, i);
    LineFeedIs(rest[k..], i - k);
    CutContent(rest, i, k);
    assert rest[k..][i - k + 1..] == rest[i + 1..];
  }

  lemma ContentShort(rest: Bytes, i: nat)
    requires LineFeed(rest) == Some(i)
    ensures |Content(rest)| <= i
  {
  }

  lemma CutContent(rest: Bytes, i: nat, k: nat)
    requires LineFeed(rest) == Some(i) && 0 < k <= |Content(rest)| && LineFeed(rest[k..]) == Some(i - k)
    ensures Content(rest) == rest[..k] + Content(rest[k..])
  {
    hide LineFeed;
    var m := |Content(rest)|;
    assert rest[..m] == rest[..k] + rest[k..][..m - k];
  }

  /** A full buffer without LF is a part of the line, without its last byte if that is CR. */
  lemma PrefixFragment(rest: Bytes, capacity: nat, eager: bool, slice: Slice, after: Bytes)
    requires capacity >= 2 && slice == SliceOf(rest, capacity, eager) && slice.Full? && rest == slice.line + after
    ensures |slice.line| == capacity
    ensures var line := slice.line;
            if line[capacity - 1] == CR then IsFragment(rest, Fragment(line[..capacity - 1], true, false), [CR] + after)
            else IsFragment(rest, Fragment(line, true, false), after)
  {
    hide LineFeed, IsFragment;
    var k := if slice.line[capacity - 1] == CR then capacity - 1 else capacity;
    CutLine(rest, k);
    assert rest[..k] == slice.line[..k] && rest[k..] == if k < capacity then [CR] + after else after;
    assert slice.line[..capacity] == slice.line;
  }

  lemma WholeFragment(rest: Bytes, capacity: nat, eager: bool, slice: Slice, after: Bytes)
    requires slice == SliceOf(rest, capacity, eager) && !slice.Full? && rest == slice.line + after
    ensures var line := slice.line;
            if line == [] then IsFragment(rest, Fragment([], false, true), after)
            else
              var drop := if line[|line| - 1] != LF then 0 else if |line| > 1 && line[|line| - 2] == CR then 2 else 1;
              IsFragment(rest, Fragment(line[..|line| - drop], false, false), after)
  {
    hide LineFeed;
    var line := slice.line;
    if slice.Delimited? {
      assert rest[..|line|] == line && rest[|line|..] == after;
      assert rest[|line| - 1] == line[|line| - 1];
    }
  }

  lemma InBuffer(buffered: Bytes, more: Bytes)
    ensures LineFeed(buffered).Some? ==> LineFeed(buffered + more) == LineFeed(buffered)
    ensures LineFeed(buffered).None? && LineFeed(buffered + more).Some? ==>
              LineFeed(buffered + more).value >= |buffered|
  {
    if LineFeed(buffered).Some? {
      LineFeedIs(buffered + more, LineFeed(buffered).value);
    }
  }

  // ---- Lines and events ----

  /** What readSSELine returns: a line, and whether the reader reported the end of the input with it. */
  datatype LineRead = Line(bytes: Bytes, atEnd: bool) | TooLarge

  method ReadSSELine(reader: Reader, remaining: int) returns (r: LineRead)
    requires reader.Valid()
    modifies reader`buffered, reader`chunks, reader`ended
    ensures reader.Valid()
    ensures r.TooLarge? <==> |Content(old(reader.Rest()))| > remaining
    ensures r.Line? ==>
              && r.bytes == Content(old(reader.Rest())) && reader.Rest() == Tail(old(reader.Rest()))
              && (r.atEnd ==> LineFeed(old(reader.Rest())).None?) && (old(reader.Rest()) == [] ==> r.atEnd)
  {
    hide LineFeed, Content, Tail;
    if remaining < 0 {
      return TooLarge;
    }
    ghost var rest := reader.Rest();
    var line := [];
    while true
      invariant reader.Valid() && |line| <= remaining
      invariant Content(rest) == line + Content(reader.Rest()) && Tail(rest) == Tail(reader.Rest())
      invariant LineFeed(rest).Some? <==> LineFeed(reader.Rest()).Some?
      invariant rest == [] ==> reader.Rest() == []
      decreases |reader.Rest()|
    {
      ghost var before := reader.Rest();
      var f := reader.ReadLine();
      if |line| + |f.bytes| > remaining {
        return TooLarge;
      }
      line := line + f.bytes;
      if f.atEnd {
        AtEndIs(before);
        return Line(line, true);
      }
      if !f.prefix {
        return Line(line, false);
      }
    }
  }

  lemma AtEndIs(rest: Bytes)
    ensures rest == [] ==> LineFeed(rest).None? && Content(rest) == [] && Tail(rest) == []
  {
  }

  datatype Event = Event(name: Bytes, data: Bytes)

  /** The event being put together, and how many bytes of lines it has taken. */
  datatype Partial = Partial(name: Bytes, data: seq<Bytes>, taken: nat)

  const NOTHING := Partial([], [], 0)

  function Join(lines: seq<Bytes>): Bytes {
    if lines == [] then []
    else if |lines| == 1 then lines[0]
    else Join(lines[..|lines| - 1]) + [LF] + lines[|lines| - 1]
  }

  function Colon(line: Bytes): Option<nat> {
    if line == [] then None
    else if line[0] == COLON then Some(0)
    else
      match Colon(line[1..])
      case None => None
      case Some(i) => Some(i + 1)
  }

  lemma {:induction false} ColonFound(line: Bytes)
    ensures Colon(line).Some? ==> Colon(line).value < |line| && line[Colon(line).value] == COLON
  {
    if line != [] {
      ColonFound(line[1..]);
    }
  }

  const EVENT: Bytes := [101, 118, 101, 110, 116]
  const DATA: Bytes := [100, 97, 116, 97]

  function WithoutSpace(value: Bytes): Bytes { if value != [] && value[0] == SPACE then value[1..] else value }

  /** The name and the value of a line, cut at its first colon. */
  function FieldOf(line: Bytes): Bytes {
    ColonFound(line);
    if Colon(line).None? then line else line[..Colon(line).value]
  }

  function ValueOf(line: Bytes): Bytes {
    ColonFound(line);
    if Colon(line).None? then [] else WithoutSpace(line[Colon(line).value + 1..])
  }

  function WithField(p: Partial, field: Bytes, value: Bytes): Partial {
    if field == EVENT then p.(name := value)
    else if field == DATA then p.(data := p.data + [value])
    else p
  }

  /** A line that is not blank: comments and unknown fields count, but change nothing else. */
  function TakeLine(p: Partial, line: Bytes): Partial {
    var taken := p.(taken := p.taken + |line|);
    if Colon(line) == Some(0) then taken else WithField(taken, FieldOf(line), ValueOf(line))
  }

  function Dispatched(p: Partial): seq<Event> { if p.data == [] then [] else [Event(p.name, Join(p.data))] }

  datatype Outcome = Done | EventTooLarge | Refused

  /** A line-based reference: the events of an input, and whether a line made an event too large. */
  function Events(rest: Bytes, p: Partial, maximum: nat): (seq<Event>, bool)
    decreases |rest|
  {
    if rest == [] then (Dispatched(p), true)
    else
      var line := Content(rest);
      if p.taken + |line| > maximum then ([], false)
      else if line == [] then
        var (more, fits) := Events(Tail(rest), NOTHING, maximum);
        (Dispatched(p) + more, fits)
      else Events(Tail(rest), TakeLine(p, line), maximum)
  }

  predicate Accepted(events: seq<Event>, accepts: seq<Event> -> bool) {
    forall k :: 0 < k <= |events| ==> accepts(events[..k])
  }

  lemma AcceptedNone(accepts: seq<Event> -> bool)
    ensures Accepted([], accepts)
  {
  }

  lemma AcceptedSnoc(events: seq<Event>, e: Event, accepts: seq<Event> -> bool)
    requires Accepted(events, accepts)
    ensures Accepted(events + [e], accepts) <==> accepts(events + [e])
    ensures (events + [e])[..|events + [e]| - 1] == events
  {
    var longer := events + [e];
    assert longer[..|longer|] == longer;
    forall k | 0 < k <= |events| ensures longer[..k] == events[..k] {}
  }

  /**
   readSSE: whatever the size of the buffer and of the pieces the source hands out, the callback gets the events of the
   line-based reference, until it refuses one. accepts says so of the events so far.
   */
  method ReadSSE(source: seq<Bytes>, eager: bool, maxEventBytes: nat, accepts: seq<Event> -> bool)
    returns (outcome: Outcome, events: seq<Event>)
    requires maxEventBytes > 0 && NoneEmpty(source)
    ensures var (all, fits) := Events(Flatten(source), NOTHING, maxEventBytes);
            && events <= all
            && (outcome == Done ==> events == all && fits)
            && (outcome == EventTooLarge ==> events == all && !fits)
            && (outcome == Refused ==> events != [] && !accepts(events) && Accepted(events[..|events| - 1], accepts))
            && (outcome != Refused ==> Accepted(events, accepts))
  {
    hide LineFeed, Content, Tail, TakeLine, Join, Flatten, Accepted;
    var reader := new Reader(if maxEventBytes < 0x1_0000 then maxEventBytes else 0x1_0000, source, eager);
    var p := NOTHING;
    events := [];
    assert Accepted(events, accepts) by { AcceptedNone(accepts); }
    ghost var (all, fits) := Events(reader.Rest(), p, maxEventBytes);
    while true
      invariant reader.Valid() && fresh(reader) && p.taken <= maxEventBytes
      invariant var (more, fine) := Events(reader.Rest(), p, maxEventBytes); all == events + more && fits == fine
      invariant Accepted(events, accepts)
      decreases |reader.Rest()| + 1
    {
      ghost var rest := reader.Rest();
      var read := ReadSSELine(reader, maxEventBytes - p.taken);
      LineOfRest(rest);
      if read.TooLarge? {
        return EventTooLarge, events;
      }
      EventsStep(rest, p, maxEventBytes);
      if read.bytes != [] {
        p := TakeLine(p, read.bytes);
        if p.taken > maxEventBytes {
          return EventTooLarge, events;
        }
      }
      if read.bytes == [] || (read.atEnd && p.data != []) {
        if p.data != [] {
          AcceptedSnoc(events, Event(p.name, Join(p.data)), accepts);
          events := events + [Event(p.name, Join(p.data))];
          if !accepts(events) {
            return Refused, events;
          }
        }
        p := NOTHING;
      }
      if read.atEnd {
        return Done, events;
      }
    }
  }

  lemma LineOfRest(rest: Bytes)
    ensures rest == [] ==> Content(rest) == [] && Tail(rest) == []
    ensures rest != [] ==> |Tail(rest)| < |rest|
    ensures LineFeed(rest).None? ==> Tail(rest) == [] && Content(rest) == rest
  {
  }

  lemma EventsStep(rest: Bytes, p: Partial, maximum: nat)
    requires p.taken + |Content(rest)| <= maximum
    ensures rest != [] && Content(rest) == [] ==>
              var (more, fits) := Events(Tail(rest), NOTHING, maximum);
              Events(rest, p, maximum) == (Dispatched(p) + more, fits)
    ensures rest != [] && Content(rest) != [] ==>
              Events(rest, p, maximum) == Events(Tail(rest), TakeLine(p, Content(rest)), maximum)
    ensures TakeLine(p, Content(rest)).taken == p.taken + |Content(rest)|
    ensures Events([], p, maximum) == (Dispatched(p), true)
  {
    hide Content, Tail, LineFeed;
  }

  // ---- The size limit ----

  /** No event carries more data than the limit. */
  lemma {:induction false} DataBounded(rest: Bytes, p: Partial, maximum: nat)
    requires |Join(p.data)| <= p.taken <= maximum
    ensures forall e :: e in Events(rest, p, maximum).0 ==> |e.data| <= maximum
    decreases |rest|
  {
    LineOfRest(rest);
    hide Content, Tail, LineFeed, TakeLine;
    if rest != [] && p.taken + |Content(rest)| <= maximum {
      if Content(rest) == [] {
        DataBounded(Tail(rest), NOTHING, maximum);
      } else {
        TakeLineBounded(p, Content(rest));
        DataBounded(Tail(rest), TakeLine(p, Content(rest)), maximum);
      }
    }
  }

  lemma TakeLineBounded(p: Partial, line: Bytes)
    requires |Join(p.data)| <= p.taken
    ensures |Join(TakeLine(p, line).data)| <= TakeLine(p, line).taken == p.taken + |line|
  {
    hide Colon, Join;
    ColonFound(line);
    var data := TakeLine(p, line).data;
    if data != p.data {
      JoinSnoc(p.data, data[|p.data|]);
    }
  }

  lemma JoinSnoc(lines: seq<Bytes>, line: Bytes)
    ensures |Join(lines + [line])| <= |Join(lines)| + 1 + |line|
  {
    assert (lines + [line])[..|lines|] == lines;
  }

  // ---- Printing ----

  /** The lines of some data. */
  function Lines(data: Bytes): (r: seq<Bytes>)
    ensures r != [] && forall line :: line in r ==> LF !in line && |line| <= |data| && (CR !in data ==> CR !in line)
    decreases |data|
  {
    match LineFeed(data)
    case None => [data]
    case Some(i) => [data[..i]] + Lines(data[i + 1..])
  }

  lemma {:induction false} JoinLines(data: Bytes)
    ensures Join(Lines(data)) == data
    decreases |data|
  {
    hide LineFeed, Join;
    match LineFeed(data)
    case None => JoinOne(data);
    case Some(i) =>
      JoinLines(data[i + 1..]);
      JoinFirst(data[..i], Lines(data[i + 1..]));
      assert data == data[..i] + [LF] + data[i + 1..];
  }

  lemma JoinOne(data: Bytes)
    ensures Join([data]) == data
  {
  }

  lemma {:induction false} JoinFirst(first: Bytes, rest: seq<Bytes>)
    requires rest != []
    ensures Join([first] + rest) == first + [LF] + Join(rest)
    decreases |rest|
  {
    var all := [first] + rest;
    if |rest| == 1 {
      assert all[..1] == [first];
    } else {
      JoinFirst(first, rest[..|rest| - 1]);
      assert all[..|all| - 1] == [first] + rest[..|rest| - 1];
    }
  }

  const DATA_PREFIX: Bytes := [100, 97, 116, 97, 58, 32]
  const EVENT_PREFIX: Bytes := [101, 118, 101, 110, 116, 58, 32]

  function PrintLines(lines: seq<Bytes>): Bytes {
    if lines == [] then [] else DATA_PREFIX + lines[0] + [LF] + PrintLines(lines[1..])
  }

  function PrintEvent(e: Event): Bytes {
    (if e.name == [] then [] else EVENT_PREFIX + e.name + [LF]) + PrintLines(Lines(e.data)) + [LF]
  }

  function Print(events: seq<Event>): Bytes {
    if events == [] then [] else PrintEvent(events[0]) + Print(events[1..])
  }

  function LinesSize(lines: seq<Bytes>): nat { if lines == [] then 0 else 6 + |lines[0]| + LinesSize(lines[1..]) }

  /** Neither part contains CR, the name no LF, and all lines of the event fit into the limit. */
  predicate Printable(e: Event, maximum: nat) {
    && CR !in e.name && LF !in e.name && CR !in e.data
    && (if e.name == [] then 0 else 7 + |e.name|) + LinesSize(Lines(e.data)) <= maximum
  }

  lemma LineIs(line: Bytes, rest: Bytes)
    requires LF !in line && CR !in line
    ensures Content(line + [LF] + rest) == line && Tail(line + [LF] + rest) == rest
  {
    var s := line + [LF] + rest;
    LineFeedIs(s, |line|);
    assert s[..|line|] == line && s[|line| + 1..] == rest;
  }

  lemma FieldLine(p: Partial, value: Bytes)
    ensures TakeLine(p, DATA_PREFIX + value) == p.(data := p.data + [value], taken := p.taken + 6 + |value|)
    ensures TakeLine(p, EVENT_PREFIX + value) == p.(name := value, taken := p.taken + 7 + |value|)
  {
    var data, event := DATA_PREFIX + value, EVENT_PREFIX + value;
    ColonAt(data, 4);
    ColonAt(event, 5);
    assert data[..4] == DATA && event[..5] == EVENT && DATA != EVENT;
    assert data[5..] == [SPACE] + value && event[6..] == [SPACE] + value;
  }

  lemma {:induction false} ColonAt(line: Bytes, i: nat)
    requires i < |line| && line[i] == COLON && forall k :: 0 <= k < i ==> line[k] != COLON
    ensures Colon(line) == Some(i)
  {
    if i > 0 {
      ColonAt(line[1..], i - 1);
    }
  }

  lemma EventsOfLine(value: Bytes, rest: Bytes, p: Partial, maximum: nat)
    requires LF !in value && CR !in value && p.taken + 6 + |value| <= maximum
    ensures Events(DATA_PREFIX + value + [LF] + rest, p, maximum) ==
            Events(rest, p.(data := p.data + [value], taken := p.taken + 6 + |value|), maximum)
  {
    hide Content, Tail, LineFeed, TakeLine, Events;
    LineIs(DATA_PREFIX + value, rest);
    FieldLine(p, value);
    EventsStep(DATA_PREFIX + value + [LF] + rest, p, maximum);
  }

  lemma PrintLinesFirst(lines: seq<Bytes>, rest: Bytes)
    requires lines != []
    ensures PrintLines(lines) + rest == DATA_PREFIX + lines[0] + [LF] + (PrintLines(lines[1..]) + rest)
  {
  }

  lemma {:induction false} EventsOfLines(lines: seq<Bytes>, rest: Bytes, p: Partial, maximum: nat)
    requires (forall line :: line in lines ==> LF !in line && CR !in line) && p.taken + LinesSize(lines) <= maximum
    ensures Events(PrintLines(lines) + rest, p, maximum) ==
            Events(rest, p.(data := p.data + lines, taken := p.taken + LinesSize(lines)), maximum)
    decreases |lines|
  {
    hide Events, PrintLines;
    if lines == [] {
      assert PrintLines(lines) == [] by { PrintNoLines(); }
      assert [] + rest == rest && p.data + lines == p.data;
    } else {
      var next := p.(data := p.data + [lines[0]], taken := p.taken + 6 + |lines[0]|);
      PrintLinesFirst(lines, rest);
      EventsOfLine(lines[0], PrintLines(lines[1..]) + rest, p, maximum);
      EventsOfLines(lines[1..], rest, next, maximum);
      assert p.data + [lines[0]] + lines[1..] == p.data + lines;
    }
  }

  lemma PrintNoLines()
    ensures PrintLines([]) == []
  {
  }

  lemma EventsOfEvent(e: Event, rest: Bytes, maximum: nat)
    requires Printable(e, maximum)
    ensures var (more, fits) := Events(rest, NOTHING, maximum);
            Events(PrintEvent(e) + rest, NOTHING, maximum) == ([e] + more, fits)
  {
    hide Content, Tail, LineFeed, TakeLine, Join, Lines, PrintLines, Events, LinesSize;
    var lines := Lines(e.data);
    var named := NOTHING.(name := e.name, taken := if e.name == [] then 0 else 7 + |e.name|);
    var body := PrintLines(lines) + ([LF] + rest);
    EventsOfName(e.name, body, maximum);
    var s := PrintEvent(e) + rest;
    assert s == (if e.name == [] then [] else EVENT_PREFIX + e.name + [LF]) + body;
    EventsOfLines(lines, [LF] + rest, named, maximum);
    var p := named.(data := lines, taken := named.taken + LinesSize(lines));
    assert [] + lines == lines;
    LineIs([], rest);
    assert [] + [LF] + rest == [LF] + rest;
    EventsStep([LF] + rest, p, maximum);
    JoinLines(e.data);
  }

  lemma EventsOfName(name: Bytes, body: Bytes, maximum: nat)
    requires CR !in name && LF !in name && (name != [] ==> 7 + |name| <= maximum)
    ensures Events((if name == [] then [] else EVENT_PREFIX + name + [LF]) + body, NOTHING, maximum) ==
            Events(body, NOTHING.(name := name, taken := if name == [] then 0 else 7 + |name|), maximum)
  {
    hide Content, Tail, LineFeed, TakeLine, Join;
    if name == [] {
      assert [] + body == body;
    } else {
      var line := EVENT_PREFIX + name;
      LineIs(line, body);
      FieldLine(NOTHING, name);
      EventsStep(line + [LF] + body, NOTHING, maximum);
    }
  }

  /** Reading inverts printing. */
  lemma {:induction false} ReadInvertsPrint(events: seq<Event>, maximum: nat)
    requires forall e :: e in events ==> Printable(e, maximum)
    ensures Events(Print(events), NOTHING, maximum) == (events, true)
  {
    hide Printable, PrintEvent;
    if events != [] {
      EventsOfEvent(events[0], Print(events[1..]), maximum);
      ReadInvertsPrint(events[1..], maximum);
      assert [events[0]] + events[1..] == events;
    }
  }
}
