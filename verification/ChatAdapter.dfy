/** What the chat adapter makes of the chunks of a completion stream, and when it marks a call as done. */
module ChatAdapter {
  import opened Accumulator
  import opened Common
  import opened ProviderTypes

  datatype ChatCall = ChatCall(index: int, id: string, name: string, arguments: string)

  datatype Choice = Choice(content: string, reasoningContent: string, reasoning: string, calls: seq<ChatCall>,
                           finished: bool)

  datatype Chunk = Chunk(failed: bool, choices: seq<Choice>, usage: Option<Usage>)

  /** The choices and the usage reports of a stream, one after the other. */
  datatype Step = OfChoice(choice: Choice) | OfUsage(usage: Usage)

  function ChoiceSteps(choices: seq<Choice>): seq<Step> {
    if choices == [] then [] else ChoiceSteps(choices[..|choices| - 1]) + [OfChoice(choices[|choices| - 1])]
  }

  function ChunkSteps(chunk: Chunk): seq<Step> {
    ChoiceSteps(chunk.choices) + if chunk.usage.Some? then [OfUsage(chunk.usage.value)] else []
  }

  function Steps(chunks: seq<Chunk>): seq<Step> {
    if chunks == [] then [] else Steps(chunks[..|chunks| - 1]) + ChunkSteps(chunks[|chunks| - 1])
  }

  /** The chunks before the first one that cannot be decoded or is an error of the provider. */
  function Heard(chunks: seq<Chunk>): seq<Chunk> {
    if chunks == [] || chunks[0].failed then [] else [chunks[0]] + Heard(chunks[1..])
  }

  function SaidByCalls(calls: seq<ChatCall>): seq<Event> {
    if calls == [] then []
    else
      var c := calls[|calls| - 1];
      SaidByCalls(calls[..|calls| - 1]) + [CallDelta(Delta(c.index, c.id, c.name, c.arguments, false))]
  }

  function ReasoningOf(c: Choice): string {
    if c.reasoningContent != [] then c.reasoningContent else c.reasoning
  }

  /** What a choice says, apart from marking calls as done. */
  function SaidByChoice(c: Choice): seq<Event> {
    (if c.content != [] then [TextDelta(c.content)] else [])
    + (if ReasoningOf(c) != [] then [ReasoningDelta(ReasoningOf(c))] else [])
    + SaidByCalls(c.calls)
  }

  function SaidByStep(step: Step): seq<Event> {
    match step
    case OfChoice(c) => SaidByChoice(c)
    case OfUsage(u) => [UsageReport(u)]
  }

  function Said(steps: seq<Step>): seq<Event> {
    if steps == [] then [] else Said(steps[..|steps| - 1]) + SaidByStep(steps[|steps| - 1])
  }

  function IndexesOf(calls: seq<ChatCall>): set<int> { set c | c in calls :: c.index }

  function NewIn(step: Step): set<int> { if step.OfChoice? then IndexesOf(step.choice.calls) else {} }

  predicate Marks(step: Step) { step.OfChoice? && step.choice.finished }

  function SeenIn(steps: seq<Step>): set<int> {
    if steps == [] then {} else SeenIn(steps[..|steps| - 1]) + NewIn(steps[|steps| - 1])
  }

  function DoneIn(steps: seq<Step>): set<int> {
    if steps == [] then {}
    else if Marks(steps[|steps| - 1]) then SeenIn(steps)
    else DoneIn(steps[..|steps| - 1])
  }

  function Mark(index: int): Event { CallDelta(Delta(index, [], [], [], true)) }

  /** The marks of these indexes, without those already done. */
  function Dones(indexes: seq<int>, done: set<int>): seq<Event> {
    if indexes == [] then []
    else
      var index := indexes[|indexes| - 1];
      Dones(indexes[..|indexes| - 1], done) + if index in done then [] else [Mark(index)]
  }

  function ToldBy(step: Step, seen: set<int>, done: set<int>): seq<Event> {
    SaidByStep(step) + if Marks(step) then Dones(Ascending(seen), done) else []
  }

  /** All events that a stream gives rise to. */
  function Told(steps: seq<Step>): seq<Event> {
    if steps == [] then []
    else
      var front, last := steps[..|steps| - 1], steps[|steps| - 1];
      Told(front) + ToldBy(last, SeenIn(steps), DoneIn(front))
  }

  // ---- Which calls are marked, and how ----

  predicate IsMark(e: Event) { e.CallDelta? && e.delta.done }

  predicate Feeds(e: Event, index: int) { e.CallDelta? && e.delta.index == index && !e.delta.done }

  predicate Fed(events: seq<Event>, index: int) { exists e :: e in events && Feeds(e, index) }

  predicate Finished(events: seq<Event>, index: int) { Mark(index) in events }

  /** The events without the marks. */
  function Plain(events: seq<Event>): seq<Event> {
    if events == [] then []
    else
      var rest, e := Plain(events[..|events| - 1]), events[|events| - 1];
      if IsMark(e) then rest else rest + [e]
  }

  /** No index is marked twice, and each only after one of its deltas. */
  predicate Disciplined(events: seq<Event>) {
    forall j :: 0 <= j < |events| && IsMark(events[j]) ==>
      && events[j] == Mark(events[j].delta.index)
      && Fed(events[..j], events[j].delta.index) && !Finished(events[..j], events[j].delta.index)
  }

  /** Marks that follow each other at once do so by ascending index. */
  predicate MarksAscend(events: seq<Event>) {
    forall j :: 0 < j < |events| && IsMark(events[j - 1]) && IsMark(events[j]) ==>
      events[j - 1].delta.index < events[j].delta.index
  }

  /** What these events have to do with the indexes seen and done. */
  ghost predicate Kept(events: seq<Event>, seen: set<int>, done: set<int>) {
    && Disciplined(events) && MarksAscend(events)
    && (forall index :: index in seen <==> Fed(events, index))
    && (forall index :: index in done <==> Finished(events, index))
  }

  lemma FedSnoc(events: seq<Event>, e: Event)
    ensures forall index :: Fed(events + [e], index) <==> Fed(events, index) || Feeds(e, index)
    ensures forall index :: Finished(events + [e], index) <==> Finished(events, index) || e == Mark(index)
  {
    hide Feeds;
    assert forall x :: x in events + [e] <==> x in events || x == e;
  }

  lemma PlainSnoc(events: seq<Event>, e: Event)
    ensures Plain(events + [e]) == if IsMark(e) then Plain(events) else Plain(events) + [e]
  {
    assert (events + [e])[..|events|] == events;
  }

  lemma DisciplinedSnoc(events: seq<Event>, e: Event)
    requires Disciplined(events)
    requires IsMark(e) ==> e == Mark(e.delta.index) && Fed(events, e.delta.index) && !Finished(events, e.delta.index)
    ensures Disciplined(events + [e])
  {
    hide Fed, Finished;
    var longer := events + [e];
    forall j | 0 <= j < |longer| && IsMark(longer[j])
      ensures && longer[j] == Mark(longer[j].delta.index)
              && Fed(longer[..j], longer[j].delta.index) && !Finished(longer[..j], longer[j].delta.index)
    {
      if j == |events| {
        assert longer[..j] == events;
      } else {
        assert longer[j] == events[j] && longer[..j] == events[..j];
      }
    }
  }

  lemma AscendSnoc(events: seq<Event>, e: Event)
    requires MarksAscend(events)
    requires events != [] && IsMark(events[|events| - 1]) && IsMark(e) ==>
               events[|events| - 1].delta.index < e.delta.index
    ensures MarksAscend(events + [e])
  {
    var longer := events + [e];
    assert forall j :: 0 <= j < |events| ==> longer[j] == events[j];
  }

  lemma OneKept(events: seq<Event>, e: Event, seen: set<int>, done: set<int>)
    requires Kept(events, seen, done) && !IsMark(e)
    ensures Kept(events + [e], if e.CallDelta? then seen + {e.delta.index} else seen, done)
    ensures Plain(events + [e]) == Plain(events) + [e]
  {
    hide Fed, Finished, Disciplined, MarksAscend, Plain;
    FedSnoc(events, e);
    PlainSnoc(events, e);
    DisciplinedSnoc(events, e);
    AscendSnoc(events, e);
  }

  lemma MarkKept(events: seq<Event>, index: int, seen: set<int>, done: set<int>)
    requires Kept(events, seen, done) && index in seen && index !in done
    requires events != [] && IsMark(events[|events| - 1]) ==> events[|events| - 1].delta.index < index
    ensures Kept(events + [Mark(index)], seen, done + {index}) && Plain(events + [Mark(index)]) == Plain(events)
  {
    hide Fed, Finished, Disciplined, MarksAscend, Plain;
    FedSnoc(events, Mark(index));
    PlainSnoc(events, Mark(index));
    DisciplinedSnoc(events, Mark(index));
    AscendSnoc(events, Mark(index));
  }

  /** Events that are no marks feed their indexes and keep the marks as they are. */
  lemma {:induction false} PlainKept(events: seq<Event>, said: seq<Event>, seen: set<int>, done: set<int>)
    requires Kept(events, seen, done)
    requires forall e :: e in said ==> !IsMark(e)
    ensures Kept(events + said, seen + Indexes(said), done) && Plain(events + said) == Plain(events) + said
    decreases |said|
  {
    hide Kept, Plain;
    if said == [] {
      assert events + said == events && Plain(events) + said == Plain(events);
      assert seen + Indexes(said) == seen;
    } else {
      var e, rest := said[0], said[1..];
      var one := if e.CallDelta? then {e.delta.index} else {};
      OneKept(events, e, seen, done);
      assert said == [e] + rest;
      assert seen + one == if e.CallDelta? then seen + {e.delta.index} else seen;
      PlainKept(events + [e], rest, seen + one, done);
      IndexesFirst(e, rest);
      assert events + said == events + [e] + rest && seen + one + Indexes(rest) == seen + Indexes(said);
      assert Plain(events) + said == Plain(events) + [e] + rest;
    }
  }

  lemma IndexesFirst(e: Event, rest: seq<Event>)
    ensures Indexes([e] + rest) == (if e.CallDelta? then {e.delta.index} else {}) + Indexes(rest)
  {
    assert forall x :: x in [e] + rest <==> x == e || x in rest;
  }

  lemma IndexesConcat(a: seq<Event>, b: seq<Event>)
    ensures Indexes(a + b) == Indexes(a) + Indexes(b)
  {
    assert forall x :: x in a + b <==> x in a || x in b;
  }

  lemma {:induction false} CallsAreSaid(calls: seq<ChatCall>)
    ensures Indexes(SaidByCalls(calls)) == IndexesOf(calls)
    ensures forall e :: e in SaidByCalls(calls) ==> !IsMark(e)
  {
    if calls != [] {
      var n := |calls| - 1;
      var c := calls[n];
      var e := CallDelta(Delta(c.index, c.id, c.name, c.arguments, false));
      CallsAreSaid(calls[..n]);
      IndexesConcat(SaidByCalls(calls[..n]), [e]);
      IndexesFirst(e, []);
      assert calls == calls[..n] + [c];
      assert IndexesOf(calls) == IndexesOf(calls[..n]) + {c.index};
    }
  }

  lemma StepIsSaid(step: Step)
    ensures Indexes(SaidByStep(step)) == NewIn(step)
    ensures forall e :: e in SaidByStep(step) ==> !IsMark(e)
  {
    hide SaidByCalls, IndexesOf, Indexes;
    match step
    case OfUsage(u) =>
      NoIndexes([UsageReport(u)]);
    case OfChoice(c) =>
      var head := (if c.content != [] then [TextDelta(c.content)] else [])
                  + if ReasoningOf(c) != [] then [ReasoningDelta(ReasoningOf(c))] else [];
      CallsAreSaid(c.calls);
      NoIndexes(head);
      IndexesConcat(head, SaidByCalls(c.calls));
  }

  lemma NoIndexes(events: seq<Event>)
    requires forall e :: e in events ==> !e.CallDelta?
    ensures Indexes(events) == {}
  {
  }

  predicate Ascends(s: seq<int>) { forall i, j :: 0 <= i < j < |s| ==> s[i] < s[j] }

  function Elements(s: seq<int>): set<int> { set x | x in s }

  lemma SortedElements(keys: set<int>)
    ensures Ascends(Ascending(keys)) && Elements(Ascending(keys)) == keys
  {
    hide Ascending;
    AscendingSorts(keys);
    var s := Ascending(keys);
    forall k ensures k in Elements(s) <==> k in keys {
      assert k in Elements(s) <==> k in s;
    }
  }

  lemma NoElements()
    ensures Elements([]) == {}
  {
  }

  lemma AscendsFront(indexes: seq<int>)
    requires indexes != [] && Ascends(indexes)
    ensures var front, index := indexes[..|indexes| - 1], indexes[|indexes| - 1];
            && Ascends(front) && (forall x :: x in front ==> x < index)
            && Elements(indexes) == Elements(front) + {index} && index !in Elements(front)
  {
    var front, index := indexes[..|indexes| - 1], indexes[|indexes| - 1];
    assert indexes == front + [index];
    assert forall x :: x in indexes <==> x in front || x == index;
  }

  /** The marks of indexes seen: each not yet done is done then, and they ascend. */
  lemma {:induction false} DonesKept(events: seq<Event>, indexes: seq<int>, seen: set<int>, done: set<int>)
    requires Kept(events, seen, done) && Ascends(indexes) && Elements(indexes) <= seen
    requires events != [] && IsMark(events[|events| - 1]) ==> seen <= done
    ensures var longer := events + Dones(indexes, done);
            && Kept(longer, seen, done + Elements(indexes)) && Plain(longer) == Plain(events)
            && (Dones(indexes, done) != [] ==>
                  IsMark(longer[|longer| - 1]) && longer[|longer| - 1].delta.index in indexes)
  {
    hide Kept, Plain, Ascends, Elements;
    if indexes == [] {
      assert events + Dones(indexes, done) == events;
      NoElements();
      assert done + Elements([]) == done;
    } else {
      var n := |indexes| - 1;
      var front, index := indexes[..n], indexes[n];
      AscendsFront(indexes);
      DonesKept(events, front, seen, done);
      var before := events + Dones(front, done);
      if index in done {
        assert Dones(indexes, done) == Dones(front, done);
        assert done + Elements(indexes) == done + Elements(front);
      } else {
        if Dones(front, done) == [] {
          assert before == events;
        }
        MarkKept(before, index, seen, done + Elements(front));
        assert events + Dones(indexes, done) == before + [Mark(index)];
        assert done + Elements(indexes) == done + Elements(front) + {index};
      }
    }
  }

  lemma {:induction false} DoneWereSeen(steps: seq<Step>)
    ensures DoneIn(steps) <= SeenIn(steps)
  {
    if steps != [] {
      DoneWereSeen(steps[..|steps| - 1]);
    }
  }

  /** What is told keeps the marks in order, and is what was said but for the marks. */
  lemma {:induction false} ToldKept(steps: seq<Step>)
    ensures Kept(Told(steps), SeenIn(steps), DoneIn(steps)) && Plain(Told(steps)) == Said(steps)
    ensures Told(steps) != [] && IsMark(Told(steps)[|Told(steps)| - 1]) ==> SeenIn(steps) <= DoneIn(steps)
  {
    hide Kept, Plain, ToldBy, Marks, NewIn, SaidByStep;
    if steps == [] {
      NothingKept();
    } else {
      var front, last := steps[..|steps| - 1], steps[|steps| - 1];
      ToldKept(front);
      DoneWereSeen(front);
      StepKept(Told(front), last, SeenIn(front), DoneIn(front));
    }
  }

  lemma NothingKept()
    ensures Kept([], {}, {}) && Plain([]) == []
  {
  }

  lemma MarkLast(events: seq<Event>, said: seq<Event>)
    requires forall e :: e in said ==> !IsMark(e)
    ensures events + said != [] && IsMark((events + said)[|events + said| - 1]) ==>
              said == [] && events + said == events
  {
    if said != [] {
      assert (events + said)[|events + said| - 1] == said[|said| - 1];
    } else {
      assert events + said == events;
    }
  }

  lemma StepKept(events: seq<Event>, step: Step, seen: set<int>, done: set<int>)
    requires Kept(events, seen, done) && done <= seen
    requires events != [] && IsMark(events[|events| - 1]) ==> seen <= done
    ensures var now := seen + NewIn(step);
            var told := events + ToldBy(step, now, done);
            && Kept(told, now, if Marks(step) then now else done) && Plain(told) == Plain(events) + SaidByStep(step)
            && (told != [] && IsMark(told[|told| - 1]) ==> now <= if Marks(step) then now else done)
  {
    hide Kept, Plain, Marks, NewIn, Dones, Ascending, Indexes, SaidByStep, Ascends, Elements;
    var now := seen + NewIn(step);
    var said := SaidByStep(step);
    StepIsSaid(step);
    PlainKept(events, said, seen, done);
    var middle := events + said;
    MarkLast(events, said);
    if middle != [] && IsMark(middle[|middle| - 1]) {
      NoIndexes(said);
      assert now == seen;
    }
    if Marks(step) {
      var indexes := Ascending(now);
      SortedElements(now);
      DonesKept(middle, indexes, now, done);
      assert done + Elements(indexes) == now;
      assert events + ToldBy(step, now, done) == middle + Dones(indexes, done);
    } else {
      assert events + ToldBy(step, now, done) == middle;
    }
  }

  /** The call of an index is marked exactly if a choice that finishes comes at or after a choice with a delta of it. */
  lemma MarkedExactly(steps: seq<Step>, index: int)
    ensures Finished(Told(steps), index) <==>
              exists i, k :: 0 <= i <= k < |steps| && index in NewIn(steps[i]) && Marks(steps[k])
  {
    hide Finished, Marks, NewIn, Told;
    ToldKept(steps);
    DoneExactly(steps, index);
  }

  lemma {:induction false} DoneExactly(steps: seq<Step>, index: int)
    ensures index in DoneIn(steps) <==>
              exists i, k :: 0 <= i <= k < |steps| && index in NewIn(steps[i]) && Marks(steps[k])
  {
    hide Marks, NewIn;
    if steps != [] {
      var n := |steps| - 1;
      DoneExactly(steps[..n], index);
      SeenExactly(steps, index);
      assert steps == steps[..n] + [steps[n]];
      if Marks(steps[n]) {
        if index in SeenIn(steps) {
          var i :| 0 <= i < |steps| && index in NewIn(steps[i]);
          assert 0 <= i <= n && index in NewIn(steps[i]) && Marks(steps[n]);
        }
      } else {
        assert forall i :: 0 <= i < n ==> steps[..n][i] == steps[i];
      }
    }
  }

  lemma {:induction false} SeenExactly(steps: seq<Step>, index: int)
    ensures index in SeenIn(steps) <==> exists i :: 0 <= i < |steps| && index in NewIn(steps[i])
  {
    hide NewIn;
    if steps != [] {
      var n := |steps| - 1;
      SeenExactly(steps[..n], index);
      assert forall i :: 0 <= i < n ==> steps[..n][i] == steps[i];
    }
  }

  /**
   Marks come as promised: at most one for an index and after a delta of it, ascending when they follow each other;
   and but for them, what is told is what the choices and the usage reports say, in order.
   */
  lemma MarksInOrder(steps: seq<Step>)
    ensures Disciplined(Told(steps)) && MarksAscend(Told(steps)) && Plain(Told(steps)) == Said(steps)
  {
    hide Disciplined, MarksAscend, Plain, Told;
    ToldKept(steps);
  }

  // ---- The stream ----

  predicate Smooth(events: seq<Event>, accepts: seq<Event> -> bool) {
    (forall e :: e in events ==> ValidEvent(e)) && Accepted(events, accepts)
  }

  /**
   What the callback has been passed of these events: all of them if each is valid and accepted; if not, those up to
   the first refused or those before the first invalid one, whichever comes first.
   */
  predicate Delivered(now: seq<Event>, events: seq<Event>, accepts: seq<Event> -> bool) {
    && now <= events && (Smooth(events, accepts) ==> now == events)
    && (!Smooth(events, accepts) ==>
          || (now != [] && Smooth(now[..|now| - 1], accepts) && ValidEvent(now[|now| - 1]) && !accepts(now))
          || (|now| < |events| && Smooth(now, accepts) && !ValidEvent(events[|now|])))
  }

  lemma SmoothSnoc(events: seq<Event>, e: Event, accepts: seq<Event> -> bool)
    requires Smooth(events, accepts)
    ensures Smooth(events + [e], accepts) <==> ValidEvent(e) && accepts(events + [e])
  {
    hide ValidEvent, Accepted;
    AcceptedSnoc(events, e, accepts);
  }

  lemma SmoothPrefix(a: seq<Event>, b: seq<Event>, accepts: seq<Event> -> bool)
    requires a <= b && Smooth(b, accepts)
    ensures Smooth(a, accepts)
  {
    hide ValidEvent, Accepted;
    AcceptedPrefix(a, b, accepts);
    forall e | e in a ensures ValidEvent(e) {
      var i :| 0 <= i < |a| && a[i] == e;
      assert b[i] == e;
    }
  }

  /** What stopped a part stops the whole. */
  lemma CutShort(now: seq<Event>, part: seq<Event>, events: seq<Event>, accepts: seq<Event> -> bool)
    requires part <= events && Delivered(now, part, accepts) && !Smooth(part, accepts)
    ensures Delivered(now, events, accepts) && !Smooth(events, accepts)
  {
    hide Smooth, ValidEvent;
    if Smooth(events, accepts) {
      SmoothPrefix(part, events, accepts);
    }
  }

  lemma NothingSmooth(accepts: seq<Event> -> bool)
    ensures Smooth([], accepts)
  {
  }

  lemma StopsBefore(now: seq<Event>, e: Event, accepts: seq<Event> -> bool)
    requires Smooth(now, accepts) && !ValidEvent(e)
    ensures Delivered(now, now + [e], accepts) && !Smooth(now + [e], accepts)
  {
    hide ValidEvent, Accepted;
    SmoothSnoc(now, e, accepts);
  }

  lemma Whole(now: seq<Event>, events: seq<Event>, accepts: seq<Event> -> bool)
    requires Delivered(now, events, accepts) && Smooth(events, accepts)
    ensures now == events
  {
  }

  lemma AllDelivered(events: seq<Event>, accepts: seq<Event> -> bool)
    requires Smooth(events, accepts)
    ensures Delivered(events, events, accepts)
  {
  }

  lemma NoCalls(seen: set<int>, base: seq<Event>)
    ensures base + SaidByCalls([]) == base && seen + IndexesOf([]) == seen
  {
  }

  lemma {:induction false} SaidGrows(calls: seq<ChatCall>, n: nat)
    requires n <= |calls|
    ensures SaidByCalls(calls[..n]) <= SaidByCalls(calls)
    decreases |calls|
  {
    if n < |calls| {
      assert calls[..|calls| - 1][..n] == calls[..n];
      SaidGrows(calls[..|calls| - 1], n);
    } else {
      assert calls[..n] == calls;
    }
  }

  lemma CallsSnoc(calls: seq<ChatCall>, i: nat, base: seq<Event>, seen: set<int>)
    requires i < |calls|
    ensures var c := calls[i];
            && base + SaidByCalls(calls[..i + 1])
               == base + SaidByCalls(calls[..i]) + [CallDelta(Delta(c.index, c.id, c.name, c.arguments, false))]
            && seen + IndexesOf(calls[..i]) + {c.index} == seen + IndexesOf(calls[..i + 1])
  {
    hide IndexesOf, SaidByCalls;
    var c, upTo, front := calls[i], calls[..i + 1], calls[..i];
    assert upTo == front + [c];
    IndexesOfSnoc(front, c);
    SaidSnoc(front, c);
  }

  lemma CallsWithin(calls: seq<ChatCall>, n: nat, base: seq<Event>)
    requires n <= |calls|
    ensures base + SaidByCalls(calls[..n]) <= base + SaidByCalls(calls)
  {
    hide SaidByCalls;
    SaidGrows(calls, n);
  }

  lemma IndexesOfSnoc(calls: seq<ChatCall>, c: ChatCall)
    ensures IndexesOf(calls + [c]) == IndexesOf(calls) + {c.index}
  {
    assert forall x :: x in calls + [c] <==> x in calls || x == c;
  }

  lemma SaidSnoc(calls: seq<ChatCall>, c: ChatCall)
    ensures SaidByCalls(calls + [c])
            == SaidByCalls(calls) + [CallDelta(Delta(c.index, c.id, c.name, c.arguments, false))]
  {
    assert (calls + [c])[..|calls|] == calls;
  }

  lemma {:induction false} DonesGrow(indexes: seq<int>, done: set<int>, n: nat)
    requires n <= |indexes|
    ensures Dones(indexes[..n], done) <= Dones(indexes, done)
    decreases |indexes|
  {
    if n < |indexes| {
      assert indexes[..|indexes| - 1][..n] == indexes[..n];
      DonesGrow(indexes[..|indexes| - 1], done, n);
    } else {
      assert indexes[..n] == indexes;
    }
  }

  lemma DonesSnoc(indexes: seq<int>, i: nat, done: set<int>, base: seq<Event>)
    requires Ascends(indexes) && i < |indexes|
    ensures var index, before := indexes[i], done + Elements(indexes[..i]);
            && (index in before <==> index in done)
            && base + Dones(indexes[..i + 1], done)
               == base + Dones(indexes[..i], done) + (if index in done then [] else [Mark(index)])
            && base + Dones(indexes[..i + 1], done) <= base + Dones(indexes, done)
            && done + Elements(indexes[..i + 1]) == if index in done then before else before + {index}
  {
    hide Elements;
    DonesGrow(indexes, done, i + 1);
    assert indexes[..i + 1][..i] == indexes[..i];
    AscendsFront(indexes[..i + 1]);
  }

  lemma ToldSnoc(steps: seq<Step>, step: Step)
    ensures SeenIn(steps + [step]) == SeenIn(steps) + NewIn(step)
    ensures DoneIn(steps + [step]) == if Marks(step) then SeenIn(steps + [step]) else DoneIn(steps)
    ensures Told(steps + [step]) == Told(steps) + ToldBy(step, SeenIn(steps + [step]), DoneIn(steps))
  {
    hide NewIn, ToldBy, Marks;
    assert (steps + [step])[..|steps|] == steps;
  }

  lemma ChoiceTold(steps: seq<Step>, choice: Choice)
    ensures var longer := steps + [OfChoice(choice)];
            var a := Told(steps) + if choice.content != [] then [TextDelta(choice.content)] else [];
            var b := a + if ReasoningOf(choice) != [] then [ReasoningDelta(ReasoningOf(choice))] else [];
            var c := b + SaidByCalls(choice.calls);
            && a <= Told(longer) && b <= Told(longer) && c <= Told(longer)
            && SeenIn(longer) == SeenIn(steps) + IndexesOf(choice.calls)
            && DoneIn(longer) == (if choice.finished then SeenIn(longer) else DoneIn(steps))
            && Told(longer) == if choice.finished then c + Dones(Ascending(SeenIn(longer)), DoneIn(steps)) else c
  {
    hide SaidByCalls, Dones, Ascending, IndexesOf, Told, SeenIn, DoneIn, ReasoningOf;
    var longer := steps + [OfChoice(choice)];
    var base := Told(steps);
    var x := if choice.content != [] then [TextDelta(choice.content)] else [];
    var y := if ReasoningOf(choice) != [] then [ReasoningDelta(ReasoningOf(choice))] else [];
    var z := SaidByCalls(choice.calls);
    ToldSnoc(steps, OfChoice(choice));
    var w := if choice.finished then Dones(Ascending(SeenIn(longer)), DoneIn(steps)) else [];
    assert Told(longer) == base + ((x + y + z) + w);
    Regrouped(base, x, y, z, w);
  }

  lemma Regrouped(base: seq<Event>, x: seq<Event>, y: seq<Event>, z: seq<Event>, w: seq<Event>)
    ensures var all := base + ((x + y + z) + w);
            && all == base + x + y + z + w && (w == [] ==> all == base + x + y + z)
            && base + x <= all && base + x + y <= all && base + x + y + z <= all
  {
    assert base + ((x + y + z) + w) == base + x + y + z + w;
  }

  lemma UsageTold(steps: seq<Step>, usage: Usage)
    ensures var longer := steps + [OfUsage(usage)];
            && Told(longer) == Told(steps) + [UsageReport(usage)]
            && SeenIn(longer) == SeenIn(steps) && DoneIn(longer) == DoneIn(steps)
  {
    var longer := steps + [OfUsage(usage)];
    assert longer[..|longer| - 1] == steps;
  }

  lemma {:induction false} ToldGrows(a: seq<Step>, b: seq<Step>)
    requires a <= b
    ensures Told(a) <= Told(b)
    decreases |b|
  {
    hide ToldBy, SeenIn, DoneIn;
    if |a| < |b| {
      ToldGrows(a, b[..|b| - 1]);
    } else {
      assert a == b;
    }
  }

  lemma {:induction false} ChoicesGrow(choices: seq<Choice>, n: nat)
    requires n <= |choices|
    ensures ChoiceSteps(choices[..n]) <= ChoiceSteps(choices)
    decreases |choices|
  {
    if n < |choices| {
      assert choices[..|choices| - 1][..n] == choices[..n];
      ChoicesGrow(choices[..|choices| - 1], n);
    } else {
      assert choices[..n] == choices;
    }
  }

  lemma ChoicesSnoc(steps: seq<Step>, chunk: Chunk, i: nat)
    requires i < |chunk.choices|
    ensures var part := steps + ChoiceSteps(chunk.choices[..i + 1]);
            && part == steps + ChoiceSteps(chunk.choices[..i]) + [OfChoice(chunk.choices[i])]
            && part <= steps + ChunkSteps(chunk)
  {
    ChoicesGrow(chunk.choices, i + 1);
    assert chunk.choices[..i + 1][..i] == chunk.choices[..i];
  }

  lemma {:induction false} StepsGrow(chunks: seq<Chunk>, n: nat)
    requires n <= |chunks|
    ensures Steps(chunks[..n]) <= Steps(chunks)
    decreases |chunks|
  {
    if n < |chunks| {
      assert chunks[..|chunks| - 1][..n] == chunks[..n];
      StepsGrow(chunks[..|chunks| - 1], n);
    } else {
      assert chunks[..n] == chunks;
    }
  }

  lemma {:induction false} HeardIs(chunks: seq<Chunk>)
    ensures Heard(chunks) <= chunks
    ensures |Heard(chunks)| < |chunks| ==> chunks[|Heard(chunks)|].failed
    ensures forall i :: 0 <= i < |Heard(chunks)| ==> !chunks[i].failed
  {
    if chunks != [] && !chunks[0].failed {
      HeardIs(chunks[1..]);
    }
  }

  lemma HeardOn(chunks: seq<Chunk>, i: nat)
    requires i < |chunks| && i <= |Heard(chunks)|
    ensures chunks[i].failed ==> Heard(chunks) == chunks[..i]
    ensures !chunks[i].failed ==> i < |Heard(chunks)| && Steps(chunks[..i + 1]) <= Steps(Heard(chunks))
    ensures Steps(chunks[..i + 1]) == Steps(chunks[..i]) + ChunkSteps(chunks[i])
  {
    hide Heard, ChunkSteps;
    HeardIs(chunks);
    assert chunks[..i + 1][..i] == chunks[..i];
    if !chunks[i].failed {
      StepsGrow(Heard(chunks), i + 1);
      assert Heard(chunks)[..i + 1] == chunks[..i + 1];
    }
  }

  lemma HeardAll(chunks: seq<Chunk>)
    requires |chunks| <= |Heard(chunks)|
    ensures Heard(chunks) == chunks
  {
    HeardIs(chunks);
  }

  lemma InOrder(now: seq<Event>, steps: seq<Step>, accepts: seq<Event> -> bool)
    requires Delivered(now, Told(steps), accepts)
    ensures Disciplined(now) && MarksAscend(now)
  {
    hide Told, Smooth, ValidEvent, Fed, Finished;
    MarksInOrder(steps);
    forall j | 0 <= j < |now| ensures now[j] == Told(steps)[j] && now[..j] == Told(steps)[..j] {}
  }

  class ChatStream {
    var seen: set<int>
    var done: set<int>
    var emitted: seq<Event>
    const accepts: seq<Event> -> bool

    constructor (accepts: seq<Event> -> bool)
      ensures At([]) && this.accepts == accepts
    {
      this.accepts := accepts;
      seen, done, emitted := {}, {}, [];
    }

    /** So far, all has gone well with these steps. */
    ghost predicate At(steps: seq<Step>)
      reads this
    {
      emitted == Told(steps) && Smooth(emitted, accepts) && seen == SeenIn(steps) && done == DoneIn(steps)
    }

    /** emitValidated: an invalid event is not passed on; one that the callback refuses was. */
    method Emit(e: Event) returns (ok: bool)
      requires Smooth(emitted, accepts)
      modifies this`emitted
      ensures ok <==> Smooth(old(emitted) + [e], accepts)
      ensures Delivered(emitted, old(emitted) + [e], accepts)
    {
      hide ValidEvent, Smooth;
      SmoothSnoc(emitted, e, accepts);
      if !ValidEvent(e) {
        return false;
      }
      emitted := emitted + [e];
      ok := accepts(emitted);
    }

    method OnCalls(calls: seq<ChatCall>) returns (ok: bool)
      requires Smooth(emitted, accepts)
      modifies this`seen, this`emitted
      ensures ok <==> Smooth(old(emitted) + SaidByCalls(calls), accepts)
      ensures Delivered(emitted, old(emitted) + SaidByCalls(calls), accepts)
      ensures ok ==> seen == old(seen) + IndexesOf(calls)
    {
      hide Smooth, Delivered, IndexesOf;
      NoCalls(old(seen), old(emitted));
      for i := 0 to |calls|
        invariant emitted == old(emitted) + SaidByCalls(calls[..i]) && Smooth(emitted, accepts)
        invariant seen == old(seen) + IndexesOf(calls[..i])
      {
        var call := calls[i];
        var e := CallDelta(Delta(call.index, call.id, call.name, call.arguments, false));
        CallsSnoc(calls, i, old(emitted), old(seen));
        CallsWithin(calls, i + 1, old(emitted));
        ghost var part := old(emitted) + SaidByCalls(calls[..i + 1]);
        if call.index < 0 {
          StopsBefore(emitted, e, accepts);
          CutShort(emitted, part, old(emitted) + SaidByCalls(calls), accepts);
          return false;
        }
        seen := seen + {call.index};
        ok := Emit(e);
        if !ok {
          CutShort(emitted, part, old(emitted) + SaidByCalls(calls), accepts);
          return;
        }
        Whole(emitted, part, accepts);
      }
      assert calls[..|calls|] == calls;
      AllDelivered(emitted, accepts);
      ok := true;
    }

    /** What a finish reason of tool calls does: every index seen and not yet done is done now, in ascending order. */
    method FinishSeen() returns (ok: bool)
      requires Smooth(emitted, accepts)
      modifies this`done, this`emitted
      ensures ok <==> Smooth(old(emitted) + Dones(Ascending(seen), old(done)), accepts)
      ensures Delivered(emitted, old(emitted) + Dones(Ascending(seen), old(done)), accepts)
      ensures ok ==> done == old(done) + seen
    {
      hide Smooth, Delivered, Ascending, Ascends, Elements;
      var indexes := Ascending(seen);
      SortedElements(seen);
      NoElements();
      for i := 0 to |indexes|
        invariant emitted == old(emitted) + Dones(indexes[..i], old(done)) && Smooth(emitted, accepts)
        invariant done == old(done) + Elements(indexes[..i])
      {
        var index := indexes[i];
        DonesSnoc(indexes, i, old(done), old(emitted));
        if index !in done {
          ghost var part := old(emitted) + Dones(indexes[..i + 1], old(done));
          ok := Emit(Mark(index));
          if !ok {
            CutShort(emitted, part, old(emitted) + Dones(indexes, old(done)), accepts);
            return;
          }
          Whole(emitted, part, accepts);
          done := done + {index};
        }
      }
      assert indexes[..|indexes|] == indexes;
      AllDelivered(emitted, accepts);
      ok := true;
    }

    method OnChoice(choice: Choice, ghost steps: seq<Step>) returns (ok: bool)
      requires At(steps)
      modifies this`seen, this`done, this`emitted
      ensures var longer := steps + [OfChoice(choice)];
              && (ok <==> Smooth(Told(longer), accepts)) && Delivered(emitted, Told(longer), accepts)
              && (ok ==> At(longer))
    {
      hide Smooth, Delivered, SaidByCalls, Dones, Ascending, IndexesOf;
      ghost var longer := steps + [OfChoice(choice)];
      ghost var base := emitted;
      ChoiceTold(steps, choice);
      DoneWereSeen(steps);
      ghost var a := base + if choice.content != [] then [TextDelta(choice.content)] else [];
      ghost var b := a + if ReasoningOf(choice) != [] then [ReasoningDelta(ReasoningOf(choice))] else [];
      ghost var c := b + SaidByCalls(choice.calls);
      ok := true;
      if choice.content != [] {
        ok := Emit(TextDelta(choice.content));
        if !ok {
          CutShort(emitted, a, Told(longer), accepts);
          return;
        }
        Whole(emitted, a, accepts);
      } else {
        assert emitted == a;
      }
      var reasoning := choice.reasoningContent;
      if reasoning == [] {
        reasoning := choice.reasoning;
      }
      if reasoning != [] {
        ok := Emit(ReasoningDelta(reasoning));
        if !ok {
          CutShort(emitted, b, Told(longer), accepts);
          return;
        }
        Whole(emitted, b, accepts);
      } else {
        assert emitted == b;
      }
      ok := OnCalls(choice.calls);
      if !ok {
        CutShort(emitted, c, Told(longer), accepts);
        return;
      }
      Whole(emitted, c, accepts);
      if choice.finished {
        ok := FinishSeen();
      }
      if ok {
        Whole(emitted, Told(longer), accepts);
      }
    }

    method OnChunk(chunk: Chunk, ghost steps: seq<Step>) returns (ok: bool)
      requires At(steps)
      modifies this`seen, this`done, this`emitted
      ensures chunk.failed ==> !ok && At(steps)
      ensures var longer := steps + ChunkSteps(chunk);
              !chunk.failed ==>
                && (ok <==> Smooth(Told(longer), accepts)) && Delivered(emitted, Told(longer), accepts)
                && (ok ==> At(longer))
    {
      hide Smooth, Delivered, Told, SeenIn, DoneIn;
      if chunk.failed {
        return false;
      }
      ghost var longer := steps + ChunkSteps(chunk);
      assert steps + ChoiceSteps([]) == steps;
      for i := 0 to |chunk.choices|
        invariant At(steps + ChoiceSteps(chunk.choices[..i]))
      {
        ghost var part := steps + ChoiceSteps(chunk.choices[..i + 1]);
        ChoicesSnoc(steps, chunk, i);
        ok := OnChoice(chunk.choices[i], steps + ChoiceSteps(chunk.choices[..i]));
        if !ok {
          ToldGrows(part, longer);
          CutShort(emitted, Told(part), Told(longer), accepts);
          return;
        }
      }
      assert chunk.choices[..|chunk.choices|] == chunk.choices;
      ok := true;
      ghost var told := steps + ChoiceSteps(chunk.choices);
      if chunk.usage.Some? {
        UsageTold(told, chunk.usage.value);
        assert longer == told + [OfUsage(chunk.usage.value)];
        ok := Emit(UsageReport(chunk.usage.value));
        if ok {
          Whole(emitted, Told(longer), accepts);
        }
      } else {
        assert longer == told;
        AllDelivered(emitted, accepts);
      }
    }

    /**
     streamChat: chunks until one fails, or the terminal event. It goes well exactly if no chunk fails, every event
     of the stream is valid and accepted, and the terminal event came; and the callback is passed the events of the
     chunks before the first failure, up to the first event that is invalid or refused. Whatever the chunks are, a
     call is marked as done at most once, and only after one of its deltas.
     */
    method StreamChat(chunks: seq<Chunk>, terminal: bool) returns (ok: bool)
      requires At([])
      modifies this`seen, this`done, this`emitted
      ensures ok <==> terminal && Heard(chunks) == chunks && Smooth(Told(Steps(chunks)), accepts)
      ensures Delivered(emitted, Told(Steps(Heard(chunks))), accepts)
      ensures Disciplined(emitted) && MarksAscend(emitted)
      ensures ok ==> Plain(emitted) == Said(Steps(chunks))
    {
      hide Smooth, Delivered, Told, Disciplined, MarksAscend, Plain, SeenIn, DoneIn, ChunkSteps;
      for i := 0 to |chunks|
        invariant At(Steps(chunks[..i])) && i <= |Heard(chunks)|
      {
        HeardOn(chunks, i);
        ok := OnChunk(chunks[i], Steps(chunks[..i]));
        if !ok {
          if chunks[i].failed {
            AllDelivered(emitted, accepts);
          } else {
            ToldGrows(Steps(chunks[..i + 1]), Steps(Heard(chunks)));
            CutShort(emitted, Told(Steps(chunks[..i + 1])), Told(Steps(Heard(chunks))), accepts);
          }
          InOrder(emitted, Steps(Heard(chunks)), accepts);
          return;
        }
      }
      HeardAll(chunks);
      assert chunks[..|chunks|] == chunks;
      AllDelivered(emitted, accepts);
      InOrder(emitted, Steps(chunks), accepts);
      MarksInOrder(Steps(chunks));
      ok := terminal;
    }
  }
}
