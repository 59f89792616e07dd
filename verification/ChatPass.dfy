/** A provider pass over the events of the chat adapter, told by the chunks alone. */
module ChatPass {
  import opened Accumulator
  import opened ChatAdapter
  import opened Common
  import opened ProviderTypes

  function CallsIn(steps: seq<Step>): seq<ChatCall> {
    if steps == [] then []
    else
      var last := steps[|steps| - 1];
      CallsIn(steps[..|steps| - 1]) + if last.OfChoice? then last.choice.calls else []
  }

  /** The fragments of one call. */
  function For(calls: seq<ChatCall>, index: int): seq<ChatCall> {
    if calls == [] then []
    else
      var rest, c := For(calls[..|calls| - 1], index), calls[|calls| - 1];
      if c.index == index then rest + [c] else rest
  }

  function Arguments(calls: seq<ChatCall>): string {
    if calls == [] then [] else Arguments(calls[..|calls| - 1]) + calls[|calls| - 1].arguments
  }

  /** The contents of the choices end to end. */
  function Contents(steps: seq<Step>): string {
    if steps == [] then []
    else
      var last := steps[|steps| - 1];
      Contents(steps[..|steps| - 1]) + if last.OfChoice? then last.choice.content else []
  }

  /** The last ID that one of these fragments has, or none. */
  predicate HasID(calls: seq<ChatCall>, id: string) {
    || (id == [] && forall k :: 0 <= k < |calls| ==> calls[k].id == [])
    || (id != [] && exists k :: 0 <= k < |calls| && calls[k].id == id
                                && forall j :: k < j < |calls| ==> calls[j].id == [])
  }

  predicate HasName(calls: seq<ChatCall>, name: string) {
    || (name == [] && forall k :: 0 <= k < |calls| ==> calls[k].name == [])
    || (name != [] && exists k :: 0 <= k < |calls| && calls[k].name == name
                                  && forall j :: k < j < |calls| ==> calls[j].name == [])
  }

  /** The call that these fragments make. */
  ghost predicate Makes(calls: seq<ChatCall>, call: ToolCall) {
    && call.arguments == Arguments(calls)
    && (exists id :: HasID(calls, id) && call.id == TrimSpace(id))
    && exists name :: HasName(calls, name) && call.name == TrimSpace(name)
  }

  /** A choice that finishes with tool calls comes at or after a choice with a fragment of this call. */
  predicate IsMarked(steps: seq<Step>, index: int) {
    exists i, k :: 0 <= i <= k < |steps| && index in NewIn(steps[i]) && Marks(steps[k])
  }

  /** The last usage that a chunk reports, or none at all. */
  predicate LastReport(steps: seq<Step>, usage: Usage) {
    || (usage == Usage(0, 0, 0, 0) && forall k :: 0 <= k < |steps| ==> !steps[k].OfUsage?)
    || exists k :: 0 <= k < |steps| && steps[k] == OfUsage(usage)
                   && forall j :: k < j < |steps| ==> !steps[j].OfUsage?
  }

  /**
   A pass over a chat stream goes well exactly if every call that has a fragment is finished afterwards and its
   fragments make a valid call.
   */
  lemma ChatPassExactly(steps: seq<Step>, isObject: Json)
    ensures PassOf(Told(steps), isObject).Some? <==>
              forall index :: index in SeenIn(steps) ==>
                && IsMarked(steps, index)
                && exists call :: Makes(For(CallsIn(steps), index), call) && ValidCall(call, isObject)
  {
    hide Told, PassOf, ValidCall, SaysCall, Makes, IsMarked, Indexes;
    PassExactly(Told(steps), isObject);
    IndexesTold(steps);
    forall index
      ensures (exists call :: SaysCall(Of(Told(steps), index), call) && ValidCall(call, isObject)) <==>
              && IsMarked(steps, index)
              && exists call :: Makes(For(CallsIn(steps), index), call) && ValidCall(call, isObject)
    {
      forall call {
        CallMade(steps, index, call);
      }
    }
  }

  /**
   It then holds the contents end to end, without reasoning, the last usage reported, and by ascending index the call
   that the fragments of each index make: their last ID and name, and their arguments end to end.
   */
  lemma ChatPassHolds(steps: seq<Step>, isObject: Json)
    requires PassOf(Told(steps), isObject).Some?
    ensures var pass, indexes := PassOf(Told(steps), isObject).value, Ascending(SeenIn(steps));
            && pass.text == Contents(steps) && LastReport(steps, pass.usage)
            && |pass.calls| == |indexes|
            && forall i :: 0 <= i < |indexes| ==> Makes(For(CallsIn(steps), indexes[i]), pass.calls[i])
  {
    hide Told, PassOf, ValidCall, SaysCall, Makes, IsMarked, Indexes, Ascending, IsLastUsage, LastReport, TextOf;
    var pass, indexes := PassOf(Told(steps), isObject).value, Ascending(SeenIn(steps));
    PassCalls(Told(steps), isObject);
    IndexesTold(steps);
    forall i | 0 <= i < |indexes| ensures Makes(For(CallsIn(steps), indexes[i]), pass.calls[i]) {
      CallMade(steps, indexes[i], pass.calls[i]);
    }
    PassParts(Told(steps), isObject);
    ToldKept(steps);
    TextPlain(Told(steps));
    TextSaid(steps);
    UsagePlain(Told(steps));
    UsageSaid(steps);
  }

  lemma PassParts(events: seq<Event>, isObject: Json)
    requires PassOf(events, isObject).Some?
    ensures PassOf(events, isObject).value.text == TextOf(events)
    ensures PassOf(events, isObject).value.usage == UsageOf(events)
  {
  }

  // ---- Marks say nothing else ----

  lemma {:induction false} TextPlain(events: seq<Event>)
    ensures TextOf(Plain(events)) == TextOf(events)
  {
    if events != [] {
      var front, e := events[..|events| - 1], events[|events| - 1];
      TextPlain(front);
      if !IsMark(e) {
        assert (Plain(front) + [e])[..|Plain(front)|] == Plain(front);
      }
    }
  }

  lemma {:induction false} UsagePlain(events: seq<Event>)
    ensures UsageOf(Plain(events)) == UsageOf(events)
  {
    if events != [] {
      var front, e := events[..|events| - 1], events[|events| - 1];
      UsagePlain(front);
      if !IsMark(e) {
        assert (Plain(front) + [e])[..|Plain(front)|] == Plain(front);
      }
    }
  }

  predicate BareMarks(events: seq<Event>) { forall e :: e in events && IsMark(e) ==> e == Mark(e.delta.index) }

  lemma MarksAreBare(events: seq<Event>)
    requires Disciplined(events)
    ensures BareMarks(events)
  {
  }

  lemma {:induction false} MarksSayNothing(events: seq<Event>, index: int)
    requires BareMarks(events)
    ensures Concat(Of(events, index)) == Concat(Of(Plain(events), index))
    ensures forall id :: IsLastID(Of(events, index), id) <==> IsLastID(Of(Plain(events), index), id)
    ensures forall name :: IsLastName(Of(events, index), name) <==> IsLastName(Of(Plain(events), index), name)
  {
    hide IsLastID, IsLastName, Concat, Of, Plain;
    if events == [] {
      assert Plain(events) == events by { NoPlain(); }
    } else {
      var front, e := events[..|events| - 1], events[|events| - 1];
      assert events == front + [e];
      MarksSayNothing(front, index);
      OfSnoc(front, e, index);
      PlainSnoc(front, e);
      OfSnoc(Plain(front), e, index);
      if e.CallDelta? && e.delta.index == index {
        LastSnoc(Of(front, index), e.delta);
        LastSnoc(Of(Plain(front), index), e.delta);
        assert IsMark(e) ==> e == Mark(index) && Concat(Of(front, index)) + [] == Concat(Of(front, index));
      } else {
        assert Of(front, index) + [] == Of(front, index);
        assert Of(Plain(front), index) + [] == Of(Plain(front), index);
      }
    }
  }

  lemma NoPlain()
    ensures Plain([]) == []
  {
  }

  lemma OfSnoc(events: seq<Event>, e: Event, index: int)
    ensures Of(events + [e], index)
            == Of(events, index) + if e.CallDelta? && e.delta.index == index then [e.delta] else []
  {
    assert (events + [e])[..|events|] == events;
  }

  lemma LastSnoc(ds: seq<Delta>, d: Delta)
    ensures Concat(ds + [d]) == Concat(ds) + d.arguments
    ensures forall id :: IsLastID(ds + [d], id) <==> if d.id != [] then id == d.id else IsLastID(ds, id)
    ensures forall name :: IsLastName(ds + [d], name) <==> if d.name != [] then name == d.name else IsLastName(ds, name)
  {
    var longer := ds + [d];
    assert longer[..|ds|] == ds;
    forall id ensures IsLastID(longer, id) <==> if d.id != [] then id == d.id else IsLastID(ds, id) {
      LastIDSnoc(ds, d, id);
    }
    forall name ensures IsLastName(longer, name) <==> if d.name != [] then name == d.name else IsLastName(ds, name) {
      LastNameSnoc(ds, d, name);
    }
  }

  lemma LastIDSnoc(ds: seq<Delta>, d: Delta, id: string)
    ensures IsLastID(ds + [d], id) <==> if d.id != [] then id == d.id else IsLastID(ds, id)
  {
    var longer := ds + [d];
    assert longer[|ds|] == d && forall k :: 0 <= k < |ds| ==> longer[k] == ds[k];
    assert d in longer && forall x :: x in ds ==> x in longer;
  }

  lemma LastNameSnoc(ds: seq<Delta>, d: Delta, name: string)
    ensures IsLastName(ds + [d], name) <==> if d.name != [] then name == d.name else IsLastName(ds, name)
  {
    var longer := ds + [d];
    assert longer[|ds|] == d && forall k :: 0 <= k < |ds| ==> longer[k] == ds[k];
    assert d in longer && forall x :: x in ds ==> x in longer;
  }

  // ---- What is said is what the chunks say ----

  lemma {:induction false} TextConcat(a: seq<Event>, b: seq<Event>)
    ensures TextOf(a + b) == TextOf(a) + TextOf(b)
  {
    if b == [] {
      assert a + b == a;
    } else {
      var n := |b| - 1;
      TextConcat(a, b[..n]);
      assert (a + b)[..|a + b| - 1] == a + b[..n];
    }
  }

  lemma {:induction false} OfConcat(a: seq<Event>, b: seq<Event>, index: int)
    ensures Of(a + b, index) == Of(a, index) + Of(b, index)
  {
    if b == [] {
      assert a + b == a;
    } else {
      var n := |b| - 1;
      OfConcat(a, b[..n], index);
      assert (a + b)[..|a + b| - 1] == a + b[..n];
    }
  }

  lemma {:induction false} ForConcat(a: seq<ChatCall>, b: seq<ChatCall>, index: int)
    ensures For(a + b, index) == For(a, index) + For(b, index)
  {
    if b == [] {
      assert a + b == a;
    } else {
      var n := |b| - 1;
      ForConcat(a, b[..n], index);
      assert (a + b)[..|a + b| - 1] == a + b[..n];
    }
  }

  lemma {:induction false} UsageConcat(a: seq<Event>, b: seq<Event>)
    requires forall e :: e in b ==> !e.UsageReport?
    ensures UsageOf(a + b) == UsageOf(a)
  {
    if b == [] {
      assert a + b == a;
    } else {
      var n := |b| - 1;
      UsageConcat(a, b[..n]);
      assert (a + b)[..|a + b| - 1] == a + b[..n];
      assert b[n] in b;
    }
  }

  lemma {:induction false} CallsSaid(calls: seq<ChatCall>, index: int)
    ensures TextOf(SaidByCalls(calls)) == []
    ensures forall e :: e in SaidByCalls(calls) ==> !e.UsageReport?
    ensures Same(Of(SaidByCalls(calls), index), For(calls, index))
  {
    if calls != [] {
      var n := |calls| - 1;
      CallsSaid(calls[..n], index);
      var said := SaidByCalls(calls);
      assert said[..|said| - 1] == SaidByCalls(calls[..n]);
    }
  }

  /** These deltas hold what these fragments hold, one by one. */
  predicate Same(ds: seq<Delta>, calls: seq<ChatCall>) {
    && |ds| == |calls|
    && forall k :: 0 <= k < |ds| ==>
         ds[k].id == calls[k].id && ds[k].name == calls[k].name && ds[k].arguments == calls[k].arguments
  }

  /** What a choice says before its calls. */
  function Head(c: Choice): seq<Event> {
    (if c.content != [] then [TextDelta(c.content)] else [])
    + if ReasoningOf(c) != [] then [ReasoningDelta(ReasoningOf(c))] else []
  }

  lemma HeadIsSaid(c: Choice, index: int)
    ensures TextOf(Head(c)) == c.content && Of(Head(c), index) == []
    ensures forall e :: e in Head(c) ==> !e.UsageReport?
  {
    hide ReasoningOf;
    var x := if c.content != [] then [TextDelta(c.content)] else [];
    var y := if ReasoningOf(c) != [] then [ReasoningDelta(ReasoningOf(c))] else [];
    TextConcat(x, y);
    OfConcat(x, y, index);
    One(x);
    One(y);
  }

  lemma ChoiceIsSaid(c: Choice, index: int)
    ensures TextOf(SaidByChoice(c)) == c.content
    ensures forall e :: e in SaidByChoice(c) ==> !e.UsageReport?
    ensures Same(Of(SaidByChoice(c), index), For(c.calls, index))
  {
    hide SaidByCalls, For, Of, TextOf, Head;
    CallsSaid(c.calls, index);
    HeadIsSaid(c, index);
    TextConcat(Head(c), SaidByCalls(c.calls));
    OfConcat(Head(c), SaidByCalls(c.calls), index);
    HeadThenCalls(c);
    assert c.content + [] == c.content;
    assert [] + Of(SaidByCalls(c.calls), index) == Of(SaidByCalls(c.calls), index);
  }

  lemma HeadThenCalls(c: Choice)
    ensures SaidByChoice(c) == Head(c) + SaidByCalls(c.calls)
  {
    hide SaidByCalls;
  }

  lemma One(x: seq<Event>)
    requires |x| <= 1
    ensures TextOf(x) == if x != [] && x[0].TextDelta? then x[0].text else []
    ensures x != [] && !x[0].CallDelta? ==> forall index :: Of(x, index) == []
  {
    if x != [] {
      assert x[..0] == [];
    }
  }

  lemma {:induction false} TextSaid(steps: seq<Step>)
    ensures TextOf(Said(steps)) == Contents(steps)
  {
    hide TextOf, SaidByChoice;
    if steps == [] {
      One([]);
    } else {
      var front, last := steps[..|steps| - 1], steps[|steps| - 1];
      TextSaid(front);
      TextConcat(Said(front), SaidByStep(last));
      match last
      case OfChoice(c) => ChoiceIsSaid(c, 0);
      case OfUsage(u) => One([UsageReport(u)]);
    }
  }

  lemma {:induction false} CallsAreSame(steps: seq<Step>, index: int)
    ensures Same(Of(Said(steps), index), For(CallsIn(steps), index))
  {
    hide Of, SaidByChoice, For;
    if steps == [] {
      NoneSame(index);
    } else {
      var front, last := steps[..|steps| - 1], steps[|steps| - 1];
      CallsAreSame(front, index);
      OfConcat(Said(front), SaidByStep(last), index);
      match last
      case OfChoice(c) =>
        ChoiceIsSaid(c, index);
        ForConcat(CallsIn(front), c.calls, index);
      case OfUsage(u) =>
        One([UsageReport(u)]);
        assert Of(Said(front), index) + [] == Of(Said(front), index);
        assert CallsIn(front) + [] == CallsIn(front);
    }
  }

  lemma NoneSame(index: int)
    ensures Same(Of([], index), For([], index))
  {
  }

  lemma {:induction false} UsageSaid(steps: seq<Step>)
    ensures LastReport(steps, UsageOf(Said(steps)))
  {
    hide SaidByChoice, UsageOf, LastReport;
    if steps == [] {
      NothingReported();
    } else {
      var n := |steps| - 1;
      var front, last := steps[..n], steps[n];
      assert front + [last] == steps;
      UsageSaid(front);
      match last
      case OfChoice(c) =>
        ChoiceIsSaid(c, 0);
        UsageConcat(Said(front), SaidByChoice(c));
        LastReportSnoc(front, last, UsageOf(Said(front)));
      case OfUsage(u) =>
        ReportedLast(Said(front), u);
        LastReportNew(front, u);
    }
  }

  lemma NothingReported()
    ensures UsageOf([]) == Usage(0, 0, 0, 0) && LastReport([], Usage(0, 0, 0, 0))
  {
  }

  lemma ReportedLast(events: seq<Event>, usage: Usage)
    ensures UsageOf(events + [UsageReport(usage)]) == usage
  {
  }

  lemma LastReportNew(steps: seq<Step>, usage: Usage)
    ensures LastReport(steps + [OfUsage(usage)], usage)
  {
    assert (steps + [OfUsage(usage)])[|steps|] == OfUsage(usage);
  }

  lemma LastReportSnoc(steps: seq<Step>, step: Step, usage: Usage)
    requires LastReport(steps, usage) && step.OfChoice?
    ensures LastReport(steps + [step], usage)
  {
    var longer := steps + [step];
    assert longer[|steps|] == step && forall k :: 0 <= k < |steps| ==> longer[k] == steps[k];
  }

  lemma IndexesTold(steps: seq<Step>)
    ensures Indexes(Told(steps)) == SeenIn(steps)
  {
    hide Told, SeenIn, DoneIn, Plain, MarksAscend;
    ToldKept(steps);
    DoneWereSeen(steps);
    var events := Told(steps);
    MarksAreBare(events);
    forall e | e in events && e.CallDelta? ensures e.delta.index in SeenIn(steps) {
      if IsMark(e) {
        assert Finished(events, e.delta.index);
      } else {
        assert Feeds(e, e.delta.index);
      }
    }
    forall index | index in SeenIn(steps) ensures index in Indexes(events) {
      var e :| e in events && Feeds(e, index);
    }
  }

  /** What the deltas of an index say, marks and all, is what its fragments make, once it is marked. */
  lemma CallMade(steps: seq<Step>, index: int, call: ToolCall)
    ensures SaysCall(Of(Told(steps), index), call) <==>
              IsMarked(steps, index) && Makes(For(CallsIn(steps), index), call)
  {
    hide Told, Said, Plain, Of, For, CallsIn, IsMarked, Kept, IsLastID, IsLastName, HasID, HasName, Concat, Arguments;
    var events, calls := Told(steps), For(CallsIn(steps), index);
    MarksInOrder(steps);
    MarksAreBare(events);
    MarksSayNothing(events, index);
    CallsAreSame(steps, index);
    SameSay(Of(Said(steps), index), calls);
    MarkedHasDone(steps, index);
  }

  lemma MarkedHasDone(steps: seq<Step>, index: int)
    ensures IsMarked(steps, index) <==> exists d :: d in Of(Told(steps), index) && d.done
  {
    hide Told, NewIn, Marks, MarksAscend;
    var events := Told(steps);
    MarkedExactly(steps, index);
    MarksInOrder(steps);
    if d :| d in Of(events, index) && d.done {
      OfIsThere(events, index, d);
      MarkIsFinish(events, d);
    }
    if Finished(events, index) {
      OfHasIt(events, Delta(index, [], [], [], true));
    }
  }

  lemma {:induction false} OfIsThere(events: seq<Event>, index: int, d: Delta)
    requires d in Of(events, index)
    ensures d.index == index && CallDelta(d) in events
  {
    if events != [] {
      var n := |events| - 1;
      if d in Of(events[..n], index) {
        OfIsThere(events[..n], index, d);
        assert CallDelta(d) in events[..n];
      } else {
        assert events[n] == CallDelta(d);
      }
    }
  }

  lemma {:induction false} OfHasIt(events: seq<Event>, d: Delta)
    requires CallDelta(d) in events
    ensures d in Of(events, d.index)
  {
    var n := |events| - 1;
    if events[n] != CallDelta(d) {
      assert events == events[..n] + [events[n]];
      OfHasIt(events[..n], d);
    }
  }

  lemma MarkIsFinish(events: seq<Event>, d: Delta)
    requires Disciplined(events) && CallDelta(d) in events && d.done
    ensures Finished(events, d.index)
  {
    var j :| 0 <= j < |events| && events[j] == CallDelta(d);
    assert IsMark(events[j]);
  }

  lemma SameSay(ds: seq<Delta>, calls: seq<ChatCall>)
    requires Same(ds, calls)
    ensures Concat(ds) == Arguments(calls)
    ensures forall id :: IsLastID(ds, id) <==> HasID(calls, id)
    ensures forall name :: IsLastName(ds, name) <==> HasName(calls, name)
  {
    hide IsLastID, IsLastName, HasID, HasName, Concat, Arguments;
    SameArguments(ds, calls);
    forall id ensures IsLastID(ds, id) <==> HasID(calls, id) {
      SameID(ds, calls, id);
    }
    forall name ensures IsLastName(ds, name) <==> HasName(calls, name) {
      SameName(ds, calls, name);
    }
  }

  lemma {:induction false} SameArguments(ds: seq<Delta>, calls: seq<ChatCall>)
    requires Same(ds, calls)
    ensures Concat(ds) == Arguments(calls)
  {
    if ds != [] {
      SameArguments(ds[..|ds| - 1], calls[..|calls| - 1]);
    }
  }

  lemma SameID(ds: seq<Delta>, calls: seq<ChatCall>, id: string)
    requires Same(ds, calls)
    ensures IsLastID(ds, id) <==> HasID(calls, id)
  {
    assert (forall d :: d in ds ==> d.id == []) <==> forall k :: 0 <= k < |calls| ==> calls[k].id == [];
  }

  lemma SameName(ds: seq<Delta>, calls: seq<ChatCall>, name: string)
    requires Same(ds, calls)
    ensures IsLastName(ds, name) <==> HasName(calls, name)
  {
    assert (forall d :: d in ds ==> d.name == []) <==> forall k :: 0 <= k < |calls| ==> calls[k].name == [];
  }
}
