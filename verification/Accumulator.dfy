/** How one provider pass is put together from a stream of deltas. */
module Accumulator {
  import opened Common
  import opened ProviderTypes

  datatype Partial = Partial(id: string, name: string, arguments: string, done: bool)

  const BLANK := Partial([], [], [], false)

  function Extend(p: Partial, d: Delta): Partial {
    Partial(if d.id != [] then d.id else p.id, if d.name != [] then d.name else p.name,
            p.arguments + d.arguments, p.done || d.done)
  }

  /** What the deltas of one index make. */
  function Merge(ds: seq<Delta>): Partial {
    if ds == [] then BLANK else Extend(Merge(ds[..|ds| - 1]), ds[|ds| - 1])
  }

  function Of(events: seq<Event>, index: int): seq<Delta> {
    if events == [] then []
    else
      var rest, e := Of(events[..|events| - 1], index), events[|events| - 1];
      if e.CallDelta? && e.delta.index == index then rest + [e.delta] else rest
  }

  function TextOf(events: seq<Event>): string {
    if events == [] then []
    else
      var rest, e := TextOf(events[..|events| - 1]), events[|events| - 1];
      if e.TextDelta? then rest + e.text else rest
  }

  function UsageOf(events: seq<Event>): Usage {
    if events == [] then Usage(0, 0, 0, 0)
    else
      var e := events[|events| - 1];
      if e.UsageReport? then e.usage else UsageOf(events[..|events| - 1])
  }

  /** The indexes that have deltas. */
  function Indexes(events: seq<Event>): set<int> {
    set e | e in events && e.CallDelta? :: e.delta.index
  }

  /** sort.Ints on a set of keys. */
  function Ascending(keys: set<int>): seq<int>
    decreases |keys|
  {
    if keys == {} then [] else [Least(keys)] + Ascending(keys - {Least(keys)})
  }

  lemma {:induction false} AscendingSorts(keys: set<int>)
    ensures var s := Ascending(keys);
            && (forall k :: k in s <==> k in keys)
            && (forall i, j :: 0 <= i < j < |s| ==> s[i] < s[j])
    decreases |keys|
  {
    if keys != {} {
      var least, rest := Least(keys), keys - {Least(keys)};
      AscendingSorts(rest);
      var s := Ascending(rest);
      assert forall i :: 0 <= i < |s| ==> s[i] in rest;
      assert forall k :: k in [least] + s <==> k == least || k in s;
    }
  }

  predicate IsLeast(k: int, keys: set<int>) { k in keys && forall other :: other in keys ==> k <= other }

  function Least(keys: set<int>): (k: int)
    requires keys != {}
    ensures IsLeast(k, keys)
  {
    LeastExists(keys);
    var k :| IsLeast(k, keys);
    k
  }

  lemma {:induction false} LeastExists(keys: set<int>)
    requires keys != {}
    ensures exists k :: IsLeast(k, keys)
    decreases |keys|
  {
    assert (forall x :: x !in keys) ==> keys == {};
    var x :| x in keys;
    var rest := keys - {x};
    if rest == {} {
      assert forall other :: other in keys ==> other == x || other in rest;
      assert IsLeast(x, keys);
    } else {
      LeastExists(rest);
      var y :| IsLeast(y, rest);
      assert forall other :: other in keys ==> other == x || other in rest;
      assert IsLeast(if x < y then x else y, keys);
    }
  }

  /** The call that is made of one index, if it is complete and valid. */
  function CallOf(p: Partial, isObject: Json): Option<ToolCall> {
    var call := ToolCall(TrimSpace(p.id), TrimSpace(p.name), p.arguments);
    if p.done && ValidCall(call, isObject) then Some(call) else None
  }

  datatype Pass = Pass(text: string, calls: seq<ToolCall>, usage: Usage)

  /** The calls of a list of indexes, unless one of them is incomplete or invalid. */
  function CallsOf(events: seq<Event>, indexes: seq<int>, isObject: Json): Option<seq<ToolCall>> {
    if indexes == [] then Some([])
    else
      match CallsOf(events, indexes[..|indexes| - 1], isObject)
      case None => None
      case Some(calls) =>
        match CallOf(Merge(Of(events, indexes[|indexes| - 1])), isObject)
        case None => None
        case Some(call) => Some(calls + [call])
  }

  function PassOf(events: seq<Event>, isObject: Json): Option<Pass> {
    match CallsOf(events, Ascending(Indexes(events)), isObject)
    case None => None
    case Some(calls) => Some(Pass(TextOf(events), calls, UsageOf(events)))
  }

  /** What the run's own event callback is told: text and reasoning, in order. */
  function Relayed(events: seq<Event>): seq<Event> {
    if events == [] then []
    else
      var e := events[|events| - 1];
      var rest := Relayed(events[..|events| - 1]);
      if e.TextDelta? || e.ReasoningDelta? then rest + [e] else rest
  }

  /** It is told just the text and the reasoning, each as it came and in the order in which it came. */
  lemma {:induction false} RelayedIs(a: seq<Event>, e: Event, b: seq<Event>)
    ensures Relayed(a + [e] + b)
            == Relayed(a) + (if e.TextDelta? || e.ReasoningDelta? then [e] else []) + Relayed(b)
    ensures Relayed([]) == []
    decreases |b|
  {
    var all := a + [e] + b;
    if b == [] {
      assert all[..|all| - 1] == a;
    } else {
      var n := |b| - 1;
      RelayedIs(a, e, b[..n]);
      assert all[..|all| - 1] == a + [e] + b[..n];
    }
  }

  function Take(partials: map<int, Partial>, e: Event): map<int, Partial> {
    if e.CallDelta? then
      var index := e.delta.index;
      partials[index := Extend(if index in partials then partials[index] else BLANK, e.delta)]
    else partials
  }

  function Gather(events: seq<Event>): map<int, Partial> {
    if events == [] then map[] else Take(Gather(events[..|events| - 1]), events[|events| - 1])
  }

  /** The accumulator of an index is what its own deltas make, whatever came in between. */
  lemma {:induction false} GatherMerges(events: seq<Event>)
    ensures Gather(events).Keys == Indexes(events)
    ensures forall index :: index in Gather(events) ==> Gather(events)[index] == Merge(Of(events, index))
  {
    if events != [] {
      var n := |events| - 1;
      GatherMerges(events[..n]);
      assert events[..n + 1] == events;
      if events[n].CallDelta? {
        IndexesSnoc(events, n);
        OfNone(events[..n], events[n].delta.index);
      } else {
        assert Indexes(events) == Indexes(events[..n]) by {
          assert events == events[..n] + [events[n]];
        }
      }
    }
  }

  predicate Accepted(relayed: seq<Event>, accepts: seq<Event> -> bool) {
    forall k :: 0 < k <= |relayed| ==> accepts(relayed[..k])
  }

  lemma AcceptedSnoc(relayed: seq<Event>, e: Event, accepts: seq<Event> -> bool)
    requires Accepted(relayed, accepts)
    ensures Accepted(relayed + [e], accepts) <==> accepts(relayed + [e])
  {
    var longer := relayed + [e];
    assert longer[..|longer|] == longer;
    forall k | 0 < k <= |relayed| ensures longer[..k] == relayed[..k] {}
  }

  lemma AcceptedPrefix(a: seq<Event>, b: seq<Event>, accepts: seq<Event> -> bool)
    requires a <= b && Accepted(b, accepts)
    ensures Accepted(a, accepts)
  {
    forall k | 0 < k <= |a| ensures accepts(a[..k]) { assert a[..k] == b[..k]; }
  }

  /** When the pass goes well. */
  predicate Succeeds(events: seq<Event>, accepts: seq<Event> -> bool, streamFails: bool, isObject: Json) {
    && (forall e :: e in events ==> ValidEvent(e))
    && Accepted(Relayed(events), accepts)
    && !streamFails
    && PassOf(events, isObject).Some?
  }

  /**
   runProviderPass: the callback takes events until one is invalid or its relay fails; then the pass fails. accepts
   says, of what has been relayed so far, whether the last relay succeeded, and streamFails how the stream itself ended.
   */
  method RunProviderPass(events: seq<Event>, accepts: seq<Event> -> bool, streamFails: bool, isObject: Json)
    returns (r: Result<Pass>, relayed: seq<Event>)
    ensures relayed <= Relayed(events)
    ensures r.Ok? <==> Succeeds(events, accepts, streamFails, isObject)
    ensures r.Ok? ==> r.value == PassOf(events, isObject).value && relayed == Relayed(events)
  {
    hide Extend, ValidEvent, ValidCall, PassOf, Accepted;
    var text: string, usage := [], Usage(0, 0, 0, 0);
    var partials: map<int, Partial> := map[];
    relayed := [];
    assert Accepted([], accepts) by { AcceptedEmpty(accepts); }
    for i := 0 to |events|
      invariant relayed == Relayed(events[..i]) && Accepted(relayed, accepts)
      invariant forall e :: e in events[..i] ==> ValidEvent(e)
      invariant text == TextOf(events[..i]) && usage == UsageOf(events[..i]) && partials == Gather(events[..i])
    {
      var e := events[i];
      assert events[..i + 1][..i] == events[..i] && events[..i + 1][i] == e;
      if !ValidEvent(e) {
        RelayedPrefix(events, i);
        return Error, relayed;
      }
      if e.TextDelta? || e.ReasoningDelta? {
        if e.TextDelta? {
          text := text + e.text;
        }
        AcceptedSnoc(relayed, e, accepts);
        relayed := relayed + [e];
        if !accepts(relayed) {
          RelayedPrefix(events, i + 1);
          if Accepted(Relayed(events), accepts) {
            AcceptedPrefix(relayed, Relayed(events), accepts);
          }
          return Error, relayed;
        }
      } else if e.UsageReport? {
        usage := e.usage;
      } else {
        partials := Take(partials, e);
      }
    }
    assert events[..|events|] == events;
    if streamFails {
      return Error, relayed;
    }
    var calls := CollectCalls(events, partials, isObject);
    if calls.Error? {
      PassFails(events, isObject);
      return Error, relayed;
    }
    PassFound(events, isObject);
    r := Ok(Pass(text, calls.value, usage));
  }

  lemma AcceptedEmpty(accepts: seq<Event> -> bool)
    ensures Accepted([], accepts)
  {
  }

  lemma PassFails(events: seq<Event>, isObject: Json)
    ensures CallsOf(events, Ascending(Indexes(events)), isObject).None? ==> PassOf(events, isObject).None?
  {
  }

  lemma PassFound(events: seq<Event>, isObject: Json)
    ensures var calls := CallsOf(events, Ascending(Indexes(events)), isObject);
            calls.Some? ==> PassOf(events, isObject) == Some(Pass(TextOf(events), calls.value, UsageOf(events)))
  {
  }

  method SortedIndexes(partials: map<int, Partial>) returns (indexes: seq<int>)
    ensures indexes == Ascending(partials.Keys)
    ensures forall i :: 0 <= i < |indexes| ==> indexes[i] in partials
  {
    indexes := Ascending(partials.Keys);
    AscendingSorts(partials.Keys);
  }

  /** The second half of the pass: the accumulators in ascending order of their index. */
  method CollectCalls(ghost events: seq<Event>, partials: map<int, Partial>, isObject: Json)
    returns (r: Result<seq<ToolCall>>)
    requires partials == Gather(events)
    ensures var calls := CallsOf(events, Ascending(Indexes(events)), isObject);
            r == if calls.Some? then Ok(calls.value) else Error
  {
    hide Ascending, Gather, Merge, Of, ValidCall, Indexes, CallsOf, CallOf, TrimSpace;
    GatherMerges(events);
    var indexes := SortedIndexes(partials);
    var calls := [];
    NoneCalled(events, isObject);
    for i := 0 to |indexes|
      invariant CallsOf(events, indexes[..i], isObject) == Some(calls)
    {
      var p := partials[indexes[i]];
      var candidate := ToolCall(TrimSpace(p.id), TrimSpace(p.name), p.arguments);
      assert p == Merge(Of(events, indexes[i]));
      EmptyIsInvalid(candidate, isObject);
      CallsNext(events, indexes, i, isObject, calls);
      if !p.done || candidate.id == [] || candidate.name == [] || !ValidCall(candidate, isObject) {
        CallsFail(events, indexes, i + 1, isObject);
        return Error;
      }
      calls := calls + [candidate];
    }
    assert indexes[..|indexes|] == indexes;
    r := Ok(calls);
  }

  lemma NoneCalled(events: seq<Event>, isObject: Json)
    ensures CallsOf(events, [], isObject) == Some([])
  {
  }

  lemma CallsNext(events: seq<Event>, indexes: seq<int>, i: nat, isObject: Json, calls: seq<ToolCall>)
    requires i < |indexes| && CallsOf(events, indexes[..i], isObject) == Some(calls)
    ensures var p := Merge(Of(events, indexes[i]));
            var call := ToolCall(TrimSpace(p.id), TrimSpace(p.name), p.arguments);
            CallsOf(events, indexes[..i + 1], isObject)
            == if p.done && ValidCall(call, isObject) then Some(calls + [call]) else None
  {
    hide Merge, Of, ValidCall, TrimSpace;
    assert indexes[..i + 1][..i] == indexes[..i];
  }

  lemma EmptyIsInvalid(call: ToolCall, isObject: Json)
    ensures call.id == [] || call.name == [] ==> !ValidCall(call, isObject)
  {
  }

  lemma {:induction false} CallsFail(events: seq<Event>, indexes: seq<int>, n: nat, isObject: Json)
    requires n <= |indexes| && CallsOf(events, indexes[..n], isObject).None?
    ensures CallsOf(events, indexes, isObject).None?
    decreases |indexes|
  {
    if n == |indexes| {
      assert indexes[..n] == indexes;
    } else {
      assert indexes[..|indexes| - 1][..n] == indexes[..n];
      CallsFail(events, indexes[..|indexes| - 1], n, isObject);
    }
  }

  lemma {:induction false} RelayedPrefix(events: seq<Event>, n: nat)
    requires n <= |events|
    ensures Relayed(events[..n]) <= Relayed(events)
    decreases |events|
  {
    if n < |events| {
      assert events[..|events| - 1][..n] == events[..n];
      RelayedPrefix(events[..|events| - 1], n);
    } else {
      assert events[..n] == events;
    }
  }

  lemma IndexesSnoc(events: seq<Event>, i: nat)
    requires i < |events| && events[i].CallDelta?
    ensures Indexes(events[..i + 1]) == Indexes(events[..i]) + {events[i].delta.index}
  {
    assert events[..i + 1] == events[..i] + [events[i]];
    assert events[i] in events[..i + 1];
    forall e | e in events[..i] ensures e in events[..i + 1] {}
  }

  lemma {:induction false} OfNone(events: seq<Event>, index: int)
    ensures index !in Indexes(events) ==> Of(events, index) == []
  {
    if events != [] {
      OfNone(events[..|events| - 1], index);
      assert events[|events| - 1] in events;
      forall e | e in events[..|events| - 1] ensures e in events {}
    }
  }

  // ---- What the order of the deltas matters for ----

  /** Deltas of different indexes may come in any order relative to each other, and to text and usage. */
  lemma InterleavingIrrelevant(a: seq<Event>, b: seq<Event>, isObject: Json)
    requires forall index :: Of(a, index) == Of(b, index)
    requires TextOf(a) == TextOf(b) && UsageOf(a) == UsageOf(b)
    ensures PassOf(a, isObject) == PassOf(b, isObject)
  {
    forall index | index in Indexes(a) || index in Indexes(b)
      ensures index in Indexes(a) && index in Indexes(b)
    {
      OfSome(a, index);
      OfSome(b, index);
    }
    assert Indexes(a) == Indexes(b);
    CallsAgree(a, b, Ascending(Indexes(a)), isObject);
  }

  lemma {:induction false} OfSome(events: seq<Event>, index: int)
    ensures index in Indexes(events) <==> Of(events, index) != []
  {
    OfNone(events, index);
    if events != [] {
      OfSome(events[..|events| - 1], index);
      assert events == events[..|events| - 1] + [events[|events| - 1]];
      assert events[|events| - 1] in events;
    }
  }

  lemma {:induction false} CallsAgree(a: seq<Event>, b: seq<Event>, indexes: seq<int>, isObject: Json)
    requires forall index :: Of(a, index) == Of(b, index)
    ensures CallsOf(a, indexes, isObject) == CallsOf(b, indexes, isObject)
  {
    if indexes != [] {
      CallsAgree(a, b, indexes[..|indexes| - 1], isObject);
    }
  }

  function Concat(ds: seq<Delta>): string {
    if ds == [] then [] else Concat(ds[..|ds| - 1]) + ds[|ds| - 1].arguments
  }

  /** The ID of the last of these deltas that has one, or none. */
  predicate IsLastID(ds: seq<Delta>, id: string) {
    || (id == [] && forall d :: d in ds ==> d.id == [])
    || (id != [] && exists k :: 0 <= k < |ds| && ds[k].id == id && forall j :: k < j < |ds| ==> ds[j].id == [])
  }

  predicate IsLastName(ds: seq<Delta>, name: string) {
    || (name == [] && forall d :: d in ds ==> d.name == [])
    || (name != [] && exists k :: 0 <= k < |ds| && ds[k].name == name && forall j :: k < j < |ds| ==> ds[j].name == [])
  }

  /** This call is what these deltas say: its last ID and its last name, trimmed, and all fragments of arguments. */
  ghost predicate SaysCall(ds: seq<Delta>, call: ToolCall) {
    && call.arguments == Concat(ds) && (exists d :: d in ds && d.done)
    && (exists id :: IsLastID(ds, id) && call.id == TrimSpace(id))
    && exists name :: IsLastName(ds, name) && call.name == TrimSpace(name)
  }

  /** The text pieces of a stream, without its reasoning. */
  function Texts(events: seq<Event>): seq<string> {
    if events == [] then []
    else (if events[0].TextDelta? then [events[0].text] else []) + Texts(events[1..])
  }

  /** The last usage that was reported, or none at all. */
  predicate IsLastUsage(events: seq<Event>, usage: Usage) {
    || (usage == Usage(0, 0, 0, 0) && forall e :: e in events ==> !e.UsageReport?)
    || exists k :: 0 <= k < |events| && events[k] == UsageReport(usage)
                   && forall j :: k < j < |events| ==> !events[j].UsageReport?
  }

  /** A pass holds the text pieces end to end, without reasoning, and the last usage reported. */
  lemma PassText(events: seq<Event>, isObject: Json)
    requires PassOf(events, isObject).Some?
    ensures var pass := PassOf(events, isObject).value;
            pass.text == Flatten(Texts(events)) && IsLastUsage(events, pass.usage)
  {
    hide CallsOf, Ascending, Indexes, IsLastUsage;
    TextJoins(events);
    UsageFound(events);
  }

  lemma {:induction false} TextJoins(events: seq<Event>)
    ensures TextOf(events) == Flatten(Texts(events))
  {
    if events != [] {
      var front, last := events[..|events| - 1], events[|events| - 1];
      TextJoins(front);
      TextsSnoc(front, last);
      assert events == front + [last];
      if last.TextDelta? {
        FlattenSnoc(Texts(front), last.text);
      } else {
        assert Texts(front) + [] == Texts(front);
      }
    }
  }

  lemma {:induction false} TextsSnoc(events: seq<Event>, e: Event)
    ensures Texts(events + [e]) == Texts(events) + if e.TextDelta? then [e.text] else []
  {
    if events == [] {
      assert [e][1..] == [];
    } else {
      TextsSnoc(events[1..], e);
      assert (events + [e])[1..] == events[1..] + [e];
    }
  }

  lemma {:induction false} UsageFound(events: seq<Event>)
    ensures IsLastUsage(events, UsageOf(events))
  {
    if events != [] {
      var n := |events| - 1;
      UsageFound(events[..n]);
      assert events == events[..n] + [events[n]];
      if !events[n].UsageReport? && exists k :: 0 <= k < n && events[k].UsageReport? {
        var u := UsageOf(events[..n]);
        var k :| 0 <= k < n && events[..n][k] == UsageReport(u)
                 && forall j :: k < j < n ==> !events[..n][j].UsageReport?;
        assert events[k] == UsageReport(u);
        forall j | k < j < |events| ensures !events[j].UsageReport? {
          assert j < n ==> events[j] == events[..n][j];
        }
      }
    }
  }

  /** When a pass goes well: what the deltas of each index say is a complete and valid call. */
  lemma PassExactly(events: seq<Event>, isObject: Json)
    ensures PassOf(events, isObject).Some? <==>
              forall index :: index in Indexes(events) ==>
                exists call :: SaysCall(Of(events, index), call) && ValidCall(call, isObject)
  {
    hide ValidCall, Ascending, Indexes, SaysCall;
    var indexes := Ascending(Indexes(events));
    AscendingSorts(Indexes(events));
    CallsExactly(events, indexes, isObject);
  }

  lemma {:induction false} CallsExactly(events: seq<Event>, indexes: seq<int>, isObject: Json)
    ensures CallsOf(events, indexes, isObject).Some? <==>
              forall index :: index in indexes ==>
                exists call :: SaysCall(Of(events, index), call) && ValidCall(call, isObject)
  {
    hide ValidCall, Of, SaysCall, CallOf;
    if indexes != [] {
      var n := |indexes| - 1;
      CallsExactly(events, indexes[..n], isObject);
      CallExactly(Of(events, indexes[n]), isObject);
      assert indexes == indexes[..n] + [indexes[n]];
    }
  }

  lemma CallExactly(ds: seq<Delta>, isObject: Json)
    ensures CallOf(Merge(ds), isObject).Some? <==> exists call :: SaysCall(ds, call) && ValidCall(call, isObject)
    ensures CallOf(Merge(ds), isObject).Some? ==> SaysCall(ds, CallOf(Merge(ds), isObject).value)
  {
    hide ValidCall, TrimSpace, IsLastID, IsLastName;
    var p := Merge(ds);
    MergeDescribed(ds);
    forall call | SaysCall(ds, call)
      ensures p.done && call == ToolCall(TrimSpace(p.id), TrimSpace(p.name), p.arguments)
    {
      var id :| IsLastID(ds, id) && call.id == TrimSpace(id);
      var name :| IsLastName(ds, name) && call.name == TrimSpace(name);
      LastUnique(ds, id, p.id, name, p.name);
    }
    assert SaysCall(ds, ToolCall(TrimSpace(p.id), TrimSpace(p.name), p.arguments)) <== p.done;
  }

  lemma LastUnique(ds: seq<Delta>, id: string, otherID: string, name: string, otherName: string)
    requires IsLastID(ds, id) && IsLastID(ds, otherID) && IsLastName(ds, name) && IsLastName(ds, otherName)
    ensures id == otherID && name == otherName
  {
  }

  /**
   A successful pass has one call for each index that has deltas, by ascending index, and it is what the deltas of that
   index say: the last ID and name, the fragments of its arguments end to end, and one delta that said it was done.
   */
  lemma PassCalls(events: seq<Event>, isObject: Json)
    requires PassOf(events, isObject).Some?
    ensures var indexes, calls := Ascending(Indexes(events)), PassOf(events, isObject).value.calls;
            && |calls| == |indexes|
            && (forall i, j :: 0 <= i < j < |indexes| ==> indexes[i] < indexes[j])
            && (forall k :: k in indexes <==> k in Indexes(events))
            && forall i :: 0 <= i < |calls| ==>
                 && SaysCall(Of(events, indexes[i]), calls[i])
                 && calls[i].arguments == Concat(Of(events, indexes[i]))
                 && (exists d :: d in Of(events, indexes[i]) && d.done)
                 && ValidCall(calls[i], isObject)
  {
    hide ValidCall, Ascending, Indexes;
    AscendingSorts(Indexes(events));
    CallsDescribed(events, Ascending(Indexes(events)), isObject);
  }

  lemma {:induction false} CallsDescribed(events: seq<Event>, indexes: seq<int>, isObject: Json)
    requires CallsOf(events, indexes, isObject).Some?
    ensures var calls := CallsOf(events, indexes, isObject).value;
            && |calls| == |indexes|
            && forall i :: 0 <= i < |calls| ==>
                 SaysCall(Of(events, indexes[i]), calls[i]) && ValidCall(calls[i], isObject)
  {
    hide ValidCall, Of, SaysCall;
    if indexes != [] {
      CallsDescribed(events, indexes[..|indexes| - 1], isObject);
      CallExactly(Of(events, indexes[|indexes| - 1]), isObject);
    }
  }

  lemma {:induction false} MergeDescribed(ds: seq<Delta>)
    ensures Merge(ds).arguments == Concat(ds)
    ensures Merge(ds).done <==> exists d :: d in ds && d.done
    ensures IsLastID(ds, Merge(ds).id) && IsLastName(ds, Merge(ds).name)
  {
    hide IsLastID, IsLastName;
    if ds == [] {
      NoLast();
    } else {
      var front, d := ds[..|ds| - 1], ds[|ds| - 1];
      MergeDescribed(front);
      assert ds == front + [d];
      LastSnocID(front, d, Merge(front).id);
      LastSnocName(front, d, Merge(front).name);
    }
  }

  lemma NoLast()
    ensures IsLastID([], []) && IsLastName([], [])
  {
  }

  lemma LastSnocID(ds: seq<Delta>, d: Delta, id: string)
    requires IsLastID(ds, id)
    ensures IsLastID(ds + [d], if d.id != [] then d.id else id)
  {
    var longer := ds + [d];
    assert longer[|ds|] == d && forall k :: 0 <= k < |ds| ==> longer[k] == ds[k];
  }

  lemma LastSnocName(ds: seq<Delta>, d: Delta, name: string)
    requires IsLastName(ds, name)
    ensures IsLastName(ds + [d], if d.name != [] then d.name else name)
  {
    var longer := ds + [d];
    assert longer[|ds|] == d && forall k :: 0 <= k < |ds| ==> longer[k] == ds[k];
  }
}
