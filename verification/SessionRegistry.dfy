/**
 The sessions of one server by request ID: expired ones are pruned, the oldest terminal ones make room for new ones,
 and a session that has not ended is never dropped. A session is known here by its number. Sessions may end at any time,
 also while the registry is locked, so every look at one may find another state.
 */
module SessionRegistry {

  /** The sessions that have ended, with the time of their end; 0 is Go's zero time, which counts as none. */
  type Ended = map<nat, nat>

  predicate Removable(ended: Ended, n: nat) { n in ended && ended[n] != 0 }

  predicate Expired(ended: Ended, n: nat, now: nat, retention: nat) {
    Removable(ended, n) && ended[n] + retention <= now
  }

  /** Sessions that have ended stay ended, and the time of their end does not change: see SessionRuns.EvolvesAlways. */
  predicate Extends(before: Ended, after: Ended) { forall n :: n in before ==> n in after && after[n] == before[n] }

  /** What the successive looks at sessions find. */
  type Looks = nat -> Ended

  ghost predicate Growing(looks: Looks) { forall i, j :: i <= j ==> Extends(looks(i), looks(j)) }

  predicate Submap(small: map<string, nat>, large: map<string, nat>) {
    forall id :: id in small ==> id in large && small[id] == large[id]
  }

  /** Only expired sessions were dropped, and all that had expired before the first look. */
  predicate Pruned(before: map<string, nat>, after: map<string, nat>, first: Ended, last: Ended, now: nat,
                   retention: nat)
  {
    && Submap(after, before)
    && (forall id :: id in before && id !in after ==> Expired(last, before[id], now, retention))
    && (forall id :: id in after ==> !Expired(first, after[id], now, retention))
  }

  /**
   Terminal sessions were dropped, none later than one that is kept and had ended before the first look, no more than
   needed, and either enough or all that had ended then.
   */
  ghost predicate RoomMade(before: map<string, nat>, after: map<string, nat>, first: Ended, last: Ended, maximum: nat) {
    && Dropped(before, after, first, last, maximum)
    && (|after| < maximum || forall id :: id in after ==> !Removable(first, after[id]))
  }

  ghost predicate Dropped(before: map<string, nat>, after: map<string, nat>, first: Ended, last: Ended, maximum: nat) {
    && Submap(after, before)
    && (forall id :: id in before && id !in after ==>
          && Removable(last, before[id])
          && forall k :: k in after && Removable(first, after[k]) ==> last[before[id]] <= first[after[k]])
    && (after == before || |after| + 1 >= maximum)
  }

  class Registry {
    const retention: nat
    const maximum: nat
    var sessions: map<string, nat>
    var made: nat

    constructor (retention: nat, maximum: nat)
      requires retention > 0 && maximum > 0
      ensures this.retention == retention && this.maximum == maximum && sessions == map[] && made == 0
    {
      this.retention, this.maximum, sessions, made := retention, maximum, map[], 0;
    }

    /** The looks from start on are those of this call; end is how far it got. */
    method PruneExpiredSessions(looks: Looks, start: nat, now: nat) returns (end: nat)
      requires Growing(looks)
      modifies this`sessions
      ensures start <= end && Pruned(old(sessions), sessions, looks(start), looks(end), now, retention)
      ensures forall id :: id in old(sessions) && id !in sessions ==>
                var n := old(sessions)[id];
                n in looks(end) && looks(end)[n] != 0 && looks(end)[n] + retention <= now
      ensures forall id :: id in sessions ==>
                var n := sessions[id];
                n in looks(start) && looks(start)[n] + retention <= now ==> looks(start)[n] == 0
    {
      ghost var before := sessions;
      var rest := sessions.Keys;
      end := start;
      while rest != {}
        invariant start <= end && Submap(sessions, before) && rest <= sessions.Keys
        invariant forall id :: id in before && id !in sessions ==> Expired(looks(end), before[id], now, retention)
        invariant forall id :: id in sessions && id !in rest ==> !Expired(looks(start), sessions[id], now, retention)
      {
        var id :| id in rest;
        rest := rest - {id};
        if Expired(looks(end), sessions[id], now, retention) {
          sessions := sessions - {id};
        }
        end := end + 1;
      }
    }

    /** The scan of makeRoomForSessionLocked, in whatever order the map is read; "" stands for nothing found. */
    method OldestTerminal(looks: Looks, start: nat) returns (oldest: string, end: nat)
      requires "" !in sessions && Growing(looks)
      ensures start <= end
      ensures oldest == "" ==> forall id :: id in sessions ==> !Removable(looks(start), sessions[id])
      ensures oldest != "" ==>
                && oldest in sessions && Removable(looks(end), sessions[oldest])
                && forall id :: id in sessions && Removable(looks(start), sessions[id]) ==>
                     looks(end)[sessions[oldest]] <= looks(start)[sessions[id]]
    {
      oldest, end := "", start;
      var oldestAt := 0;
      var rest := sessions.Keys;
      while rest != {}
        invariant start <= end && rest <= sessions.Keys
        invariant oldest == "" ==>
                    forall id :: id in sessions && id !in rest ==> !Removable(looks(start), sessions[id])
        invariant oldest != "" ==>
                    && oldest in sessions && Removable(looks(end), sessions[oldest])
                    && oldestAt == looks(end)[sessions[oldest]]
                    && forall id :: id in sessions && id !in rest && Removable(looks(start), sessions[id]) ==>
                         oldestAt <= looks(start)[sessions[id]]
      {
        var id :| id in rest;
        rest := rest - {id};
        if Removable(looks(end), sessions[id]) {
          if oldest == "" || looks(end)[sessions[id]] < oldestAt {
            oldest, oldestAt := id, looks(end)[sessions[id]];
          }
        }
        end := end + 1;
      }
    }

    method MakeRoomForSession(looks: Looks, start: nat) returns (end: nat)
      requires "" !in sessions && Growing(looks)
      modifies this`sessions
      ensures start <= end && RoomMade(old(sessions), sessions, looks(start), looks(end), maximum)
    {
      ghost var before := sessions;
      end := start;
      while |sessions| >= maximum
        invariant start <= end && Dropped(before, sessions, looks(start), looks(end), maximum)
        decreases |sessions|
      {
        var oldest, next := OldestTerminal(looks, end);
        DroppedLater(before, sessions, looks(start), looks(end), looks(next), maximum);
        if oldest == "" {
          end := next;
          return;
        }
        DroppedOne(before, sessions, oldest, looks(start), looks(end), looks(next), maximum);
        sessions, end := sessions - {oldest}, next;
      }
    }

    /** The session of a request ID, made if there is none. Request IDs are never empty. */
    method Session(requestID: string, looks: Looks, now: nat) returns (session: nat, ghost end: nat)
      requires requestID != "" && "" !in sessions && Growing(looks)
      modifies this`sessions, this`made
      ensures Called(old(sessions), old(made), Lookup(requestID, looks(0), looks(end), now), sessions, made, session,
                     retention, maximum)
      ensures "" !in sessions
    {
      ghost var before := sessions;
      var middle := PruneExpiredSessions(looks, 0, now);
      end := middle;
      ghost var pruned := sessions;
      if requestID in sessions {
        return sessions[requestID], middle;
      }
      var last := MakeRoomForSession(looks, middle);
      end := last;
      ghost var room := sessions;
      session := made;
      made := made + 1;
      sessions := sessions[requestID := session];
      assert sessions - {requestID} == room;
      PrunedLater(before, pruned, looks(0), looks(middle), looks(last), now, retention);
      RoomEarlier(pruned, room, looks(0), looks(middle), looks(last), maximum);
    }
  }

  lemma DroppedLater(before: map<string, nat>, after: map<string, nat>, first: Ended, last: Ended, later: Ended,
                     maximum: nat)
    requires Dropped(before, after, first, last, maximum) && Extends(last, later)
    ensures Dropped(before, after, first, later, maximum)
  {
  }

  /** One more goes: among those that had ended before this scan, none ended before it. */
  lemma DroppedOne(before: map<string, nat>, after: map<string, nat>, oldest: string, first: Ended, last: Ended,
                   later: Ended, maximum: nat)
    requires Dropped(before, after, first, later, maximum) && Extends(first, last) && |after| >= maximum
    requires oldest in after && Removable(later, after[oldest])
    requires forall id :: id in after && Removable(last, after[id]) ==> later[after[oldest]] <= last[after[id]]
    ensures Dropped(before, after - {oldest}, first, later, maximum) && |after - {oldest}| < |after|
  {
    var fewer := after - {oldest};
    assert after.Keys == fewer.Keys + {oldest};
    assert |after| == |fewer| + 1;
  }

  lemma PrunedLater(before: map<string, nat>, after: map<string, nat>, first: Ended, last: Ended, later: Ended,
                    now: nat, retention: nat)
    requires Pruned(before, after, first, last, now, retention) && Extends(last, later)
    ensures Pruned(before, after, first, later, now, retention)
  {
  }

  lemma RoomEarlier(before: map<string, nat>, after: map<string, nat>, earlier: Ended, first: Ended, last: Ended,
                    maximum: nat)
    requires RoomMade(before, after, first, last, maximum) && Extends(earlier, first)
    ensures RoomMade(before, after, earlier, last, maximum)
  {
  }

  // ---- Histories ----

  /**
   A use of the registry, with the sessions that had ended at its first look and at its last one. Detached stands for a
   detached tool result, which only prunes.
   */
  datatype Call =
    | Lookup(requestID: string, first: Ended, last: Ended, now: nat)
    | Detached(first: Ended, last: Ended, now: nat)

  /** What comes after the pruning. */
  ghost predicate GoesOn(pruned: map<string, nat>, madeBefore: nat, call: Call, after: map<string, nat>, madeAfter: nat,
                         result: nat, maximum: nat)
  {
    if call.Detached? then after == pruned && madeAfter == madeBefore
    else if call.requestID in pruned then after == pruned && madeAfter == madeBefore && result == pruned[call.requestID]
    else
      && call.requestID in after && after[call.requestID] == result == madeBefore && madeAfter == madeBefore + 1
      && RoomMade(pruned, after - {call.requestID}, call.first, call.last, maximum)
  }

  ghost predicate Called(before: map<string, nat>, madeBefore: nat, call: Call, after: map<string, nat>, madeAfter: nat,
                         result: nat, retention: nat, maximum: nat)
  {
    exists pruned :: Pruned(before, pruned, call.first, call.last, call.now, retention)
                     && GoesOn(pruned, madeBefore, call, after, madeAfter, result, maximum)
  }

  /** After a registration there are too many sessions only if every other one was still going on at the first look. */
  lemma SizeBound(before: map<string, nat>, made: nat, call: Call, after: map<string, nat>, madeAfter: nat, result: nat,
                  retention: nat, maximum: nat)
    requires Called(before, made, call, after, madeAfter, result, retention, maximum)
    requires call.Lookup? && madeAfter != made
    ensures |after| <= maximum || forall id :: id in after && id != call.requestID ==> !Removable(call.first, after[id])
  {
    var others := after - {call.requestID};
    assert after.Keys == others.Keys + {call.requestID};
    assert |after| <= |others| + 1;
    assert forall id :: id in after && id != call.requestID ==> id in others;
  }

  function Unexpired(sessions: map<string, nat>, ended: Ended, now: nat, retention: nat): map<string, nat> {
    map id | id in sessions && !Expired(ended, sessions[id], now, retention) :: sessions[id]
  }

  /**
   If no session ends meanwhile, exactly the expired sessions are pruned, and a request ID leads to its old session
   exactly if that is not one of them.
   */
  lemma QuietLookup(before: map<string, nat>, made: nat, call: Call, after: map<string, nat>, madeAfter: nat,
                    result: nat, retention: nat, maximum: nat)
    requires Called(before, made, call, after, madeAfter, result, retention, maximum)
    requires call.Lookup? && call.first == call.last
    ensures var pruned := Unexpired(before, call.first, call.now, retention);
            if call.requestID in pruned then
              after == pruned && madeAfter == made && result == before[call.requestID]
            else
              && madeAfter == made + 1 && result == made && call.requestID in after && after[call.requestID] == made
              && RoomMade(pruned, after - {call.requestID}, call.first, call.first, maximum)
  {
    hide RoomMade;
    var pruned :| Pruned(before, pruned, call.first, call.last, call.now, retention)
                  && GoesOn(pruned, made, call, after, madeAfter, result, maximum);
    assert pruned == Unexpired(before, call.first, call.now, retention);
  }

  datatype Entry = Entry(sessions: map<string, nat>, made: nat, call: Call, result: nat)

  ghost predicate Leads(before: Entry, after: Entry, retention: nat, maximum: nat) {
    Called(before.sessions, before.made, before.call, after.sessions, after.made, before.result, retention, maximum)
  }

  /**
   Consecutive uses of one registry: each entry holds the state before its call. Sessions that have ended stay ended.
   */
  ghost predicate History(h: seq<Entry>, retention: nat, maximum: nat) {
    && (forall i :: 0 <= i < |h| - 1 ==> Leads(h[i], h[i + 1], retention, maximum))
    && (forall i, j :: 0 <= i <= j < |h| ==> Extends(h[i].call.last, h[j].call.last))
  }

  lemma CallKeeps(before: Entry, after: Entry, id: string, retention: nat, maximum: nat)
    requires Leads(before, after, retention, maximum)
    requires id in before.sessions && before.sessions[id] !in before.call.last
    ensures id in after.sessions && after.sessions[id] == before.sessions[id]
  {
    var pruned :| Pruned(before.sessions, pruned, before.call.first, before.call.last, before.call.now, retention)
                  && GoesOn(pruned, before.made, before.call, after.sessions, after.made, before.result, maximum);
    assert id in pruned;
    if before.call.Lookup? && before.call.requestID !in pruned {
      assert id in after.sessions - {before.call.requestID};
    }
  }

  /** A request ID keeps leading to its session for as long as that session has not ended. */
  lemma {:induction false} KeptUntilEnded(h: seq<Entry>, i: nat, j: nat, id: string, retention: nat, maximum: nat)
    requires History(h, retention, maximum) && i <= j < |h|
    requires id in h[i].sessions && (j > i ==> h[i].sessions[id] !in h[j - 1].call.last)
    ensures id in h[j].sessions && h[j].sessions[id] == h[i].sessions[id]
    decreases j - i
  {
    hide Leads;
    if i < j {
      if i < j - 1 {
        assert Extends(h[j - 2].call.last, h[j - 1].call.last);
      }
      KeptUntilEnded(h, i, j - 1, id, retention, maximum);
      CallKeeps(h[j - 1], h[j], id, retention, maximum);
    }
  }

  lemma LookupFinds(before: Entry, after: Entry, retention: nat, maximum: nat)
    requires Leads(before, after, retention, maximum) && before.call.Lookup?
    ensures before.call.requestID in after.sessions && after.sessions[before.call.requestID] == before.result
    ensures var id := before.call.requestID;
            id in before.sessions && before.sessions[id] !in before.call.last ==> before.result == before.sessions[id]
  {
    hide RoomMade;
  }

  /** So appends and reconnects of one request ID reach one session, until that session has ended. */
  lemma OneSession(h: seq<Entry>, i: nat, j: nat, retention: nat, maximum: nat)
    requires History(h, retention, maximum) && i < j < |h| - 1
    requires h[i].call.Lookup? && h[j].call.Lookup? && h[i].call.requestID == h[j].call.requestID
    requires h[i].result !in h[j].call.last
    ensures h[j].result == h[i].result
  {
    hide Leads;
    LookupFinds(h[i], h[i + 1], retention, maximum);
    if i + 1 < j {
      assert Extends(h[j - 1].call.last, h[j].call.last);
    }
    KeptUntilEnded(h, i + 1, j, h[i].call.requestID, retention, maximum);
    LookupFinds(h[j], h[j + 1], retention, maximum);
  }

  // ---- Message IDs ----

  /** atomic.Uint32 with the value 0 skipped. */
  class Allocator {
    var next: nat

    constructor ()
      ensures next == 0
    {
      next := 0;
    }

    method AllocateMessageID() returns (value: nat)
      requires next < 0x1_0000_0000
      modifies this
      ensures next == value == Successor(old(next))
    {
      next := (next + 1) % 0x1_0000_0000;
      value := next;
      if value == 0 {
        next := (next + 1) % 0x1_0000_0000;
        value := next;
      }
    }
  }

  function Successor(next: nat): nat { if next + 1 == 0x1_0000_0000 then 1 else next + 1 }

  /** The n-th ID ever allocated, counting from 1. */
  function Nth(n: nat): nat { if n == 0 then 0 else Successor(Nth(n - 1)) }

  /**
   IDs are never 0, and any 2^32 - 1 consecutive ones are distinct: two are equal exactly when that many lie between.
   */
  lemma NthDistinct(m: nat, n: nat)
    requires 0 < m && 0 < n
    ensures 1 <= Nth(n) < 0x1_0000_0000
    ensures Nth(m) == Nth(n) <==> (m - 1) % 0xFFFF_FFFF == (n - 1) % 0xFFFF_FFFF
  {
    NthClosed(m);
    NthClosed(n);
  }

  lemma {:induction false} NthClosed(n: nat)
    requires 0 < n
    ensures Nth(n) == (n - 1) % 0xFFFF_FFFF + 1
  {
    if n == 1 {
      assert Nth(1) == Successor(Nth(0));
    } else {
      NthClosed(n - 1);
      var k := n - 2;
      assert (k + 1) % 0xFFFF_FFFF == if k % 0xFFFF_FFFF == 0xFFFF_FFFE then 0 else k % 0xFFFF_FFFF + 1;
    }
  }
}
