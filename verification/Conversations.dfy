/**
 The bounded history of one conversation, and the cache of conversations from which the least recently used are dropped.
 */
module Conversations {
  import opened Common
  import opened ProviderTypes

  type Turn = seq<Message>

  /** The last n elements, or all of them. */
  function Last<T>(s: seq<T>, n: nat): seq<T> { if |s| <= n then s else s[|s| - n..] }

  lemma LastSnoc<T>(s: seq<T>, x: T, n: nat)
    ensures Last(Last(s, n) + [x], n) == Last(s + [x], n)
  {
  }

  class Conversation {
    var turns: array<Turn>
    var count: nat  // the slice of turns in use
    var active: nat
    var lastUsed: nat
    ghost var log: seq<Turn>  // every turn ever appended

    constructor ()
      ensures Valid() && fresh(turns) && log == [] && active == 0 && lastUsed == 0
    {
      turns, count, active, lastUsed, log := new Turn[0], 0, 0, 0, [];
    }

    ghost predicate Valid()
      reads this, turns
    {
      count <= turns.Length
    }

    ghost function Window(): seq<Turn>
      reads this, turns
      requires Valid()
    {
      turns[..count]
    }

    /** The slice holds the last turns of the unbounded log. */
    ghost predicate Refines(maxTurns: nat)
      reads this, turns
    {
      Valid() && Window() == Last(log, maxTurns)
    }

    /** append may move the slice to a larger array. */
    method Grow()
      requires Valid()
      modifies this`turns
      ensures Valid() && count < turns.Length && Window() == old(Window())
      ensures turns == old(turns) || fresh(turns)
    {
      if count == turns.Length {
        var larger := new Turn[2 * count + 1](_ => []);
        forall i | 0 <= i < count {
          larger[i] := turns[i];
        }
        turns := larger;
      }
    }

    /** Shifts the turns in place, dropping the first ones. */
    method DropFirst(extra: nat)
      requires Valid() && extra <= count
      modifies this`count, turns
      ensures Valid() && Window() == old(Window())[extra..]
    {
      ghost var before := turns[..count];
      for i := 0 to count - extra
        modifies turns
        invariant forall k :: 0 <= k < i ==> turns[k] == before[k + extra]
        invariant forall k :: i <= k < count ==> turns[k] == before[k]
      {
        turns[i] := turns[i + extra];
      }
      count := count - extra;
    }

    method AppendTurn(messages: Turn, maxTurns: nat)
      requires Valid()
      modifies this`turns, this`count, this`log, turns
      ensures Valid() && Window() == Last(old(Window()) + [messages], maxTurns)
      ensures var all := old(Window()) + [messages];
              |all| - maxTurns <= |all| && Window() == all[if |all| <= maxTurns then 0 else |all| - maxTurns..]
      ensures log == old(log) + [messages] && (old(Refines(maxTurns)) ==> Refines(maxTurns))
      ensures turns == old(turns) || fresh(turns)
    {
      Grow();
      turns[count] := messages;
      count := count + 1;
      log := log + [messages];
      assert Window() == old(Window()) + [messages];
      LastSnoc(old(log), messages, maxTurns);
      if count > maxTurns {
        DropFirst(count - maxTurns);
      }
    }

    method Messages() returns (messages: seq<Message>)
      requires Valid()
      ensures messages == Flatten(Window())
    {
      messages := [];
      for i := 0 to count
        invariant messages == Flatten(turns[..i])
      {
        FlattenSnoc(turns[..i], turns[i]);
        assert turns[..i + 1] == turns[..i] + [turns[i]];
        messages := messages + turns[i];
      }
    }
  }

  // ---- Eviction ----

  datatype Use = Use(active: nat, lastUsed: nat)

  /**
   What evictInactiveLocked leaves of the conversations: inactive ones go, the least recently used first, no more of
   them than needed, and either enough of them or all.
   */
  ghost predicate Evicted(before: map<string, Use>, after: map<string, Use>, maximum: nat) {
    && Evicting(before, after, maximum)
    && (|after| <= maximum || forall id :: id in after ==> after[id].active > 0)
  }

  ghost predicate Evicting(before: map<string, Use>, after: map<string, Use>, maximum: nat) {
    && (forall id :: id in after ==> id in before && after[id] == before[id])
    && (forall id :: id in before && id !in after ==>
          && before[id].active == 0
          && forall k :: k in after && after[k].active == 0 ==> before[id].lastUsed <= after[k].lastUsed)
    && (after == before || |after| >= maximum)
  }

  ghost predicate DistinctUse(uses: map<string, Use>) {
    forall a, b :: a in uses && b in uses && uses[a].lastUsed == uses[b].lastUsed ==> a == b
  }

  /** What is evicted does not depend on the order in which the map is read. */
  lemma EvictionUnique(before: map<string, Use>, a: map<string, Use>, b: map<string, Use>, maximum: nat)
    requires DistinctUse(before) && Evicted(before, a, maximum) && Evicted(before, b, maximum)
    ensures a == b
  {
    EvictionWithin(before, a, b, maximum);
    EvictionWithin(before, b, a, maximum);
  }

  /** Nothing is kept by one eviction and dropped by another. */
  lemma EvictionWithin(before: map<string, Use>, a: map<string, Use>, b: map<string, Use>, maximum: nat)
    requires DistinctUse(before) && Evicted(before, a, maximum) && Evicted(before, b, maximum)
    ensures a.Keys <= b.Keys
  {
    if !(a.Keys <= b.Keys) {
      SmallerMap(b, a);
    }
  }

  lemma SmallerMap(small: map<string, Use>, large: map<string, Use>)
    ensures small.Keys < large.Keys ==> |small| < |large|
  {
    if id :| small.Keys <= large.Keys && id in large && id !in small {
      SmallerSet(small.Keys, large.Keys - {id});
      assert |large.Keys| == |large.Keys - {id}| + 1;
    }
  }

  lemma {:induction false} SmallerSet(a: set<string>, b: set<string>)
    requires a <= b
    ensures |a| <= |b|
    decreases |a|
  {
    if a != {} {
      var x :| x in a;
      SmallerSet(a - {x}, b - {x});
    }
  }

  predicate Injective(conversations: map<string, Conversation>) {
    forall a, b :: a in conversations && b in conversations && conversations[a] == conversations[b] ==> a == b
  }

  /** Every conversation that someone holds is in the map. */
  predicate Pinned(conversations: map<string, Conversation>, held: multiset<Conversation>) {
    forall c :: c in held ==> exists id :: id in conversations && conversations[id] == c
  }

  /** The cache in order: each conversation has one ID, and was used at a time of its own; what is held is there. */
  ghost predicate Orderly(conversations: map<string, Conversation>, held: multiset<Conversation>, sequence: nat,
                          uses: map<string, Use>)
  {
    && "" !in conversations && Injective(conversations) && Pinned(conversations, held) && DistinctUse(uses)
    && Counted(conversations, held, sequence, uses)
  }

  lemma OrderlyWithout(conversations: map<string, Conversation>, held: multiset<Conversation>, sequence: nat,
                       uses: map<string, Use>, id: string)
    requires Orderly(conversations, held, sequence, uses) && id in conversations && uses[id].active == 0
    ensures Orderly(conversations - {id}, held, sequence, uses - {id})
  {
    forall c | c in held
      ensures exists k :: k in conversations - {id} && (conversations - {id})[k] == c
    {
      var k :| k in conversations && conversations[k] == c;
      assert k in conversations - {id};
    }
  }

  lemma OrderlyNames(conversations: map<string, Conversation>, held: multiset<Conversation>, sequence: nat,
                     uses: map<string, Use>)
    requires Orderly(conversations, held, sequence, uses)
    ensures "" !in conversations && uses.Keys == conversations.Keys && |uses| == |conversations|
  {
    assert |uses| == |uses.Keys| && |conversations| == |conversations.Keys|;
  }

  lemma EvictingNone(before: map<string, Use>, maximum: nat)
    ensures Evicting(before, before, maximum)
  {
  }

  lemma EvictingOne(before: map<string, Use>, now: map<string, Use>, id: string, maximum: nat)
    requires Evicting(before, now, maximum) && |now| > maximum && id in now && now[id].active == 0
    requires forall k :: k in now && now[k].active == 0 ==> now[id].lastUsed <= now[k].lastUsed
    ensures Evicting(before, now - {id}, maximum)
  {
    assert now.Keys == (now - {id}).Keys + {id};
  }

  lemma PinnedUsed(conversations: map<string, Conversation>, held: multiset<Conversation>, id: string, c: Conversation,
                   after: map<string, Conversation>, heldAfter: multiset<Conversation>)
    requires Pinned(conversations, held) && (id in conversations ==> conversations[id] == c)
    requires after == conversations[id := c] && forall d :: d in heldAfter ==> d == c || d in held
    ensures Pinned(after, heldAfter)
  {
    forall d | d in heldAfter
      ensures exists k :: k in after && after[k] == d
    {
      if d == c {
        assert after[id] == d;
      } else {
        var k :| k in conversations && conversations[k] == d;
        assert after[k] == d;
      }
    }
  }

  lemma InjectiveUsed(conversations: map<string, Conversation>, id: string, c: Conversation)
    requires Injective(conversations)
    requires if id in conversations then conversations[id] == c else forall k :: k in conversations ==>
               conversations[k] != c
    ensures Injective(conversations[id := c])
  {
  }

  lemma DistinctUsed(uses: map<string, Use>, id: string, sequence: nat, n: nat)
    requires DistinctUse(uses) && forall k :: k in uses ==> uses[k].lastUsed <= sequence
    ensures DistinctUse(uses[id := Use(n, sequence + 1)])
  {
  }

  /** Each conversation is as active as it is held, and was used by now. */
  ghost predicate Counted(conversations: map<string, Conversation>, held: multiset<Conversation>, sequence: nat,
                          uses: map<string, Use>)
  {
    uses.Keys == conversations.Keys
    && forall id :: id in conversations ==> uses[id].active == held[conversations[id]] && uses[id].lastUsed <= sequence
  }

  lemma CountedUsed(conversations: map<string, Conversation>, held: multiset<Conversation>, sequence: nat,
                    uses: map<string, Use>, id: string, c: Conversation, n: nat)
    requires Counted(conversations, held, sequence, uses)
    requires forall k :: k in conversations && k != id ==> conversations[k] != c
    ensures Counted(conversations[id := c], held[c := n], sequence + 1, uses[id := Use(n, sequence + 1)])
  {
  }

  /** A conversation, possibly a new one, is used now and held by n. */
  lemma OrderlyUsed(conversations: map<string, Conversation>, held: multiset<Conversation>, sequence: nat,
                    uses: map<string, Use>, id: string, c: Conversation, n: nat)
    requires Orderly(conversations, held, sequence, uses) && id != ""
    requires if id in conversations then conversations[id] == c else forall k :: k in conversations ==>
               conversations[k] != c
    ensures Orderly(conversations[id := c], held[c := n], sequence + 1, uses[id := Use(n, sequence + 1)])
  {
    var after, heldAfter := conversations[id := c], held[c := n];
    InjectiveUsed(conversations, id, c);
    PinnedUsed(conversations, held, id, c, after, heldAfter) by { assert forall d :: d in heldAfter ==>
      d == c || d in held; }
    hide Pinned;
    assert forall k :: k in conversations && k != id ==>
      conversations[k] != c by { OthersDiffer(conversations, id, c); }
    hide Injective;
    DistinctUsed(uses, id, sequence, n) by { assert Counted(conversations, held, sequence, uses); }
    hide DistinctUse;
    CountedUsed(conversations, held, sequence, uses, id, c, n);
  }

  lemma OthersDiffer(conversations: map<string, Conversation>, id: string, c: Conversation)
    requires Injective(conversations)
    requires if id in conversations then conversations[id] == c else forall k :: k in conversations ==>
               conversations[k] != c
    ensures forall k :: k in conversations && k != id ==> conversations[k] != c
  {
  }

  /** A conversation that is there already is used now and held by n. */
  lemma OrderlyHeld(conversations: map<string, Conversation>, held: multiset<Conversation>, sequence: nat,
                    uses: map<string, Use>, id: string, n: nat)
    requires Orderly(conversations, held, sequence, uses) && id in conversations
    ensures Orderly(conversations, held[conversations[id] := n], sequence + 1, uses[id := Use(n, sequence + 1)])
    ensures uses.Keys == conversations.Keys && uses[id].active == held[conversations[id]]
    ensures forall k :: k in conversations && k != id ==> conversations[k] != conversations[id]
  {
    OrderlyNames(conversations, held, sequence, uses);
    OrderlyUsed(conversations, held, sequence, uses, id, conversations[id], n);
    assert conversations[id := conversations[id]] == conversations;
  }

  /** A new conversation is used now and held once. */
  lemma OrderlyNew(conversations: map<string, Conversation>, held: multiset<Conversation>, sequence: nat,
                   uses: map<string, Use>, id: string, c: Conversation)
    requires Orderly(conversations, held, sequence, uses) && id != "" && id !in conversations
    requires forall k :: k in conversations ==> conversations[k] != c
    ensures Orderly(conversations[id := c], held[c := 1], sequence + 1, uses[id := Use(1, sequence + 1)])
    ensures uses.Keys == conversations.Keys && held[c] == 0
  {
    OrderlyUsed(conversations, held, sequence, uses, id, c, 1);
    assert c !in held;
  }

  /** What is held stays where it was. */
  lemma HeldStays(before: map<string, Conversation>, after: map<string, Conversation>, held: multiset<Conversation>,
                  sequence: nat, usesBefore: map<string, Use>, usesAfter: map<string, Use>, id: string)
    requires Orderly(before, held, sequence, usesBefore) && Orderly(after, held, sequence, usesAfter)
    requires after.Keys <= before.Keys && (forall k :: k in after ==> after[k] == before[k])
    requires id in before && before[id] in held
    ensures id in after
  {
    var k :| k in after && after[k] == before[id];
  }

  lemma HeldActive(conversations: map<string, Conversation>, held: multiset<Conversation>, sequence: nat,
                   uses: map<string, Use>, id: string)
    requires Orderly(conversations, held, sequence, uses) && id in conversations
    ensures uses.Keys == conversations.Keys && uses[id].active == held[conversations[id]]
  {
  }

  /** From a settled cache, taking hold of a conversation that is there evicts none. */
  lemma NoneEvicted(before: map<string, Use>, after: map<string, Use>, id: string, use: Use, maximum: nat)
    requires id in before && use.active > 0
    requires |before| <= maximum || forall k :: k in before ==> before[k].active > 0
    requires Evicted(before[id := use], after, maximum)
    ensures after == before[id := use]
  {
    var used := before[id := use];
    assert used.Keys == before.Keys;
    SmallerMap(before, before);
    if after.Keys == used.Keys {
      assert after == used;
    } else if |before| <= maximum {
      SmallerMap(after, used);
      assert |used| == |used.Keys| == |before.Keys| == |before|;
    }
  }

  lemma UsedTwice(before: map<string, Use>, between: map<string, Use>, after: map<string, Use>, id: string, use: Use,
                  last: Use, maximum: nat)
    requires id in before && use.active > 0
    requires |before| <= maximum || forall k :: k in before ==> before[k].active > 0
    requires Evicted(before[id := use], between, maximum) && Evicted(between[id := last], after, maximum)
    ensures Evicted(before[id := last], after, maximum)
  {
    hide Evicted;
    NoneEvicted(before, between, id, use, maximum);
    assert between[id := last] == before[id := last];
  }

  class ConversationRegistry {
    const maxTurns: nat
    const maxConversations: nat
    var sequence: nat
    var conversations: map<string, Conversation>
    ghost var held: multiset<Conversation>  // what has been acquired and not yet released
    ghost var uses: map<string, Use>

    constructor (maxTurns: nat, maxConversations: nat)
      requires maxTurns > 0
      ensures Settled() && conversations == map[] && uses == map[] && held == multiset{}
      ensures this.maxTurns == maxTurns && this.maxConversations == maxConversations
    {
      this.maxTurns, this.maxConversations := maxTurns, maxConversations;
      sequence, conversations, held, uses := 0, map[], multiset{}, map[];
    }

    ghost predicate Valid()
      reads this, conversations.Values
    {
      && Orderly(conversations, held, sequence, uses)
      && forall id :: id in conversations ==> uses[id] == Use(conversations[id].active, conversations[id].lastUsed)
    }

    /** What holds whenever the registry lock is free: there are not too many conversations, or all are active. */
    ghost predicate Settled()
      reads this, conversations.Values
    {
      && Valid()
      && (|conversations| <= maxConversations || forall id :: id in conversations ==> conversations[id].active > 0)
    }

    /** The scan of evictInactiveLocked, in whatever order the map is read; "" stands for nothing found. */
    method LeastRecentlyUsed() returns (oldest: string)
      requires "" !in conversations
      ensures oldest == "" ==> forall id :: id in conversations ==> conversations[id].active != 0
      ensures oldest != "" ==>
                && oldest in conversations && conversations[oldest].active == 0
                && forall id :: id in conversations && conversations[id].active == 0 ==>
                     conversations[oldest].lastUsed <= conversations[id].lastUsed
    {
      oldest := "";
      var oldestSequence := 0;
      var rest := conversations.Keys;
      while rest != {}
        invariant rest <= conversations.Keys
        invariant oldest == "" ==> forall id :: id in conversations && id !in rest ==> conversations[id].active != 0
        invariant oldest != "" ==>
                    && oldest in conversations && conversations[oldest].active == 0
                    && oldestSequence == conversations[oldest].lastUsed
                    && forall id :: id in conversations && id !in rest && conversations[id].active == 0 ==>
                         oldestSequence <= conversations[id].lastUsed
      {
        var id :| id in rest;
        rest := rest - {id};
        if conversations[id].active == 0 {
          if oldest == "" || conversations[id].lastUsed < oldestSequence {
            oldest, oldestSequence := id, conversations[id].lastUsed;
          }
        }
      }
    }

    /** Deletes the entry of an inactive conversation. */
    method Drop(id: string)
      requires Valid() && id in conversations && conversations[id].active == 0
      modifies this`conversations, this`uses
      ensures Valid() && conversations == old(conversations) - {id} && uses == old(uses) - {id}
    {
      hide Orderly;
      OrderlyNames(conversations, held, sequence, uses);
      OrderlyWithout(conversations, held, sequence, uses, id);
      conversations, uses := conversations - {id}, uses - {id};
    }

    method EvictInactive()
      requires Valid()
      modifies this`conversations, this`uses
      ensures Settled() && Evicted(old(uses), uses, maxConversations)
      ensures conversations.Keys <= old(conversations.Keys)
      ensures forall id :: id in conversations ==> conversations[id] == old(conversations)[id]
    {
      hide Orderly, Evicting;
      EvictingNone(uses, maxConversations);
      OrderlyNames(conversations, held, sequence, uses);
      while |conversations| > maxConversations
        invariant Valid() && Evicting(old(uses), uses, maxConversations)
        invariant "" !in conversations && uses.Keys == conversations.Keys && |uses| == |conversations|
        invariant conversations.Keys <= old(conversations.Keys)
        invariant forall id :: id in conversations ==> conversations[id] == old(conversations)[id]
        decreases |conversations|
      {
        var oldest := LeastRecentlyUsed();
        if oldest == "" {
          return;
        }
        EvictingOne(old(uses), uses, oldest, maxConversations);
        Smaller(conversations, oldest);
        Drop(oldest);
        OrderlyNames(conversations, held, sequence, uses);
      }
    }

    /** touchLocked. */
    method Touch(c: Conversation)
      modifies this`sequence, c`lastUsed
      ensures sequence == c.lastUsed == old(sequence) + 1
    {
      sequence := sequence + 1;
      c.lastUsed := sequence;
    }

    /** Under the lock, a conversation is held once more or once less, and used now. */
    method Hold(ghost id: string, c: Conversation, more: bool)
      requires Valid() && id in conversations && conversations[id] == c && (more || c in held)
      modifies this`sequence, this`held, this`uses, c`active, c`lastUsed
      ensures Valid() && held == old(held)[c := if more then old(held)[c] + 1 else old(held)[c] - 1]
      ensures uses == old(uses)[id := Use(held[c], sequence)]
    {
      hide Orderly;
      ghost var n := if more then held[c] + 1 else held[c] - 1;
      OrderlyHeld(conversations, held, sequence, uses, id, n);
      c.active := if more then c.active + 1 else c.active - 1;
      Touch(c);
      held, uses := held[c := n], uses[id := Use(n, sequence)];
    }

    /** A new conversation, held once. */
    method Insert(id: string) returns (c: Conversation)
      requires Valid() && id != "" && id !in conversations
      modifies this`sequence, this`conversations, this`held, this`uses
      ensures Valid() && fresh(c) && fresh(c.turns) && c.Valid() && c.log == []
      ensures conversations == old(conversations)[id := c] && held == old(held)[c := 1] && old(held)[c] == 0
      ensures uses == old(uses)[id := Use(1, sequence)]
    {
      hide Orderly;
      c := new Conversation();
      OrderlyNew(conversations, held, sequence, uses, id, c);
      conversations := conversations[id := c];
      c.active := c.active + 1;
      Touch(c);
      held, uses := held[c := 1], uses[id := Use(1, sequence)];
    }

    /**
     The critical section of acquireConversationState: an ID that is not there is made if create says so. The
     conversation is held from here until its release, and meanwhile stays the one that the ID leads to.
     */
    method Acquire(id: string, create: bool) returns (c: Conversation?)
      requires Settled() && id != ""
      modifies this`sequence, this`conversations, this`held, this`uses
      modifies (if id in conversations then {conversations[id]} else {})`active
      modifies (if id in conversations then {conversations[id]} else {})`lastUsed
      ensures Settled() && (c == null <==> id !in old(conversations) && !create)
      ensures c == null ==> unchanged(this)
      ensures c != null ==>
                && id in conversations && conversations[id] == c
                && (if id in old(conversations) then c == old(conversations)[id]
                    else fresh(c) && fresh(c.turns) && c.Valid() && c.log == [])
                && held == old(held)[c := old(held)[c] + 1]
                && Evicted(old(uses)[id := Use(held[c], sequence)], uses, maxConversations)
      ensures forall k :: k in conversations && k != id ==>
                k in old(conversations) && conversations[k] == old(conversations)[k]
    {
      hide Orderly, Evicted;
      if id in conversations {
        c := conversations[id];
        Hold(id, c, true);
      } else if create {
        c := Insert(id);
      } else {
        return null;
      }
      EvictWhileHeld(id);
    }

    /** The messages of a conversation, if there is one; it counts as a use. */
    method Snapshot(id: string) returns (messages: seq<Message>)
      requires Settled() && id != "" && (id in conversations ==> conversations[id].Valid())
      modifies this`sequence, this`conversations, this`held, this`uses
      modifies (if id in conversations then {conversations[id]} else {})`active
      modifies (if id in conversations then {conversations[id]} else {})`lastUsed
      ensures Settled() && held == old(held)
      ensures id in old(conversations) ==>
                Evicted(old(uses)[id := Use(old(uses[id].active), sequence)], uses, maxConversations)
      ensures messages == if id in old(conversations) then Flatten(old(conversations[id].Window())) else []
      ensures id !in old(conversations) ==> unchanged(this)
      ensures forall k :: k in conversations ==> k in old(conversations) && conversations[k] == old(conversations)[k]
    {
      hide Orderly, Evicted, Flatten;
      ghost var before := uses;
      if id in conversations {
        HeldActive(conversations, held, sequence, uses, id);
      }
      var c := Acquire(id, false);
      if c == null {
        return [];
      }
      ghost var between, use := uses, Use(held[c], sequence);
      messages := c.Messages();
      Release(id, c);
      UsedTwice(before, between, uses, id, use, Use(held[c], sequence), maxConversations);
    }

    /** Eviction leaves a conversation that is held. */
    method EvictWhileHeld(ghost id: string)
      requires Valid() && id in conversations && conversations[id] in held
      modifies this`conversations, this`uses
      ensures Settled() && Evicted(old(uses), uses, maxConversations) && id in conversations
      ensures conversations.Keys <= old(conversations.Keys)
      ensures forall k :: k in conversations ==> conversations[k] == old(conversations)[k]
    {
      hide Orderly, Evicted;
      EvictInactive();
      HeldStays(old(conversations), conversations, held, sequence, old(uses), uses, id);
    }

    /** The closure that acquireConversationState returns, after it has unlocked the conversation. */
    method Release(ghost id: string, c: Conversation)
      requires Settled() && id in conversations && conversations[id] == c && c in held
      modifies this`sequence, this`conversations, this`held, this`uses, c`active, c`lastUsed
      ensures Settled() && held == old(held)[c := old(held)[c] - 1]
      ensures Evicted(old(uses)[id := Use(held[c], sequence)], uses, maxConversations)
      ensures forall k :: k in conversations ==> k in old(conversations) && conversations[k] == old(conversations)[k]
    {
      hide Orderly, Evicted;
      Hold(id, c, false);
      EvictInactive();
    }
  }

  lemma Smaller(conversations: map<string, Conversation>, id: string)
    requires id in conversations
    ensures |conversations - {id}| < |conversations|
  {
    assert conversations.Keys == (conversations - {id}).Keys + {id};
  }
}
