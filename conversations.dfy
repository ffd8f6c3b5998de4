/** The conversation list: `loadConversations` groups the newest-first
    messages of the user into one entry per other participant. The source's
    `Map` keeps keys in insertion order, so it is modelled as the sequence
    of its entries in that order. */
module Conversations {
  import opened Rows
  import opened TimeBuckets

  /** One entry of the list: the other user's profile, the text of the
      kept message and its time bucket. (The simulated online flag is
      random and not modelled.) */
  datatype Conversation = Conversation(user: Profile, lastMessage: string, time: TimeBucket)

  /** The key of a message: the receiver when the user sent it, otherwise
      the sender. */
  function OtherId(me: UserId, m: Message): UserId
  {
    OtherParty(me, m.sender.id, m.receiver.id)
  }

  /** The joined profile of that participant. */
  function OtherProfile(me: UserId, m: Message): (p: Profile)
    ensures p.id == OtherId(me, m)
    ensures p == m.sender || p == m.receiver
    ensures m.sender.id == me ==> p == m.receiver
  {
    if m.sender.id == me then m.receiver else m.sender
  }

  /** The entry a message creates when its participant is new. */
  function Entry(me: UserId, m: Message, now: int): (c: Conversation)
    ensures c.user.id == OtherId(me, m)
    ensures c.lastMessage == m.content
    ensures c.time == FormatTime(m.createdAt, now)
  {
    Conversation(OtherProfile(me, m), m.content, FormatTime(m.createdAt, now))
  }

  /** `conversationsMap.has(id)`. */
  predicate HasKey(cs: seq<Conversation>, id: UserId)
  {
    exists k :: 0 <= k < |cs| && cs[k].user.id == id
  }

  /** The map after the `forEach` has visited `msgs`: a message whose
      participant already has an entry is skipped, any other appends one. */
  function Group(me: UserId, msgs: seq<Message>, now: int): (g: seq<Conversation>)
    ensures |g| <= |msgs|
    decreases |msgs|
  {
    if msgs == [] then []
    else
      var acc := Group(me, msgs[..|msgs| - 1], now);
      var m := msgs[|msgs| - 1];
      if HasKey(acc, OtherId(me, m)) then acc else acc + [Entry(me, m, now)]
  }

  /** The position of the first message with participant `id`, or |msgs|
      when there is none. */
  function First(me: UserId, msgs: seq<Message>, id: UserId): (r: nat)
    ensures r <= |msgs|
    ensures r < |msgs| ==> OtherId(me, msgs[r]) == id
    ensures forall j :: 0 <= j < r ==> OtherId(me, msgs[j]) != id
    decreases |msgs|
  {
    if msgs == [] then 0
    else
      var p := msgs[..|msgs| - 1];
      var f := First(me, p, id);
      assert forall j :: 0 <= j < |p| ==> msgs[j] == p[j];
      if f < |p| then f
      else if OtherId(me, msgs[|msgs| - 1]) == id then |p|
      else |msgs|
  }

  /** A participant that occurs before the last message keeps its first
      position when the last message is taken into account. */
  lemma FirstOfExtension(me: UserId, msgs: seq<Message>, id: UserId)
    requires msgs != []
    requires First(me, msgs[..|msgs| - 1], id) < |msgs| - 1
    ensures First(me, msgs, id) == First(me, msgs[..|msgs| - 1], id)
  {
  }

  /** At most one entry per participant. */
  lemma {:induction false} GroupKeysDistinct(me: UserId, msgs: seq<Message>, now: int)
    ensures forall i, j :: 0 <= i < j < |Group(me, msgs, now)| ==>
              Group(me, msgs, now)[i].user.id != Group(me, msgs, now)[j].user.id
    decreases |msgs|
  {
    if msgs != [] {
      var p := msgs[..|msgs| - 1];
      var m := msgs[|msgs| - 1];
      GroupKeysDistinct(me, p, now);
      var acc := Group(me, p, now);
      if !HasKey(acc, OtherId(me, m)) {
        assert forall k :: 0 <= k < |acc| ==> acc[k].user.id != Entry(me, m, now).user.id;
      }
    }
  }

  /** Every participant of the input has an entry. */
  lemma {:induction false} GroupCoversAll(me: UserId, msgs: seq<Message>, now: int)
    ensures forall i :: 0 <= i < |msgs| ==> HasKey(Group(me, msgs, now), OtherId(me, msgs[i]))
    decreases |msgs|
  {
    if msgs != [] {
      var p := msgs[..|msgs| - 1];
      GroupCoversAll(me, p, now);
      var acc, g := Group(me, p, now), Group(me, msgs, now);
      forall i | 0 <= i < |msgs| ensures HasKey(g, OtherId(me, msgs[i])) {
        if i < |p| {
          assert msgs[i] == p[i];
          var k :| 0 <= k < |acc| && acc[k].user.id == OtherId(me, p[i]);
          assert g[k] == acc[k];
        } else if !HasKey(acc, OtherId(me, msgs[i])) {
          assert g[|acc|].user.id == OtherId(me, msgs[i]);
        }
      }
    }
  }

  /** `c` is the entry of the first message of its participant. */
  predicate FromFirstMessage(me: UserId, msgs: seq<Message>, now: int, c: Conversation)
  {
    First(me, msgs, c.user.id) < |msgs| && c == Entry(me, msgs[First(me, msgs, c.user.id)], now)
  }

  /** Each entry is built from the first message of its participant, which
      is the newest one when the input is newest-first. */
  lemma {:induction false} GroupKeepsFirst(me: UserId, msgs: seq<Message>, now: int)
    ensures forall k :: 0 <= k < |Group(me, msgs, now)| ==>
              FromFirstMessage(me, msgs, now, Group(me, msgs, now)[k])
    decreases |msgs|
  {
    if msgs != [] {
      var p := msgs[..|msgs| - 1];
      var m := msgs[|msgs| - 1];
      GroupKeepsFirst(me, p, now);
      GroupCoversAll(me, p, now);
      var acc, g := Group(me, p, now), Group(me, msgs, now);
      assert g == if HasKey(acc, OtherId(me, m)) then acc else acc + [Entry(me, m, now)];
      forall k | 0 <= k < |g| ensures FromFirstMessage(me, msgs, now, g[k]) {
        var id := g[k].user.id;
        if k < |acc| {
          assert g[k] == acc[k] && FromFirstMessage(me, p, now, acc[k]);
          FirstOfExtension(me, msgs, id);
          assert msgs[First(me, p, id)] == p[First(me, p, id)];
        } else {
          assert g[k] == Entry(me, m, now) && !HasKey(acc, id);
          assert First(me, msgs, id) == |p|;
        }
      }
    }
  }

  /** Messages listed from the newest to the oldest, as the query orders them. */
  predicate NewestFirst(msgs: seq<Message>)
  {
    forall i, j :: 0 <= i < j < |msgs| ==> msgs[i].createdAt >= msgs[j].createdAt
  }

  /** On newest-first input, each entry's message is the newest one
      exchanged with its participant. */
  lemma GroupKeepsNewest(me: UserId, msgs: seq<Message>, now: int)
    requires NewestFirst(msgs)
    ensures forall k, i :: 0 <= k < |Group(me, msgs, now)| && 0 <= i < |msgs| &&
                           OtherId(me, msgs[i]) == Group(me, msgs, now)[k].user.id ==>
              msgs[First(me, msgs, Group(me, msgs, now)[k].user.id)].createdAt >= msgs[i].createdAt
  {
    GroupKeepsFirst(me, msgs, now);
    var g := Group(me, msgs, now);
    forall k, i | 0 <= k < |g| && 0 <= i < |msgs| && OtherId(me, msgs[i]) == g[k].user.id
      ensures msgs[First(me, msgs, g[k].user.id)].createdAt >= msgs[i].createdAt
    {
      assert FromFirstMessage(me, msgs, now, g[k]);
      assert First(me, msgs, g[k].user.id) <= i;
    }
  }

  /** Entries appear in the order in which their participants first occur. */
  lemma {:induction false} GroupInFirstOccurrenceOrder(me: UserId, msgs: seq<Message>, now: int)
    ensures forall k, l :: 0 <= k < l < |Group(me, msgs, now)| ==>
              First(me, msgs, Group(me, msgs, now)[k].user.id) < First(me, msgs, Group(me, msgs, now)[l].user.id)
    decreases |msgs|
  {
    if msgs != [] {
      var p := msgs[..|msgs| - 1];
      GroupInFirstOccurrenceOrder(me, p, now);
      GroupKeepsFirst(me, p, now);
      GroupCoversAll(me, p, now);
      var m := msgs[|msgs| - 1];
      var acc, g := Group(me, p, now), Group(me, msgs, now);
      assert g == if HasKey(acc, OtherId(me, m)) then acc else acc + [Entry(me, m, now)];
      forall k, l | 0 <= k < l < |g|
        ensures First(me, msgs, g[k].user.id) < First(me, msgs, g[l].user.id)
      {
        assert g[k] == acc[k] && FromFirstMessage(me, p, now, acc[k]);
        FirstOfExtension(me, msgs, acc[k].user.id);
        if l < |acc| {
          assert g[l] == acc[l] && FromFirstMessage(me, p, now, acc[l]);
          FirstOfExtension(me, msgs, acc[l].user.id);
        } else {
          assert g[l] == Entry(me, m, now) && !HasKey(acc, g[l].user.id);
          assert First(me, msgs, g[l].user.id) == |p|;
        }
      }
    }
  }

  /** `loadConversations`: the message query's rows (`None` when the query
      fails, and then the previous list stays) are grouped by a loop that
      fills the insertion-ordered map. */
  method LoadConversations(me: UserId, now: int, fetched: Option<seq<Message>>, previous: seq<Conversation>)
    returns (conversations: seq<Conversation>)
    ensures fetched.None? ==> conversations == previous
    ensures fetched.Some? ==> conversations == Group(me, fetched.value, now)
    ensures fetched.Some? ==>
              && (forall i, j :: 0 <= i < j < |conversations| ==>
                    conversations[i].user.id != conversations[j].user.id)
              && (forall i :: 0 <= i < |fetched.value| ==>
                    HasKey(conversations, OtherId(me, fetched.value[i])))
  {
    if fetched.None? {
      return previous;
    }
    var msgs := fetched.value;
    var entries: seq<Conversation> := [];
    var i := 0;
    while i < |msgs|
      invariant 0 <= i <= |msgs|
      invariant entries == Group(me, msgs[..i], now)
    {
      var msg := msgs[i];
      var otherUserId := OtherId(me, msg);
      if !HasKey(entries, otherUserId) {
        entries := entries + [Entry(me, msg, now)];
      }
      assert msgs[..i + 1][..i] == msgs[..i];
      i := i + 1;
    }
    assert msgs[..|msgs|] == msgs;
    GroupKeysDistinct(me, msgs, now);
    GroupCoversAll(me, msgs, now);
    conversations := entries;
  }
}
