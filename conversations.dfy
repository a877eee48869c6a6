/**
 * Conversation records and the registry that correlates a recipient number
 * with the single conversation both the outbound and the inbound path use.
 */
module Conversations {
  import opened Wrappers

  /** The two directions the program writes into a transcript. */
  const SENT := "Enviado"
  const RECEIVED := "Recibido"

  /** One transcript entry `{direction, content}`. */
  datatype Message = Message(direction: string, content: string)

  /**
   * A thread with one recipient number: the header fixed at creation and the
   * transcript, which only ever grows at its end.
   */
  datatype Conversation = Conversation(
    id: int, clientIndex: int, clientNumber: string, recipientNumber: string, messages: seq<Message>)

  /** `new Conversation(id, clientIndex, clientNumber, recipientNumber)`: the given header, no messages yet. */
  function NewConversation(id: int, clientIndex: int, clientNumber: string, recipientNumber: string): (c: Conversation)
    ensures c.id == id && c.clientIndex == clientIndex
    ensures c.clientNumber == clientNumber && c.recipientNumber == recipientNumber
    ensures c.messages == []
  {
    Conversation(id, clientIndex, clientNumber, recipientNumber, [])
  }

  /** `addMessage(direction, content)`: exactly one entry at the end; the header and earlier entries stay as they were. */
  function AddMessage(c: Conversation, direction: string, content: string): (r: Conversation)
    ensures r.id == c.id && r.clientIndex == c.clientIndex
    ensures r.clientNumber == c.clientNumber && r.recipientNumber == c.recipientNumber
    ensures |r.messages| == |c.messages| + 1 && r.messages[..|c.messages|] == c.messages
    ensures r.messages[|c.messages|] == Message(direction, content)
  {
    c.(messages := c.messages + [Message(direction, content)])
  }

  /** The transcript map `transcripts` after `m` is appended to `number`'s transcript (a missing one counts as empty). */
  function Appended(transcripts: map<string, seq<Message>>, number: string, m: Message): (r: map<string, seq<Message>>)
    ensures r.Keys == transcripts.Keys + {number}
    ensures forall k :: k in transcripts && k != number ==> r[k] == transcripts[k]
  {
    transcripts[number := (if number in transcripts then transcripts[number] else []) + [m]]
  }

  /** `Array.prototype.find`: the first conversation whose id is `id`. */
  function Find(cs: seq<Conversation>, id: int): (r: Option<Conversation>)
    ensures r.Some? ==> r.value in cs && r.value.id == id
    ensures r.None? <==> forall i :: 0 <= i < |cs| ==> cs[i].id != id
  {
    if cs == [] then None
    else if cs[0].id == id then Some(cs[0])
    else Find(cs[1..], id)
  }

  /** One id's contribution to a lookup: the record found for it, or nothing. */
  function Hit(cs: seq<Conversation>, id: int): (r: seq<Conversation>)
    ensures |r| <= 1
    ensures forall k :: 0 <= k < |r| ==> r[k] in cs && r[k].id == id
  {
    match Find(cs, id) case Some(c) => [c] case None => []
  }

  /** `ids.map(id => find(id)).filter(c => c)`: one lookup per id, in the order of `ids`, misses dropped. */
  function LookupMany(cs: seq<Conversation>, ids: seq<int>): (r: seq<Conversation>)
    ensures |r| <= |ids|
    ensures forall k :: 0 <= k < |r| ==> r[k] in cs && r[k].id in ids
  {
    if ids == [] then [] else Hit(cs, ids[0]) + LookupMany(cs, ids[1..])
  }

  /** Sequence concatenation is associative; stated once so that proofs need not redo the extensional argument. */
  lemma Regroup<T>(a: seq<T>, b: seq<T>, c: seq<T>)
    ensures (a + b) + c == a + (b + c)
  {
  }

  /** Looking up a concatenation of id lists concatenates the two lookups: the output follows the order of the ids. */
  lemma {:induction false} LookupManyConcat(cs: seq<Conversation>, a: seq<int>, b: seq<int>)
    ensures LookupMany(cs, a + b) == LookupMany(cs, a) + LookupMany(cs, b)
  {
    if a == [] {
      assert a + b == b;
    } else {
      assert (a + b)[0] == a[0] && (a + b)[1..] == a[1..] + b;
      LookupManyConcat(cs, a[1..], b);
      Regroup(Hit(cs, a[0]), LookupMany(cs, a[1..]), LookupMany(cs, b));
    }
  }

  /** The lookup is empty exactly when no id is found. */
  lemma {:induction false} LookupManyEmpty(cs: seq<Conversation>, ids: seq<int>)
    ensures LookupMany(cs, ids) == [] <==> forall i :: 0 <= i < |ids| ==> Find(cs, ids[i]).None?
  {
    if ids != [] {
      LookupManyEmpty(cs, ids[1..]);
      assert forall i :: 1 <= i < |ids| ==> ids[1..][i - 1] == ids[i];
    }
  }

  /** In a list whose ids are consecutive from `base`, `find` hits exactly the ids in range, at their position. */
  lemma {:induction false} FindNumbered(cs: seq<Conversation>, base: int, id: int)
    requires forall i :: 0 <= i < |cs| ==> cs[i].id == base + i
    ensures Find(cs, id) == if base <= id < base + |cs| then Some(cs[id - base]) else None
  {
    if cs != [] && cs[0].id != id {
      FindNumbered(cs[1..], base + 1, id);
    }
  }

  /**
   * The registry invariant on plain values: `order` lists each key of `conversations` once, the
   * record created i-th (0-based) has id i + 1 and is keyed by its own number, and `counter`
   * is the next id.
   */
  ghost predicate Numbered(conversations: map<string, Conversation>, order: seq<string>, counter: int) {
    && counter == |order| + 1
    && |conversations| == |order|
    && (forall i :: 0 <= i < |order| ==> order[i] in conversations && conversations[order[i]].id == i + 1)
    && (forall k :: k in conversations ==>
          && conversations[k].recipientNumber == k
          && 1 <= conversations[k].id <= |order|
          && order[conversations[k].id - 1] == k)
  }

  /** Under the invariant a number is registered exactly when it is in the insertion order. */
  lemma NumberedKeys(conversations: map<string, Conversation>, order: seq<string>, counter: int, number: string)
    requires Numbered(conversations, order, counter)
    ensures number in conversations <==> number in order
  {
    if number in conversations {
      assert order[conversations[number].id - 1] == number;
    }
  }

  /** Replacing a record by one with the same id and number keeps the invariant. */
  lemma UpdateKeepsNumbered(conversations: map<string, Conversation>, order: seq<string>, counter: int, number: string, c: Conversation)
    requires Numbered(conversations, order, counter) && number in conversations
    requires c.id == conversations[number].id && c.recipientNumber == number
    ensures Numbered(conversations[number := c], order, counter)
    ensures conversations[number := c].Keys == conversations.Keys
  {
    var m := conversations[number := c];
    assert m.Keys == conversations.Keys;
    assert |m| == |m.Keys| == |conversations.Keys|;
  }

  /** Inserting a new number with id `counter` at the end of the order keeps the invariant. */
  lemma InsertKeepsNumbered(conversations: map<string, Conversation>, order: seq<string>, counter: int, number: string, c: Conversation)
    requires Numbered(conversations, order, counter)
    requires number !in conversations && c.id == counter && c.recipientNumber == number
    ensures Numbered(conversations[number := c], order + [number], counter + 1)
  {
    var m, o := conversations[number := c], order + [number];
    assert |m| == |conversations| + 1 == |o|;
    forall i | 0 <= i < |o| ensures o[i] in m && m[o[i]].id == i + 1 {
      if i < |order| {
        assert o[i] == order[i] && order[i] != number;
      }
    }
    forall k | k in m ensures m[k].recipientNumber == k && 1 <= m[k].id <= |o| && o[m[k].id - 1] == k {
      if k != number {
        assert m[k] == conversations[k];
      }
    }
  }

  /** The transcript of every registered number. */
  function TranscriptsOf(conversations: map<string, Conversation>): (t: map<string, seq<Message>>)
    ensures t.Keys == conversations.Keys
    ensures forall k :: k in conversations ==> t[k] == conversations[k].messages
  {
    map k | k in conversations :: conversations[k].messages
  }

  /** Replacing one record changes the transcripts at that number only. */
  lemma TranscriptsOfUpdate(conversations: map<string, Conversation>, number: string, c: Conversation)
    ensures TranscriptsOf(conversations[number := c]) == TranscriptsOf(conversations)[number := c.messages]
  {
    var l, r := TranscriptsOf(conversations[number := c]), TranscriptsOf(conversations)[number := c.messages];
    assert l.Keys == r.Keys;
    forall k | k in l ensures l[k] == r[k] {
    }
  }

  /** Every conversation belongs to one of the first `n` clients. */
  ghost predicate ClientsWithin(conversations: map<string, Conversation>, n: int) {
    forall k :: k in conversations ==> 0 <= conversations[k].clientIndex < n
  }

  /** The registry map after a get-or-create of `number` when the next id is `counter`. */
  function Admit(conversations: map<string, Conversation>, counter: int, number: string, clientIndex: int, clientNumber: string): (r: map<string, Conversation>)
    ensures number in r
  {
    if number in conversations then conversations
    else conversations[number := NewConversation(counter, clientIndex, clientNumber, number)]
  }

  /** The registry map after a get-or-create of `number` and one `addMessage` on the record it yields. */
  function Recorded(conversations: map<string, Conversation>, counter: int, number: string, clientIndex: int, clientNumber: string, m: Message): map<string, Conversation> {
    var admitted := Admit(conversations, counter, number, clientIndex, clientNumber);
    admitted[number := AddMessage(admitted[number], m.direction, m.content)]
  }

  /** Recording `m` for `number` appends `m` to that number's transcript (a new number starts empty) and to no other. */
  lemma RecordedTranscripts(conversations: map<string, Conversation>, counter: int, number: string, clientIndex: int, clientNumber: string, m: Message)
    ensures TranscriptsOf(Recorded(conversations, counter, number, clientIndex, clientNumber, m)) == Appended(TranscriptsOf(conversations), number, m)
  {
    var admitted := Admit(conversations, counter, number, clientIndex, clientNumber);
    TranscriptsOfUpdate(admitted, number, AddMessage(admitted[number], m.direction, m.content));
    if number !in conversations {
      TranscriptsOfUpdate(conversations, number, NewConversation(counter, clientIndex, clientNumber, number));
    }
  }

  /** Recording through client `clientIndex` keeps every conversation with one of the first `n` clients once that client is one of them. */
  lemma RecordedClients(conversations: map<string, Conversation>, counter: int, number: string, clientIndex: int, clientNumber: string, m: Message, n: int)
    requires ClientsWithin(conversations, n) && 0 <= clientIndex < n
    ensures ClientsWithin(Recorded(conversations, counter, number, clientIndex, clientNumber, m), n)
  {
  }

  /** Appending a message to a registered conversation leaves its client, and every other record, as it was. */
  lemma AddedClients(conversations: map<string, Conversation>, number: string, direction: string, content: string, n: int)
    requires ClientsWithin(conversations, n) && number in conversations
    ensures ClientsWithin(conversations[number := AddMessage(conversations[number], direction, content)], n)
  {
  }

  /** The fixed part of a record: everything but its messages. */
  function Header(c: Conversation): (int, int, string, string) {
    (c.id, c.clientIndex, c.clientNumber, c.recipientNumber)
  }

  /** Every record of `before` is still registered in `after` with the same header; only messages may have grown. */
  ghost predicate HeadersKept(before: map<string, Conversation>, after: map<string, Conversation>) {
    forall k :: k in before ==> k in after && Header(after[k]) == Header(before[k])
  }

  /** Every record of `after` that `before` did not have was created for client `clientIndex`, whose own number is `clientNumber`. */
  ghost predicate NewOwnedBy(before: map<string, Conversation>, after: map<string, Conversation>, clientIndex: int, clientNumber: string) {
    forall k :: k in after && k !in before ==> after[k].clientIndex == clientIndex && after[k].clientNumber == clientNumber
  }

  /** Changing nothing keeps every header. */
  lemma HeadersKeptSame(conversations: map<string, Conversation>)
    ensures HeadersKept(conversations, conversations)
  {
  }

  /** Appending to a registered record changes no header. */
  lemma AddedHeaders(conversations: map<string, Conversation>, number: string, direction: string, content: string)
    requires number in conversations
    ensures HeadersKept(conversations, conversations[number := AddMessage(conversations[number], direction, content)])
  {
  }

  /** A get-or-create and an append change no existing header, and a created record belongs to the client that created it. */
  lemma RecordedHeaders(conversations: map<string, Conversation>, counter: int, number: string, clientIndex: int, clientNumber: string, m: Message)
    ensures var after := Recorded(conversations, counter, number, clientIndex, clientNumber, m);
      HeadersKept(conversations, after) && NewOwnedBy(conversations, after, clientIndex, clientNumber)
  {
  }

  /** A step that keeps every header and the number of records keeps the key set. */
  lemma HeadersKeptKeys(before: map<string, Conversation>, after: map<string, Conversation>)
    requires HeadersKept(before, after) && |before| == |after|
    ensures before.Keys == after.Keys
  {
    assert after.Keys == before.Keys + (after.Keys - before.Keys);
  }

  /** Keeping headers composes along a sequence of steps, and so does creating records for one client only. */
  lemma HeadersCompose(a: map<string, Conversation>, b: map<string, Conversation>, c: map<string, Conversation>, clientIndex: int, clientNumber: string)
    requires HeadersKept(a, b) && HeadersKept(b, c)
    ensures HeadersKept(a, c)
    ensures NewOwnedBy(a, b, clientIndex, clientNumber) && NewOwnedBy(b, c, clientIndex, clientNumber) ==> NewOwnedBy(a, c, clientIndex, clientNumber)
  {
    if NewOwnedBy(a, b, clientIndex, clientNumber) && NewOwnedBy(b, c, clientIndex, clientNumber) {
      forall k | k in c && k !in a ensures c[k].clientIndex == clientIndex && c[k].clientNumber == clientNumber {
        if k in b {
          assert Header(c[k]) == Header(b[k]);
        }
      }
    }
  }

  /**
   * The conversation registry: a map keyed by the bare recipient number,
   * the map's insertion order, and the running id counter.
   */
  class ConversationManager {
    var conversations: map<string, Conversation>
    var order: seq<string>
    var counter: int

    /** One record per number, ids 1..size in creation order, and `counter == size + 1`. */
    ghost predicate Valid()
      reads this
    {
      Numbered(conversations, order, counter)
    }

    /** Every conversation belongs to one of the first `n` clients. */
    ghost predicate ClientsBelow(n: int)
      reads this
    {
      ClientsWithin(conversations, n)
    }

    /** The transcript of every registered number. */
    ghost function Transcripts(): map<string, seq<Message>>
      reads this
    {
      TranscriptsOf(conversations)
    }

    /** A get-or-create of `number` happened: the order and the counter grow exactly when the number was new. */
    twostate predicate Counted(number: string)
      reads this
    {
      if number in old(conversations) then order == old(order) && counter == old(counter)
      else order == old(order) + [number] && counter == old(counter) + 1
    }

    constructor ()
      ensures Valid()
      ensures conversations == map[] && order == [] && counter == 1
    {
      conversations := map[];
      order := [];
      counter := 1;
    }

    /** Get-or-create keyed by the number only; on a hit the passed client data is ignored. */
    method GetConversation(number: string, clientIndex: int, clientNumber: string) returns (c: Conversation)
      requires Valid()
      modifies this
      ensures Valid() && Counted(number)
      ensures conversations == Admit(old(conversations), old(counter), number, clientIndex, clientNumber)
      ensures c == conversations[number]
      ensures number in old(conversations) ==> conversations == old(conversations) && c == old(conversations[number])
      ensures number !in old(conversations) ==>
        && c.id == old(counter) && c.clientIndex == clientIndex && c.clientNumber == clientNumber
        && c.recipientNumber == number && c.messages == []
        && conversations == old(conversations)[number := c]
    {
      if number !in conversations {
        var convo := NewConversation(counter, clientIndex, clientNumber, number);
        InsertKeepsNumbered(conversations, order, counter, number, convo);
        conversations, order := conversations[number := convo], order + [number];
        counter := counter + 1;
      }
      c := conversations[number];
    }

    /**
     * `addMessage` on the record registered under `number`: the record is shared with the registry,
     * so the registry sees that record's transcript grow and nothing else change.
     */
    method AddMessageTo(number: string, direction: string, content: string)
      requires Valid() && number in conversations
      modifies this
      ensures Valid() && order == old(order) && counter == old(counter)
      ensures conversations == old(conversations)[number := AddMessage(old(conversations[number]), direction, content)]
      ensures conversations.Keys == old(conversations.Keys)
    {
      var c := AddMessage(conversations[number], direction, content);
      UpdateKeepsNumbered(conversations, order, counter, number, c);
      conversations := conversations[number := c];
    }

    /**
     * `getConversation(number, …)` followed by `addMessage(m.direction, m.content)` on the record it
     * returns: the step both the dispatcher and the inbound handler take.
     */
    method Record(number: string, clientIndex: int, clientNumber: string, m: Message)
      requires Valid()
      modifies this
      ensures Valid() && Counted(number)
      ensures conversations == Recorded(old(conversations), old(counter), number, clientIndex, clientNumber, m)
      ensures Transcripts() == Appended(old(Transcripts()), number, m)
    {
      ghost var before, next := conversations, counter;
      var _ := GetConversation(number, clientIndex, clientNumber);
      AddMessageTo(number, m.direction, m.content);
      RecordedTranscripts(before, next, number, clientIndex, clientNumber, m);
    }

    /** `Array.from(conversations.values())`: every record, in insertion order. */
    function AllConversations(): (r: seq<Conversation>)
      reads this
      requires Valid()
      ensures |r| == |conversations|
      ensures forall i :: 0 <= i < |r| ==> r[i] == conversations[order[i]] && r[i].id == i + 1
    {
      var m, o := conversations, order;
      seq(|o|, i requires 0 <= i < |o| => m[o[i]])
    }

    /** `getConversationsByIds`: the records with the given ids, in the order of `ids`. */
    function ConversationsByIds(ids: seq<int>): (r: seq<Conversation>)
      reads this
      requires Valid()
      ensures forall k :: 0 <= k < |r| ==>
        && r[k].id in ids
        && r[k].recipientNumber in conversations && conversations[r[k].recipientNumber] == r[k]
    {
      LookupMany(AllConversations(), ids)
    }
  }

  /** Every registered record is listed, at the position its id gives. */
  lemma AllConversationsComplete(m: ConversationManager, number: string)
    requires m.Valid() && number in m.conversations
    ensures var all, c := m.AllConversations(), m.conversations[number];
      1 <= c.id <= |all| && all[c.id - 1] == c
  {
  }

  /** A single id finds the record created `id`-th, or nothing when no record has that id. */
  lemma ConversationById(m: ConversationManager, id: int)
    requires m.Valid()
    ensures m.ConversationsByIds([id]) == if 1 <= id < m.counter then [m.conversations[m.order[id - 1]]] else []
  {
    FindNumbered(m.AllConversations(), 1, id);
  }

  /** Lookups of a concatenation concatenate; with ConversationById this fixes the result for every id list. */
  lemma ConversationsByIdsConcat(m: ConversationManager, a: seq<int>, b: seq<int>)
    requires m.Valid()
    ensures m.ConversationsByIds(a + b) == m.ConversationsByIds(a) + m.ConversationsByIds(b)
  {
    LookupManyConcat(m.AllConversations(), a, b);
  }

  /** The lookup is empty exactly when no id lies in 1..size. */
  lemma ConversationsByIdsEmpty(m: ConversationManager, ids: seq<int>)
    requires m.Valid()
    ensures m.ConversationsByIds(ids) == [] <==> forall i :: 0 <= i < |ids| ==> !(1 <= ids[i] < m.counter)
  {
    var all := m.AllConversations();
    assert |all| + 1 == m.counter;
    LookupManyEmpty(all, ids);
    forall i | 0 <= i < |ids| ensures Find(all, ids[i]).None? <==> !(1 <= ids[i] < m.counter) {
      FindNumbered(all, 1, ids[i]);
    }
  }

  /** The records a lookup returns belong to the clients every registered record belongs to. */
  lemma ConversationsByIdsClients(m: ConversationManager, ids: seq<int>, n: int)
    requires m.Valid() && m.ClientsBelow(n)
    ensures forall k :: 0 <= k < |m.ConversationsByIds(ids)| ==> 0 <= m.ConversationsByIds(ids)[k].clientIndex < n
  {
    var r := m.ConversationsByIds(ids);
    forall k | 0 <= k < |r| ensures 0 <= r[k].clientIndex < n {
      assert m.conversations[r[k].recipientNumber] == r[k];
    }
  }
}
