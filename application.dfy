/**
 * The application layer: the checks `run` makes on the configuration before
 * any message goes out, the split of the numbers over the clients, the
 * inbound-message router and the reply command.
 */
module Application {
  import opened Wrappers
  import opened Conversations
  import opened Dispatch

  // ---------------------------------------------------------------------------
  // Configuration checks
  // ---------------------------------------------------------------------------

  /**
   * The configuration values the application reads. `numbers` is `None` when the
   * JSON value is not an array and `message` is `None` when it is not a string.
   */
  datatype Config = Config(
    numAccounts: int,
    numbers: Option<seq<string>>,
    message: Option<string>,
    messagesBeforePause: int,
    delayBetweenMessagesMs: int)

  /** Why `run` exits with status 1 before sending anything. */
  datatype ConfigError = NoNumbers | NoMessage

  /** The characters `String.prototype.trim` strips: ECMAScript WhiteSpace and LineTerminator. */
  predicate IsTrimmable(c: char) {
    || c == '\t' || c == '\n' || c == '\U{000B}' || c == '\U{000C}' || c == '\r' || c == ' '
    || c == '\U{00A0}' || c == '\U{1680}' || ('\U{2000}' <= c <= '\U{200A}')
    || c == '\U{2028}' || c == '\U{2029}' || c == '\U{202F}' || c == '\U{205F}' || c == '\U{3000}' || c == '\U{FEFF}'
  }

  /** `s` without its leading trimmable characters. */
  function TrimStart(s: string): (r: string)
    ensures |r| <= |s| && r == s[|s| - |r|..]
    ensures r == [] || !IsTrimmable(r[0])
    ensures forall i :: 0 <= i < |s| - |r| ==> IsTrimmable(s[i])
  {
    if s != [] && IsTrimmable(s[0]) then TrimStart(s[1..]) else s
  }

  /** `s` without its trailing trimmable characters. */
  function TrimEnd(s: string): (r: string)
    ensures |r| <= |s| && r == s[..|r|]
    ensures r == [] || !IsTrimmable(r[|r| - 1])
    ensures forall i :: |r| <= i < |s| ==> IsTrimmable(s[i])
  {
    if s != [] && IsTrimmable(s[|s| - 1]) then TrimEnd(s[..|s| - 1]) else s
  }

  /** `String.prototype.trim`: the result neither starts nor ends with a trimmable character. */
  function Trim(s: string): (r: string)
    ensures |r| <= |s|
    ensures r == [] || (!IsTrimmable(r[0]) && !IsTrimmable(r[|r| - 1]))
  {
    TrimEnd(TrimStart(s))
  }

  /**
   * `trim` keeps one stretch of `s`, starting where `TrimStart` stops, and everything of `s`
   * before and after that stretch is trimmable.
   */
  lemma TrimSlice(s: string)
    ensures var r, a := Trim(s), |s| - |TrimStart(s)|;
      && a + |r| <= |s| && (forall k :: 0 <= k < |r| ==> r[k] == s[a + k])
      && (forall i :: 0 <= i < a ==> IsTrimmable(s[i]))
      && (forall i :: a + |r| <= i < |s| ==> IsTrimmable(s[i]))
  {
    TrimKept(s);
    TrimDropped(s);
  }

  /** Where the stretch `trim` keeps lies in `s`. */
  lemma TrimKept(s: string)
    ensures var r, a := Trim(s), |s| - |TrimStart(s)|; a + |r| <= |s| && forall k :: 0 <= k < |r| ==> r[k] == s[a + k]
  {
    PrefixOfSuffix(s, TrimStart(s), Trim(s));
  }

  /** The characters `trim` drops at the end of `s` are trimmable. */
  lemma TrimDropped(s: string)
    ensures var r, a := Trim(s), |s| - |TrimStart(s)|; forall i :: a + |r| <= i < |s| ==> IsTrimmable(s[i])
  {
    TrimmableTail(s, TrimStart(s), |Trim(s)|);
  }

  /** A prefix `r` of a suffix `t` of `s` is the stretch of `s` where `t` starts. */
  lemma PrefixOfSuffix(s: string, t: string, r: string)
    requires |t| <= |s| && t == s[|s| - |t|..]
    requires |r| <= |t| && r == t[..|r|]
    ensures |s| - |t| + |r| <= |s| && forall k :: 0 <= k < |r| ==> r[k] == s[|s| - |t| + k]
  {
    forall k | 0 <= k < |r|
      ensures r[k] == s[|s| - |t| + k]
    {
      assert r[k] == t[k];
    }
  }

  /** When `t` is a suffix of `s` whose characters from `n` on are trimmable, so are those of `s` from the matching place on. */
  lemma TrimmableTail(s: string, t: string, n: nat)
    requires |t| <= |s| && t == s[|s| - |t|..] && n <= |t|
    requires forall i :: n <= i < |t| ==> IsTrimmable(t[i])
    ensures forall i :: |s| - |t| + n <= i < |s| ==> IsTrimmable(s[i])
  {
    forall i | |s| - |t| + n <= i < |s|
      ensures IsTrimmable(s[i])
    {
      assert s[i] == t[i - (|s| - |t|)];
    }
  }

  /** A string trims to the empty string exactly when every character of it is trimmable. */
  lemma TrimEmpty(s: string)
    ensures Trim(s) == [] <==> forall i :: 0 <= i < |s| ==> IsTrimmable(s[i])
  {
    var t := TrimStart(s);
    var offset := |s| - |t|;
    assert forall i :: offset <= i < |s| ==> s[i] == t[i - offset];
  }

  /**
   * The checks `run` makes, in its order: `numbers` must be a non-empty array,
   * then `message` a string that does not trim to empty.
   */
  function ValidateConfig(config: Config): (r: Result<(seq<string>, string), ConfigError>)
    ensures r.Success? ==> config.numbers == Some(r.value.0) && config.message == Some(r.value.1)
    ensures r == Failure(NoNumbers) <==> config.numbers.None? || config.numbers.value == []
    ensures r == Failure(NoMessage) <==>
      config.numbers.Some? && config.numbers.value != [] && (config.message.None? || Trim(config.message.value) == [])
  {
    if config.numbers.None? || config.numbers.value == [] then Failure(NoNumbers)
    else if config.message.None? || Trim(config.message.value) == [] then Failure(NoMessage)
    else Success((config.numbers.value, config.message.value))
  }

  /** The configuration is accepted exactly when there is a number and the message has a character `trim` keeps. */
  lemma ValidateConfigAccepts(config: Config)
    ensures ValidateConfig(config).Success? <==>
      && config.numbers.Some? && |config.numbers.value| > 0
      && config.message.Some? && exists i :: 0 <= i < |config.message.value| && !IsTrimmable(config.message.value[i])
  {
    if config.message.Some? {
      TrimEmpty(config.message.value);
    }
  }

  // ---------------------------------------------------------------------------
  // Splitting the numbers over the clients
  // ---------------------------------------------------------------------------

  /**
   * The size of group `i` when every group gets `q` items and the first `r` groups one more:
   * `len` items in `n` groups give `q == len / n` and `r == len % n`.
   */
  function GroupSize(q: nat, r: nat, i: nat): nat {
    q + (if i < r then 1 else 0)
  }

  /** `Math.floor(len / n)`: the size every one of `n` groups gets. */
  function PerGroup(len: nat, n: nat): nat
    requires n > 0
  {
    len / n
  }

  /** `len % n`: how many of the groups get one item more. */
  function Extra(len: nat, n: nat): nat
    requires n > 0
  {
    len % n
  }

  /** Where group `i` starts: right after the groups before it. */
  function GroupStart(q: nat, r: nat, i: nat): nat {
    if i == 0 then 0 else GroupStart(q, r, i - 1) + GroupSize(q, r, i - 1)
  }

  /** Group `i` starts after `i` groups of `q` and one extra for each earlier group that got one. */
  lemma {:induction false} GroupStartClosed(q: nat, r: nat, i: nat)
    ensures GroupStart(q, r, i) == i * q + (if i < r then i else r)
  {
    if i > 0 {
      GroupStartClosed(q, r, i - 1);
      assert i * q == (i - 1) * q + q;
    }
  }

  /** Splitting `len` items into `n` groups stays inside the list and the last group ends at its end: nothing is dropped. */
  lemma GroupStartBound(len: nat, n: nat, i: nat)
    requires 0 < n && i <= n
    ensures GroupStart(PerGroup(len, n), Extra(len, n), i) <= len
    ensures i == n ==> GroupStart(PerGroup(len, n), Extra(len, n), i) == len
  {
    DivisionSplit(len, n);
    GroupStartWithin(PerGroup(len, n), Extra(len, n), n, i, len);
  }

  /** Euclidean division of `len` by `n`: `n` groups of the quotient plus the remainder make up `len`. */
  lemma DivisionSplit(len: nat, n: nat)
    requires 0 < n
    ensures n * PerGroup(len, n) + Extra(len, n) == len && Extra(len, n) < n
  {
  }

  /** The closed form of `GroupStart` bounded by the total, once `len` is written as `n * q + r`. */
  lemma GroupStartWithin(q: nat, r: nat, n: nat, i: nat, len: nat)
    requires n * q + r == len && r < n && i <= n
    ensures GroupStart(q, r, i) <= len
    ensures i == n ==> GroupStart(q, r, i) == len
  {
    GroupStartClosed(q, r, i);
    MultiplyMonotone(i, n, q);
  }

  lemma MultiplyMonotone(i: nat, j: nat, k: nat)
    requires i <= j
    ensures i * k <= j * k
  {
    assert j * k == i * k + (j - i) * k;
  }

  /** Group sizes never grow along the list and differ by at most one. */
  lemma GroupSizesBalanced(q: nat, r: nat, i: nat, j: nat)
    requires i <= j
    ensures GroupSize(q, r, j) <= GroupSize(q, r, i) <= GroupSize(q, r, j) + 1
  {
  }

  /** The groups concatenated, in order. */
  function Concat(groups: seq<seq<string>>): seq<string> {
    if groups == [] then [] else Concat(groups[..|groups| - 1]) + groups[|groups| - 1]
  }

  /** Groups of the sizes `GroupSize` prescribes, concatenated, reach exactly to where the next group would start. */
  lemma {:induction false} ConcatLength(groups: seq<seq<string>>, q: nat, r: nat)
    requires forall j :: 0 <= j < |groups| ==> |groups[j]| == GroupSize(q, r, j)
    ensures |Concat(groups)| == GroupStart(q, r, |groups|)
    decreases |groups|
  {
    if groups != [] {
      var init := groups[..|groups| - 1];
      assert forall j :: 0 <= j < |init| ==> init[j] == groups[j];
      ConcatLength(init, q, r);
    }
  }

  /** Group `j` of groups with the sizes `GroupSize` prescribes is the `j`-th consecutive slice of their concatenation. */
  lemma {:induction false} ConcatSlice(groups: seq<seq<string>>, q: nat, r: nat, j: nat)
    requires j < |groups|
    requires forall i :: 0 <= i < |groups| ==> |groups[i]| == GroupSize(q, r, i)
    ensures GroupStart(q, r, j) <= GroupStart(q, r, j + 1) <= |Concat(groups)|
    ensures groups[j] == Concat(groups)[GroupStart(q, r, j)..GroupStart(q, r, j + 1)]
    decreases |groups|
  {
    var k := |groups| - 1;
    var init := groups[..k];
    assert forall i :: 0 <= i < |init| ==> init[i] == groups[i];
    ConcatLength(init, q, r);
    var c := Concat(init);
    assert Concat(groups) == c + groups[k];
    assert |c| == GroupStart(q, r, k) && |groups[k]| == GroupSize(q, r, k);
    if j < k {
      ConcatSlice(init, q, r, j);
      assert Concat(groups)[..|c|] == c;
    } else {
      assert GroupStart(q, r, k + 1) == |c| + |groups[k]|;
      assert Concat(groups)[|c|..|c| + |groups[k]|] == groups[k];
    }
  }

  /** The groups `DivideEqually` returns are the consecutive slices of the list, in order. */
  lemma DivideEquallySlices(arr: seq<string>, groups: seq<seq<string>>, i: nat)
    requires 0 <= i < |groups| && Concat(groups) == arr
    requires forall j :: 0 <= j < |groups| ==> |groups[j]| == GroupSize(PerGroup(|arr|, |groups|), Extra(|arr|, |groups|), j)
    ensures var q, r := PerGroup(|arr|, |groups|), Extra(|arr|, |groups|);
      GroupStart(q, r, i) <= GroupStart(q, r, i + 1) <= |arr| && groups[i] == arr[GroupStart(q, r, i)..GroupStart(q, r, i + 1)]
  {
    ConcatSlice(groups, PerGroup(|arr|, |groups|), Extra(|arr|, |groups|), i);
  }

  /**
   * `divideEqually`: `numGroups` contiguous slices of `arr` in order, the first
   * `|arr| % numGroups` of them one longer than the rest. With `numGroups <= 0`
   * the loop never runs and the result is empty.
   */
  method DivideEqually(arr: seq<string>, numGroups: int) returns (groups: seq<seq<string>>)
    ensures numGroups <= 0 ==> groups == []
    ensures numGroups > 0 ==>
      && |groups| == numGroups
      && Concat(groups) == arr
      && forall i :: 0 <= i < numGroups ==> |groups[i]| == GroupSize(PerGroup(|arr|, numGroups), Extra(|arr|, numGroups), i)
  {
    groups := [];
    if numGroups <= 0 {
      return;
    }
    var perGroup := PerGroup(|arr|, numGroups);
    var remainder := Extra(|arr|, numGroups);
    ghost var remainder0 := remainder;
    var start := 0;
    var i := 0;
    while i < numGroups
      invariant 0 <= i <= numGroups && |groups| == i
      invariant start == GroupStart(perGroup, remainder0, i) <= |arr|
      invariant remainder == if i < remainder0 then remainder0 - i else 0
      invariant Concat(groups) == arr[..start]
      invariant forall j :: 0 <= j < i ==> |groups[j]| == GroupSize(perGroup, remainder0, j)
    {
      var end := start + perGroup + (if remainder > 0 then 1 else 0);
      GroupStartBound(|arr|, numGroups, i + 1);
      assert end == GroupStart(perGroup, remainder0, i + 1);
      assert arr[..end] == arr[..start] + arr[start..end];
      ghost var previous := groups;
      groups := groups + [arr[start..end]];
      assert groups[..i] == previous;
      start := end;
      if remainder > 0 {
        remainder := remainder - 1;
      }
      i := i + 1;
    }
    GroupStartBound(|arr|, numGroups, numGroups);
    assert arr[..start] == arr;
  }

  // ---------------------------------------------------------------------------
  // Inbound messages and replies
  // ---------------------------------------------------------------------------

  /** The `type` of the messages the handler routes; every other type is ignored. */
  const CHAT := "chat"

  /** An incoming message as the handler sees it: its `type`, its sender address `from` and its `body`. */
  datatype IncomingMessage = IncomingMessage(kind: string, from: string, body: string)

  /** `from.split('@')[0]`: the part of the address before its first `@`, or all of it when it has none. */
  function SenderNumber(from: string): (r: string)
    ensures |r| <= |from| && r == from[..|r|]
    ensures forall i :: 0 <= i < |r| ==> r[i] != '@'
    ensures |r| < |from| ==> from[|r|] == '@'
  {
    if from == [] || from[0] == '@' then [] else [from[0]] + SenderNumber(from[1..])
  }

  /**
   * Reading the sender back from an address the dispatcher sends to gives the bare number
   * again, so a reply from a recipient lands in the conversation its outbound messages used.
   */
  lemma AddressRoundTrip(number: string)
    requires forall i :: 0 <= i < |number| ==> number[i] != '@'
    ensures SenderNumber(Address(number)) == number
  {
    var a := Address(number);
    assert a[|number|] == '@';
    assert forall i :: 0 <= i < |number| ==> a[i] == number[i];
    assert a[..|number|] == number;
  }

  /** The application: the clients' own numbers, the shared registry, and the message service `run` creates. */
  class Application {
    /** Client `i`'s own number, `getClientInfo().wid.user`. */
    const clientNumbers: seq<string>
    const registry: ConversationManager
    var service: MessageService?

    /** The registry is well formed, every conversation belongs to an existing client, and the service shares the registry. */
    ghost predicate Valid()
      reads this, registry
    {
      && registry.Valid() && registry.ClientsBelow(|clientNumbers|)
      && (service != null ==> service.registry == registry && service.clientNumbers == clientNumbers)
    }

    constructor (clientNumbers: seq<string>)
      ensures Valid() && this.clientNumbers == clientNumbers && service == null
      ensures fresh(registry) && registry.conversations == map[] && registry.counter == 1
    {
      this.clientNumbers := clientNumbers;
      registry := new ConversationManager();
      service := null;
    }

    /**
     * The part of `run` after the clients are up: check `numbers` and `message` (a failure is the
     * exit with status 1), split the numbers over the clients and start one paced job per client.
     */
    method Run(config: Config) returns (r: Result<seq<DispatchJob>, ConfigError>, ghost groups: seq<seq<string>>)
      requires Valid() && service == null
      requires |clientNumbers| == if config.numAccounts < 0 then 0 else config.numAccounts
      modifies this
      ensures Valid()
      ensures r.Failure? <==> ValidateConfig(config).Failure?
      ensures r.Failure? ==> r.error == ValidateConfig(config).error && service == null
      ensures r.Success? ==>
        && service != null && fresh(service) && service.log == []
        && service.messagesBeforePause == config.messagesBeforePause
        && service.delayBetweenMessagesMs == config.delayBetweenMessagesMs
        && |r.value| == |groups| == |clientNumbers|
        && (|groups| > 0 ==>
              && Concat(groups) == config.numbers.value
              && forall i :: 0 <= i < |groups| ==>
                   |groups[i]| == GroupSize(PerGroup(|config.numbers.value|, |groups|), Extra(|config.numbers.value|, |groups|), i))
        && forall i :: 0 <= i < |r.value| ==>
             && fresh(r.value[i]) && r.value[i].Valid()
             && r.value[i].clientIndex == i && r.value[i].numbers == groups[i] && r.value[i].message == config.message.value
             && r.value[i].index == 0 && r.value[i].messageCount == 0 && r.value[i].status == Ticking
    {
      groups := [];
      var checked := ValidateConfig(config);
      if checked.Failure? {
        return Failure(checked.error), groups;
      }
      var (numbers, message) := checked.value;
      var split := DivideEqually(numbers, config.numAccounts);
      groups := split;
      service := new MessageService(clientNumbers, registry, config.messagesBeforePause, config.delayBetweenMessagesMs);
      var jobs := service.SendMessages(split, message);
      r := Success(jobs);
    }

    /**
     * `handleIncomingMessage`: a chat message is appended as `Recibido` to the conversation
     * of its sender's bare number, created for the receiving client if new. Other types are
     * ignored, and so is a client index with no client (the lookup throws and the handler
     * catches it).
     */
    method HandleIncomingMessage(msg: IncomingMessage, clientIndex: int)
      requires Valid()
      modifies registry
      ensures Valid()
      ensures msg.kind != CHAT || !(0 <= clientIndex < |clientNumbers|) ==> unchanged(registry)
      ensures msg.kind == CHAT && 0 <= clientIndex < |clientNumbers| ==>
        && registry.Counted(SenderNumber(msg.from))
        && registry.conversations
           == Recorded(old(registry.conversations), old(registry.counter), SenderNumber(msg.from),
                       clientIndex, clientNumbers[clientIndex], Message(RECEIVED, msg.body))
        && registry.Transcripts() == Appended(old(registry.Transcripts()), SenderNumber(msg.from), Message(RECEIVED, msg.body))
    {
      if msg.kind != CHAT {
        return;
      }
      var number := SenderNumber(msg.from);
      if !(0 <= clientIndex < |clientNumbers|) {
        return;
      }
      var received := Message(RECEIVED, msg.body);
      ghost var before, counter := registry.conversations, registry.counter;
      registry.Record(number, clientIndex, clientNumbers[clientIndex], received);
      RecordedClients(before, counter, number, clientIndex, clientNumbers[clientIndex], received, |clientNumbers|);
    }

    /**
     * `processReply`: look the ids up; when none matches nothing is sent, otherwise the
     * matched conversations, in the order of `ids`, get the reply.
     */
    method ProcessReply(ids: seq<int>, reply: string) returns (delays: seq<int>)
      requires Valid() && service != null
      modifies service, registry
      ensures Valid()
      ensures old(registry.ConversationsByIds(ids)) == [] ==>
        unchanged(registry) && service.log == old(service.log) && delays == []
      ensures old(registry.ConversationsByIds(ids)) != [] ==>
        && service.log == old(service.log) + ReplySends(old(registry.ConversationsByIds(ids)), reply)
        && registry.Transcripts()
           == Deliver(old(registry.Transcripts()), Recipients(old(registry.ConversationsByIds(ids))), Message(SENT, reply))
        && |delays| == |old(registry.ConversationsByIds(ids))|
        && forall k :: 0 <= k < |delays| ==> delays[k] == k * service.delayBetweenMessagesMs
      ensures registry.order == old(registry.order) && registry.counter == old(registry.counter)
      ensures registry.conversations.Keys == old(registry.conversations.Keys)
      ensures HeadersKept(old(registry.conversations), registry.conversations)
    {
      var found := registry.ConversationsByIds(ids);
      if |found| == 0 {
        HeadersKeptSame(registry.conversations);
        return [];
      }
      ConversationsByIdsClients(registry, ids, |clientNumbers|);
      delays := service.SendReply(found, reply);
    }
  }
}
