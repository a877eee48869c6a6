/**
 * The paced dispatcher: one job per client walks its share of the numbers,
 * one send per interval tick, and after `messagesBeforePause` sends stops
 * ticking until a pause expires, when a continuation job takes over the
 * rest of the list. Timers are explicit steps here and every transport send
 * is recorded in a ghost log.
 */
module Dispatch {
  import opened Conversations

  /** The suffix that turns a bare number into a chat address. */
  const ADDRESS_SUFFIX := "@c.us"

  /** The chat address of `number`: the number itself, then the suffix. */
  function Address(number: string): (r: string)
    ensures |r| == |number| + |ADDRESS_SUFFIX|
    ensures r[..|number|] == number && r[|number|..] == ADDRESS_SUFFIX
  {
    number + ADDRESS_SUFFIX
  }

  /** What the dispatcher does that is visible outside: a send through client `clientIndex`, or a pause of that client. */
  datatype Event =
    | Send(clientIndex: int, to: string, body: string)
    | Pause(clientIndex: int)

  /** The most sends that ever happen between pauses: the source pauses as soon as `count >= messagesBeforePause`. */
  function Quota(messagesBeforePause: int): (q: nat)
    ensures q >= 1
    ensures messagesBeforePause >= 1 ==> q == messagesBeforePause
  {
    if messagesBeforePause < 1 then 1 else messagesBeforePause
  }

  /**
   * The events a job produces from here on, when `numbers` is what is left of
   * its list and `count` sends have gone out since it last (re)started.
   */
  function Window(clientIndex: int, numbers: seq<string>, message: string, count: nat, messagesBeforePause: int): (r: seq<Event>)
    ensures |numbers| <= |r| <= 2 * |numbers|
    decreases |numbers|
  {
    if numbers == [] then []
    else
      [Send(clientIndex, Address(numbers[0]), message)]
      + if count + 1 >= messagesBeforePause
        then [Pause(clientIndex)] + Window(clientIndex, numbers[1..], message, 0, messagesBeforePause)
        else Window(clientIndex, numbers[1..], message, count + 1, messagesBeforePause)
  }

  /**
   * The events of a fresh job and all of its continuations: one send per number, in order,
   * with no more than the quota between two pauses.
   */
  function Schedule(clientIndex: int, numbers: seq<string>, message: string, messagesBeforePause: int): (r: seq<Event>)
    ensures SendsOf(r) == Deliveries(clientIndex, numbers, message)
    ensures BurstsWithin(r, 0, Quota(messagesBeforePause))
  {
    WindowDeliversAll(clientIndex, numbers, message, 0, messagesBeforePause);
    WindowBursts(clientIndex, numbers, message, 0, messagesBeforePause);
    Window(clientIndex, numbers, message, 0, messagesBeforePause)
  }

  /** One send of `message` to each number, in order. */
  function Deliveries(clientIndex: int, numbers: seq<string>, message: string): (r: seq<Event>)
    ensures |r| == |numbers|
    ensures forall i :: 0 <= i < |numbers| ==> r[i] == Send(clientIndex, Address(numbers[i]), message)
  {
    if numbers == [] then []
    else [Send(clientIndex, Address(numbers[0]), message)] + Deliveries(clientIndex, numbers[1..], message)
  }

  /** The sends of an event sequence, pauses dropped. */
  function SendsOf(events: seq<Event>): seq<Event> {
    if events == [] then []
    else (if events[0].Send? then [events[0]] else []) + SendsOf(events[1..])
  }

  /** True when, starting with `run` sends already in the current burst, no burst between pauses exceeds `quota`. */
  predicate BurstsWithin(events: seq<Event>, run: nat, quota: nat)
    decreases |events|
  {
    if events == [] then true
    else if events[0].Send? then run + 1 <= quota && BurstsWithin(events[1..], run + 1, quota)
    else BurstsWithin(events[1..], 0, quota)
  }

  lemma {:induction false} SendsOfConcat(a: seq<Event>, b: seq<Event>)
    ensures SendsOf(a + b) == SendsOf(a) + SendsOf(b)
  {
    if a == [] {
      assert a + b == b;
    } else {
      assert (a + b)[0] == a[0] && (a + b)[1..] == a[1..] + b;
      SendsOfConcat(a[1..], b);
      Regroup(if a[0].Send? then [a[0]] else [], SendsOf(a[1..]), SendsOf(b));
    }
  }

  /** Across a job and all its continuations every number is sent to exactly once, in order, and nothing else is sent. */
  lemma {:induction false} WindowDeliversAll(clientIndex: int, numbers: seq<string>, message: string, count: nat, messagesBeforePause: int)
    ensures SendsOf(Window(clientIndex, numbers, message, count, messagesBeforePause)) == Deliveries(clientIndex, numbers, message)
  {
    if numbers != [] {
      var head := [Send(clientIndex, Address(numbers[0]), message)];
      var count' := if count + 1 >= messagesBeforePause then 0 else count + 1;
      var rest := Window(clientIndex, numbers[1..], message, count', messagesBeforePause);
      WindowDeliversAll(clientIndex, numbers[1..], message, count', messagesBeforePause);
      if count + 1 >= messagesBeforePause {
        SendsOfConcat([Pause(clientIndex)], rest);
        SendsOfConcat(head, [Pause(clientIndex)] + rest);
      } else {
        SendsOfConcat(head, rest);
      }
    }
  }

  /** Between two consecutive pauses a job never sends more than `Quota(messagesBeforePause)` messages. */
  lemma {:induction false} WindowBursts(clientIndex: int, numbers: seq<string>, message: string, count: nat, messagesBeforePause: int)
    requires count < Quota(messagesBeforePause)
    ensures BurstsWithin(Window(clientIndex, numbers, message, count, messagesBeforePause), count, Quota(messagesBeforePause))
  {
    if numbers != [] {
      var w := Window(clientIndex, numbers, message, count, messagesBeforePause);
      assert w[0].Send?;
      if count + 1 >= messagesBeforePause {
        WindowBursts(clientIndex, numbers[1..], message, 0, messagesBeforePause);
        assert w[1..][1..] == Window(clientIndex, numbers[1..], message, 0, messagesBeforePause);
      } else {
        WindowBursts(clientIndex, numbers[1..], message, count + 1, messagesBeforePause);
        assert w[1..] == Window(clientIndex, numbers[1..], message, count + 1, messagesBeforePause);
      }
    }
  }

  /**
   * Once `Quota - count` more numbers are available the job sends exactly that many, pauses,
   * and its continuation starts afresh on the number right after the last one sent.
   */
  lemma {:induction false} WindowPausesAtQuota(clientIndex: int, numbers: seq<string>, message: string, count: nat, messagesBeforePause: int)
    requires count < Quota(messagesBeforePause) <= |numbers| + count
    ensures var k := Quota(messagesBeforePause) - count;
      Window(clientIndex, numbers, message, count, messagesBeforePause)
      == Deliveries(clientIndex, numbers[..k], message) + [Pause(clientIndex)] + Window(clientIndex, numbers[k..], message, 0, messagesBeforePause)
  {
    var k := Quota(messagesBeforePause) - count;
    var head := [Send(clientIndex, Address(numbers[0]), message)];
    var pause := [Pause(clientIndex)];
    if count + 1 >= messagesBeforePause {
      assert k == 1;
      assert numbers[..1][1..] == [];
      assert Deliveries(clientIndex, numbers[..1], message) == head;
      Regroup(head, pause, Window(clientIndex, numbers[1..], message, 0, messagesBeforePause));
    } else {
      var tail := numbers[1..];
      var w := Window(clientIndex, tail, message, count + 1, messagesBeforePause);
      assert Window(clientIndex, numbers, message, count, messagesBeforePause) == head + w;
      WindowPausesAtQuota(clientIndex, tail, message, count + 1, messagesBeforePause);
      assert tail[..k - 1] == numbers[..k][1..];
      assert tail[k - 1..] == numbers[k..];
      var d := Deliveries(clientIndex, tail[..k - 1], message);
      var after := Window(clientIndex, numbers[k..], message, 0, messagesBeforePause);
      assert w == d + pause + after;
      assert numbers[..k][0] == numbers[0];
      assert Deliveries(clientIndex, numbers[..k], message) == head + d;
      Regroup(head, d, pause);
      Regroup(head, d + pause, after);
    }
  }

  /** With fewer numbers than the quota allows, the job sends them all and never pauses. */
  lemma {:induction false} WindowFinishesBelowQuota(clientIndex: int, numbers: seq<string>, message: string, count: nat, messagesBeforePause: int)
    requires |numbers| + count < Quota(messagesBeforePause)
    ensures Window(clientIndex, numbers, message, count, messagesBeforePause) == Deliveries(clientIndex, numbers, message)
  {
    if numbers != [] {
      WindowFinishesBelowQuota(clientIndex, numbers[1..], message, count + 1, messagesBeforePause);
    }
  }

  /** The transcript map after `m` has been appended once per number of `numbers`, in order. */
  function Deliver(transcripts: map<string, seq<Message>>, numbers: seq<string>, m: Message): (r: map<string, seq<Message>>)
    decreases |numbers|
  {
    if numbers == [] then transcripts
    else Deliver(Appended(transcripts, numbers[0], m), numbers[1..], m)
  }

  /** `k` copies of `m`, in a row. */
  function Copies(m: Message, k: nat): (r: seq<Message>)
    ensures |r| == k
    ensures forall i :: 0 <= i < k ==> r[i] == m
  {
    if k == 0 then [] else [m] + Copies(m, k - 1)
  }

  /**
   * What `Deliver` leaves under one number: its old transcript (empty if it had none), then
   * `m` once per occurrence of the number in `numbers`. A number in neither has no transcript.
   */
  lemma {:induction false} DeliverAt(transcripts: map<string, seq<Message>>, numbers: seq<string>, m: Message, number: string)
    ensures number in Deliver(transcripts, numbers, m) <==> number in transcripts || number in numbers
    ensures number in Deliver(transcripts, numbers, m) ==>
      Deliver(transcripts, numbers, m)[number]
        == (if number in transcripts then transcripts[number] else []) + Copies(m, multiset(numbers)[number])
    decreases |numbers|
  {
    if numbers == [] {
      if number in transcripts {
        assert transcripts[number] + [] == transcripts[number];
      }
    } else {
      var head, tail := numbers[0], numbers[1..];
      var t := Appended(transcripts, head, m);
      assert Deliver(transcripts, numbers, m) == Deliver(t, tail, m);
      assert numbers == [head] + tail;
      assert multiset(numbers)[number] == multiset(tail)[number] + (if number == head then 1 else 0);
      DeliverAt(t, tail, m, number);
      if number == head {
        var base := if number in transcripts then transcripts[number] else [];
        var k := multiset(tail)[number];
        assert t[number] == base + [m];
        assert Copies(m, k + 1) == [m] + Copies(m, k);
        Regroup(base, [m], Copies(m, k));
      }
    }
  }

  /** What one tick puts on the log: the send to `number`, then a pause if that send filled the quota. */
  function Burst(clientIndex: int, number: string, message: string, paused: bool): (r: seq<Event>)
    ensures |r| == if paused then 2 else 1
    ensures r[0] == Send(clientIndex, Address(number), message)
    ensures paused ==> |r| == 2 && r[1] == Pause(clientIndex)
  {
    [Send(clientIndex, Address(number), message)] + if paused then [Pause(clientIndex)] else []
  }

  /** One step of a window: its burst, then the window of the rest with the quota counter reset or advanced. */
  lemma WindowStep(clientIndex: int, number: string, next: seq<string>, message: string, count: nat, messagesBeforePause: int)
    ensures Window(clientIndex, [number] + next, message, count, messagesBeforePause)
      == Burst(clientIndex, number, message, count + 1 >= messagesBeforePause)
         + Window(clientIndex, next, message, if count + 1 >= messagesBeforePause then 0 else count + 1, messagesBeforePause)
  {
    assert ([number] + next)[1..] == next;
    var w := Window(clientIndex, next, message, 0, messagesBeforePause);
    if count + 1 >= messagesBeforePause {
      Regroup([Send(clientIndex, Address(number), message)], [Pause(clientIndex)], w);
    }
  }

  /** One step of a delivery: the first number's transcript gets `m` first. */
  lemma DeliverStep(transcripts: map<string, seq<Message>>, number: string, next: seq<string>, m: Message)
    ensures Deliver(transcripts, [number] + next, m) == Deliver(Appended(transcripts, number, m), next, m)
  {
    assert ([number] + next)[1..] == next;
  }

  /** Delivering to one more number at the end appends `m` to that number's transcript last. */
  lemma {:induction false} DeliverSnoc(transcripts: map<string, seq<Message>>, numbers: seq<string>, number: string, m: Message)
    ensures Deliver(transcripts, numbers + [number], m) == Appended(Deliver(transcripts, numbers, m), number, m)
    decreases |numbers|
  {
    if numbers == [] {
      assert numbers + [number] == [number] + [];
      DeliverStep(transcripts, number, [], m);
    } else {
      assert numbers + [number] == [numbers[0]] + (numbers[1..] + [number]);
      DeliverStep(transcripts, numbers[0], numbers[1..] + [number], m);
      DeliverSnoc(Appended(transcripts, numbers[0], m), numbers[1..], number, m);
    }
  }

  /**
   * The registry's insertion order after get-or-create for each of `numbers`, in turn: every
   * number not registered yet is added at the end, so the new ones come in order of first use.
   */
  function Enrolled(order: seq<string>, numbers: seq<string>): seq<string>
    decreases |numbers|
  {
    if numbers == [] then order
    else Enrolled(if numbers[0] in order then order else order + [numbers[0]], numbers[1..])
  }

  /** No number occurs twice. */
  predicate Distinct(s: seq<string>) {
    forall i, j :: 0 <= i < j < |s| ==> s[i] != s[j]
  }

  /** One get-or-create ahead of the rest. */
  lemma EnrolledStep(order: seq<string>, number: string, next: seq<string>)
    ensures Enrolled(order, [number] + next) == Enrolled(if number in order then order else order + [number], next)
  {
    assert ([number] + next)[1..] == next;
  }

  /** Enrolling keeps the old order as a prefix and registers exactly the old numbers and the new ones. */
  lemma {:induction false} EnrolledKeeps(order: seq<string>, numbers: seq<string>)
    ensures var r := Enrolled(order, numbers);
      && |order| <= |r| && r[..|order|] == order
      && forall x :: x in r <==> x in order || x in numbers
    decreases |numbers|
  {
    if numbers != [] {
      var order' := if numbers[0] in order then order else order + [numbers[0]];
      EnrolledKeeps(order', numbers[1..]);
      var r := Enrolled(order', numbers[1..]);
      assert r[..|order|] == r[..|order'|][..|order|];
      assert forall x :: x in numbers <==> x == numbers[0] || x in numbers[1..];
    }
  }

  /** Enrolling never registers a number twice. */
  lemma {:induction false} EnrolledDistinct(order: seq<string>, numbers: seq<string>)
    requires Distinct(order)
    ensures Distinct(Enrolled(order, numbers))
    decreases |numbers|
  {
    if numbers != [] {
      var order' := if numbers[0] in order then order else order + [numbers[0]];
      assert Distinct(order');
      EnrolledDistinct(order', numbers[1..]);
    }
  }

  /** Enrolling `a + b` is enrolling `a`, then `b`. */
  lemma {:induction false} EnrolledConcat(order: seq<string>, a: seq<string>, b: seq<string>)
    ensures Enrolled(order, a + b) == Enrolled(Enrolled(order, a), b)
    decreases |a|
  {
    if a == [] {
      assert a + b == b;
    } else {
      assert (a + b)[0] == a[0] && (a + b)[1..] == a[1..] + b;
      EnrolledConcat(if a[0] in order then order else order + [a[0]], a[1..], b);
    }
  }

  /** The state of a job's interval: still ticking, stopped for a pause, or cleared for good. */
  datatype JobStatus = Ticking | Paused | Stopped

  /** The closure of one `sendMessagesFromClient` call: its list, its cursor and its quota counter. */
  class DispatchJob {
    const clientIndex: int
    const numbers: seq<string>
    const message: string
    var index: nat
    var messageCount: nat
    var status: JobStatus

    ghost predicate Valid()
      reads this
    {
      index <= |numbers|
    }

    /** The numbers this job or its continuation still has to send to. */
    ghost function Rest(): seq<string>
      reads this
      requires Valid()
    {
      if status == Stopped then [] else numbers[index..]
    }

    /** Everything this job and its continuations will still do. */
    ghost function Pending(messagesBeforePause: int): seq<Event>
      reads this
      requires Valid()
    {
      match status
      case Ticking => Window(clientIndex, numbers[index..], message, messageCount, messagesBeforePause)
      case Paused => Schedule(clientIndex, numbers[index..], message, messagesBeforePause)
      case Stopped => []
    }

    constructor (clientIndex: int, numbers: seq<string>, message: string)
      ensures this.clientIndex == clientIndex && this.numbers == numbers && this.message == message
      ensures index == 0 && messageCount == 0 && status == Ticking
      ensures Valid()
    {
      this.clientIndex := clientIndex;
      this.numbers := numbers;
      this.message := message;
      index := 0;
      messageCount := 0;
      status := Ticking;
    }

    /**
     * The bookkeeping after one send: both counters advance, and once the quota counter
     * reaches `messagesBeforePause` the interval is cleared for a pause.
     */
    method Advance(messagesBeforePause: int) returns (paused: bool)
      requires Valid() && status == Ticking && index < |numbers|
      modifies this
      ensures Valid() && index == old(index) + 1 && messageCount == old(messageCount) + 1
      ensures paused == (messageCount >= messagesBeforePause)
      ensures status == if paused then Paused else Ticking
      ensures old(Pending(messagesBeforePause)) == Burst(clientIndex, numbers[old(index)], message, paused) + Pending(messagesBeforePause)
      ensures old(Rest()) == [numbers[old(index)]] + Rest()
    {
      var number := numbers[index];
      ghost var next := numbers[index + 1..];
      assert numbers[index..] == [number] + next;
      WindowStep(clientIndex, number, next, message, messageCount, messagesBeforePause);
      index := index + 1;
      messageCount := messageCount + 1;
      paused := messageCount >= messagesBeforePause;
      if paused {
        status := Paused;
      }
    }
  }

  /** A rank that a job's status lowers on every step that does not consume a number. */
  function StatusRank(s: JobStatus): nat {
    match s
    case Paused => 2
    case Ticking => 1
    case Stopped => 0
  }

  /** The replies `sendReply` sends, in order: one per conversation, to its recipient through its own client. */
  function ReplySends(conversations: seq<Conversation>, reply: string): (r: seq<Event>)
    ensures |r| == |conversations|
    ensures forall k :: 0 <= k < |conversations| ==>
      r[k] == Send(conversations[k].clientIndex, Address(conversations[k].recipientNumber), reply)
  {
    if conversations == [] then []
    else
      var last := conversations[|conversations| - 1];
      ReplySends(conversations[..|conversations| - 1], reply) + [Send(last.clientIndex, Address(last.recipientNumber), reply)]
  }

  /** Extending a prefix of `conversations` by one adds that conversation's reply and recipient at the end. */
  lemma ReplyStep(conversations: seq<Conversation>, k: nat, reply: string)
    requires k < |conversations|
    ensures ReplySends(conversations[..k + 1], reply)
         == ReplySends(conversations[..k], reply) + [Send(conversations[k].clientIndex, Address(conversations[k].recipientNumber), reply)]
    ensures Recipients(conversations[..k + 1]) == Recipients(conversations[..k]) + [conversations[k].recipientNumber]
  {
    assert conversations[..k + 1][..k] == conversations[..k];
  }

  /** The recipient numbers of `conversations`, in order. */
  function Recipients(conversations: seq<Conversation>): (r: seq<string>)
    ensures |r| == |conversations|
    ensures forall k :: 0 <= k < |conversations| ==> r[k] == conversations[k].recipientNumber
  {
    if conversations == [] then []
    else Recipients(conversations[..|conversations| - 1]) + [conversations[|conversations| - 1].recipientNumber]
  }

  /**
   * The message service: the clients' own numbers, the shared registry, the
   * pacing settings and the log of everything sent through the clients.
   */
  class MessageService {
    const clientNumbers: seq<string>
    const registry: ConversationManager
    const messagesBeforePause: int
    const delayBetweenMessagesMs: int
    ghost var log: seq<Event>

    constructor (clientNumbers: seq<string>, registry: ConversationManager, messagesBeforePause: int, delayBetweenMessagesMs: int)
      ensures this.clientNumbers == clientNumbers && this.registry == registry
      ensures this.messagesBeforePause == messagesBeforePause && this.delayBetweenMessagesMs == delayBetweenMessagesMs
      ensures log == []
    {
      this.clientNumbers := clientNumbers;
      this.registry := registry;
      this.messagesBeforePause := messagesBeforePause;
      this.delayBetweenMessagesMs := delayBetweenMessagesMs;
      log := [];
    }

    /** `sendMessages`: one job per client `i`, over `numbersPerClient[i]`. */
    method SendMessages(numbersPerClient: seq<seq<string>>, message: string) returns (jobs: seq<DispatchJob>)
      requires |numbersPerClient| >= |clientNumbers|
      ensures |jobs| == |clientNumbers|
      ensures forall i :: 0 <= i < |jobs| ==>
        && fresh(jobs[i]) && jobs[i].Valid()
        && jobs[i].clientIndex == i && jobs[i].numbers == numbersPerClient[i] && jobs[i].message == message
        && jobs[i].index == 0 && jobs[i].messageCount == 0 && jobs[i].status == Ticking
    {
      jobs := [];
      var i := 0;
      while i < |clientNumbers|
        invariant 0 <= i <= |clientNumbers| && |jobs| == i
        invariant forall j :: 0 <= j < i ==>
          && fresh(jobs[j]) && jobs[j].Valid()
          && jobs[j].clientIndex == j && jobs[j].numbers == numbersPerClient[j] && jobs[j].message == message
          && jobs[j].index == 0 && jobs[j].messageCount == 0 && jobs[j].status == Ticking
      {
        var job := new DispatchJob(i, numbersPerClient[i], message);
        jobs := jobs + [job];
        i := i + 1;
      }
    }

    /**
     * The live branch of a tick: send to the next number (the transport swallows its own errors,
     * so this always goes on), get-or-create its conversation and append `Enviado`, advance both
     * counters, and stop ticking for a pause once the quota is reached.
     */
    method SendNext(job: DispatchJob) returns (status: JobStatus)
      requires registry.Valid() && job.Valid() && job.status == Ticking && job.index < |job.numbers|
      requires 0 <= job.clientIndex < |clientNumbers|
      modifies this, job, registry
      ensures registry.Valid() && job.Valid() && status == job.status
      ensures old(registry.ClientsBelow(|clientNumbers|)) ==> registry.ClientsBelow(|clientNumbers|)
      ensures log == old(log) + Burst(job.clientIndex, job.numbers[old(job.index)], job.message, status == Paused)
      ensures log + job.Pending(messagesBeforePause) == old(log + job.Pending(messagesBeforePause))
      ensures job.index == old(job.index) + 1 && job.messageCount == old(job.messageCount) + 1
      ensures status == if job.messageCount >= messagesBeforePause then Paused else Ticking
      ensures registry.Counted(job.numbers[old(job.index)])
      ensures registry.conversations == Recorded(old(registry.conversations), old(registry.counter), job.numbers[old(job.index)],
                                                 job.clientIndex, clientNumbers[job.clientIndex], Message(SENT, job.message))
      ensures registry.Transcripts() == Appended(old(registry.Transcripts()), job.numbers[old(job.index)], Message(SENT, job.message))
      ensures Deliver(registry.Transcripts(), job.Rest(), Message(SENT, job.message))
           == Deliver(old(registry.Transcripts()), old(job.Rest()), Message(SENT, job.message))
      ensures HeadersKept(old(registry.conversations), registry.conversations)
      ensures NewOwnedBy(old(registry.conversations), registry.conversations, job.clientIndex, clientNumbers[job.clientIndex])
      ensures Enrolled(registry.order, job.Rest()) == Enrolled(old(registry.order), old(job.Rest()))
    {
      var number := job.numbers[job.index];
      var paused := job.Advance(messagesBeforePause);
      ghost var burst := Burst(job.clientIndex, number, job.message, paused);
      Regroup(log, burst, job.Pending(messagesBeforePause));
      log := log + burst;
      RecordSent(number, job.clientIndex, Message(SENT, job.message), job.Rest());
      status := job.status;
    }

    /**
     * The registry half of a send: the message is recorded in the recipient's conversation, and
     * delivering to the numbers after it (`rest`) continues from the grown transcripts.
     */
    method RecordSent(number: string, clientIndex: int, sent: Message, ghost rest: seq<string>)
      requires registry.Valid() && 0 <= clientIndex < |clientNumbers|
      modifies registry
      ensures registry.Valid()
      ensures old(registry.ClientsBelow(|clientNumbers|)) ==> registry.ClientsBelow(|clientNumbers|)
      ensures registry.Counted(number)
      ensures registry.conversations == Recorded(old(registry.conversations), old(registry.counter), number,
                                                 clientIndex, clientNumbers[clientIndex], sent)
      ensures registry.Transcripts() == Appended(old(registry.Transcripts()), number, sent)
      ensures Deliver(registry.Transcripts(), rest, sent) == Deliver(old(registry.Transcripts()), [number] + rest, sent)
      ensures HeadersKept(old(registry.conversations), registry.conversations)
      ensures NewOwnedBy(old(registry.conversations), registry.conversations, clientIndex, clientNumbers[clientIndex])
      ensures Enrolled(registry.order, rest) == Enrolled(old(registry.order), [number] + rest)
    {
      ghost var before, counter, order := registry.conversations, registry.counter, registry.order;
      registry.Record(number, clientIndex, clientNumbers[clientIndex], sent);
      if ClientsWithin(before, |clientNumbers|) {
        RecordedClients(before, counter, number, clientIndex, clientNumbers[clientIndex], sent, |clientNumbers|);
      }
      DeliverStep(TranscriptsOf(before), number, rest, sent);
      RecordedHeaders(before, counter, number, clientIndex, clientNumbers[clientIndex], sent);
      NumberedKeys(before, order, counter, number);
      EnrolledStep(order, number, rest);
    }

    /**
     * One interval tick of `job`: once the list is exhausted the interval is cleared and nothing
     * else happens; otherwise the next number is sent to as `SendNext` states.
     */
    method Tick(job: DispatchJob) returns (status: JobStatus)
      requires registry.Valid() && job.Valid() && job.status == Ticking
      requires 0 <= job.clientIndex < |clientNumbers|
      modifies this, job, registry
      ensures registry.Valid() && job.Valid() && status == job.status
      ensures old(registry.ClientsBelow(|clientNumbers|)) ==> registry.ClientsBelow(|clientNumbers|)
      ensures log + job.Pending(messagesBeforePause) == old(log + job.Pending(messagesBeforePause))
      ensures Deliver(registry.Transcripts(), job.Rest(), Message(SENT, job.message))
           == Deliver(old(registry.Transcripts()), old(job.Rest()), Message(SENT, job.message))
      ensures status == Stopped <==> old(job.index) >= |job.numbers|
      ensures status == Stopped ==> log == old(log) && job.index == old(job.index) && job.messageCount == old(job.messageCount) && unchanged(registry)
      ensures status != Stopped ==> job.index == old(job.index) + 1
      ensures old(job.index) < |job.numbers| ==>
        && log == old(log) + Burst(job.clientIndex, job.numbers[old(job.index)], job.message, status == Paused)
        && job.messageCount == old(job.messageCount) + 1
        && status == (if job.messageCount >= messagesBeforePause then Paused else Ticking)
        && registry.Counted(job.numbers[old(job.index)])
        && registry.conversations == Recorded(old(registry.conversations), old(registry.counter), job.numbers[old(job.index)],
                                              job.clientIndex, clientNumbers[job.clientIndex], Message(SENT, job.message))
        && registry.Transcripts() == Appended(old(registry.Transcripts()), job.numbers[old(job.index)], Message(SENT, job.message))
      ensures HeadersKept(old(registry.conversations), registry.conversations)
      ensures NewOwnedBy(old(registry.conversations), registry.conversations, job.clientIndex, clientNumbers[job.clientIndex])
      ensures Enrolled(registry.order, job.Rest()) == Enrolled(old(registry.order), old(job.Rest()))
    {
      if job.index >= |job.numbers| {
        job.status := Stopped;
        return Stopped;
      }
      status := SendNext(job);
    }

    /** The pause has expired: a fresh job with both counters at zero takes over the rest of the list. */
    method Resume(job: DispatchJob) returns (next: DispatchJob)
      requires job.Valid() && job.status == Paused
      modifies job
      ensures fresh(next) && next.Valid() && job.Valid()
      ensures next.clientIndex == job.clientIndex && next.message == job.message
      ensures next.numbers == old(job.numbers[job.index..])
      ensures next.index == 0 && next.messageCount == 0 && next.status == Ticking
      ensures next.Pending(messagesBeforePause) == old(job.Pending(messagesBeforePause))
      ensures next.Rest() == old(job.Rest())
      ensures job.messageCount == 0 && job.index == old(job.index) && job.status == Paused
    {
      job.messageCount := 0;
      next := new DispatchJob(job.clientIndex, job.numbers[job.index..], job.message);
    }

    /**
     * One timer event of a client's job: the end of its pause starts the continuation, otherwise
     * its interval ticks. The events still to come and the transcripts they will produce are
     * the same before and after, and the job moves on (fewer numbers left, or a lower status rank).
     */
    method Step(job: DispatchJob) returns (next: DispatchJob)
      requires registry.Valid() && job.Valid() && job.status != Stopped
      requires 0 <= job.clientIndex < |clientNumbers|
      modifies this, job, registry
      ensures next == job || fresh(next)
      ensures registry.Valid() && next.Valid()
      ensures next.clientIndex == job.clientIndex && next.message == job.message
      ensures old(registry.ClientsBelow(|clientNumbers|)) ==> registry.ClientsBelow(|clientNumbers|)
      ensures log + next.Pending(messagesBeforePause) == old(log + job.Pending(messagesBeforePause))
      ensures Deliver(registry.Transcripts(), next.Rest(), Message(SENT, job.message))
           == Deliver(old(registry.Transcripts()), old(job.Rest()), Message(SENT, job.message))
      ensures |next.numbers| - next.index < old(|job.numbers| - job.index)
           || (|next.numbers| - next.index == old(|job.numbers| - job.index) && StatusRank(next.status) < old(StatusRank(job.status)))
      ensures HeadersKept(old(registry.conversations), registry.conversations)
      ensures NewOwnedBy(old(registry.conversations), registry.conversations, job.clientIndex, clientNumbers[job.clientIndex])
      ensures Enrolled(registry.order, next.Rest()) == Enrolled(old(registry.order), old(job.Rest()))
    {
      if job.status == Paused {
        next := Resume(job);
      } else {
        var _ := Tick(job);
        next := job;
      }
    }

    /** The interval and pause timers of one client driven to the end: ticks, pauses and continuations. */
    method RunJob(job: DispatchJob)
      requires registry.Valid() && job.Valid() && job.status == Ticking
      requires 0 <= job.clientIndex < |clientNumbers|
      modifies this, job, registry
      ensures registry.Valid()
      ensures old(registry.ClientsBelow(|clientNumbers|)) ==> registry.ClientsBelow(|clientNumbers|)
      ensures log == old(log) + old(job.Pending(messagesBeforePause))
      ensures registry.Transcripts() == Deliver(old(registry.Transcripts()), old(job.Rest()), Message(SENT, job.message))
      ensures HeadersKept(old(registry.conversations), registry.conversations)
      ensures NewOwnedBy(old(registry.conversations), registry.conversations, job.clientIndex, clientNumbers[job.clientIndex])
      ensures registry.order == Enrolled(old(registry.order), old(job.Rest()))
    {
      ghost var conversations0, order0 := registry.conversations, registry.order;
      var current := job;
      while current.status != Stopped
        invariant current == job || fresh(current)
        invariant registry.Valid() && current.Valid()
        invariant current.clientIndex == job.clientIndex && current.message == job.message
        invariant old(registry.ClientsBelow(|clientNumbers|)) ==> registry.ClientsBelow(|clientNumbers|)
        invariant log + current.Pending(messagesBeforePause) == old(log) + old(job.Pending(messagesBeforePause))
        invariant Deliver(registry.Transcripts(), current.Rest(), Message(SENT, job.message))
               == Deliver(old(registry.Transcripts()), old(job.Rest()), Message(SENT, job.message))
        invariant HeadersKept(conversations0, registry.conversations)
        invariant NewOwnedBy(conversations0, registry.conversations, job.clientIndex, clientNumbers[job.clientIndex])
        invariant Enrolled(registry.order, current.Rest()) == Enrolled(order0, old(job.Rest()))
        decreases |current.numbers| - current.index, StatusRank(current.status)
      {
        ghost var before := registry.conversations;
        current := Step(current);
        HeadersCompose(conversations0, before, registry.conversations, job.clientIndex, clientNumbers[job.clientIndex]);
      }
      assert current.Rest() == [];
    }

    /** One `sendReply` timer: send `reply` through the conversation's client, then append `Enviado` to it. */
    method ReplyTo(convo: Conversation, reply: string)
      requires registry.Valid() && convo.recipientNumber in registry.conversations
      modifies this, registry
      ensures registry.Valid() && registry.order == old(registry.order) && registry.counter == old(registry.counter)
      ensures registry.conversations.Keys == old(registry.conversations.Keys)
      ensures old(registry.ClientsBelow(|clientNumbers|)) ==> registry.ClientsBelow(|clientNumbers|)
      ensures log == old(log) + [Send(convo.clientIndex, Address(convo.recipientNumber), reply)]
      ensures registry.Transcripts() == Appended(old(registry.Transcripts()), convo.recipientNumber, Message(SENT, reply))
      ensures HeadersKept(old(registry.conversations), registry.conversations)
    {
      log := log + [Send(convo.clientIndex, Address(convo.recipientNumber), reply)];
      ghost var before := registry.conversations;
      registry.AddMessageTo(convo.recipientNumber, SENT, reply);
      if ClientsWithin(before, |clientNumbers|) {
        AddedClients(before, convo.recipientNumber, SENT, reply, |clientNumbers|);
      }
      AddedHeaders(before, convo.recipientNumber, SENT, reply);
      TranscriptsOfUpdate(before, convo.recipientNumber, AddMessage(before[convo.recipientNumber], SENT, reply));
    }

    /**
     * The timer of the `k`-th conversation, once the earlier ones have fired: the log and the
     * transcripts move from the first `k` replies to the first `k + 1`.
     */
    method ReplyNext(conversations: seq<Conversation>, k: nat, reply: string,
                     ghost log0: seq<Event>, ghost transcripts0: map<string, seq<Message>>,
                     ghost conversations0: map<string, Conversation>)
      requires registry.Valid() && k < |conversations| && conversations[k].recipientNumber in registry.conversations
      requires log == log0 + ReplySends(conversations[..k], reply)
      requires registry.Transcripts() == Deliver(transcripts0, Recipients(conversations[..k]), Message(SENT, reply))
      requires HeadersKept(conversations0, registry.conversations)
      modifies this, registry
      ensures registry.Valid() && registry.order == old(registry.order) && registry.counter == old(registry.counter)
      ensures registry.conversations.Keys == old(registry.conversations.Keys)
      ensures old(registry.ClientsBelow(|clientNumbers|)) ==> registry.ClientsBelow(|clientNumbers|)
      ensures log == log0 + ReplySends(conversations[..k + 1], reply)
      ensures registry.Transcripts() == Deliver(transcripts0, Recipients(conversations[..k + 1]), Message(SENT, reply))
      ensures HeadersKept(conversations0, registry.conversations)
    {
      var convo := conversations[k];
      ghost var before := registry.conversations;
      ReplyTo(convo, reply);
      HeadersCompose(conversations0, before, registry.conversations, 0, []);
      ReplyStep(conversations, k, reply);
      Regroup(log0, ReplySends(conversations[..k], reply), [Send(convo.clientIndex, Address(convo.recipientNumber), reply)]);
      DeliverSnoc(transcripts0, Recipients(conversations[..k]), convo.recipientNumber, Message(SENT, reply));
    }

    /**
     * `sendReply`: the k-th conversation is scheduled `k * delayBetweenMessagesMs` after the call;
     * the timers fire in that order, each sending through the conversation's own client and then
     * appending one `Enviado` to that conversation.
     */
    method SendReply(conversations: seq<Conversation>, reply: string) returns (delays: seq<int>)
      requires registry.Valid()
      requires forall k :: 0 <= k < |conversations| ==>
        0 <= conversations[k].clientIndex < |clientNumbers| && conversations[k].recipientNumber in registry.conversations
      modifies this, registry
      ensures registry.Valid() && registry.order == old(registry.order) && registry.counter == old(registry.counter)
      ensures registry.conversations.Keys == old(registry.conversations.Keys)
      ensures old(registry.ClientsBelow(|clientNumbers|)) ==> registry.ClientsBelow(|clientNumbers|)
      ensures |delays| == |conversations|
      ensures forall k :: 0 <= k < |delays| ==> delays[k] == k * delayBetweenMessagesMs
      ensures log == old(log) + ReplySends(conversations, reply)
      ensures registry.Transcripts() == Deliver(old(registry.Transcripts()), Recipients(conversations), Message(SENT, reply))
      ensures HeadersKept(old(registry.conversations), registry.conversations)
    {
      delays := seq(|conversations|, k => k * delayBetweenMessagesMs);
      ghost var log0, transcripts0, conversations0 := log, registry.Transcripts(), registry.conversations;
      ghost var order0, counter0, owned0 := registry.order, registry.counter, registry.ClientsBelow(|clientNumbers|);
      assert conversations[..0] == [];
      var k := 0;
      while k < |conversations|
        invariant 0 <= k <= |conversations|
        invariant registry.Valid() && registry.order == order0 && registry.counter == counter0
        invariant owned0 ==> registry.ClientsBelow(|clientNumbers|)
        invariant log == log0 + ReplySends(conversations[..k], reply)
        invariant registry.Transcripts() == Deliver(transcripts0, Recipients(conversations[..k]), Message(SENT, reply))
        invariant HeadersKept(conversations0, registry.conversations)
      {
        ReplyNext(conversations, k, reply, log0, transcripts0, conversations0);
        k := k + 1;
      }
      assert conversations[..k] == conversations;
      HeadersKeptKeys(conversations0, registry.conversations);
    }
  }
}
