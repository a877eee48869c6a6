# whatsapp-bulk-messenger: a verified model of the dispatch and correlation layer

whatsapp-bulk-messenger sends one configured message to a list of phone numbers through several
WhatsApp accounts at once. The numbers are split as evenly as possible over the accounts,
and each account works through its share on an interval timer. After `messagesBeforePause`
sends it stops for a pause and then goes on with the rest of its list. Every outbound and
inbound message is recorded in a conversation keyed by the bare phone number. The operator
can later reply to chosen conversations by id; those replies are staggered by
`delayBetweenMessagesMs`.

This project models that layer in Dafny and proves what it promises:

- `Conversations` holds the conversation record and the registry (`ConversationManager`):
  - get-or-create keyed by number, with ids handed out from a running counter;
  - lookup by ids;
  - listing in insertion order;
  - the registry invariant: one record per number, ids 1..size in creation order, and `counter == size + 1`.
- `Dispatch` holds the paced dispatcher (`MessageService`):
  - one `DispatchJob` per client, with the closure state of `sendMessagesFromClient` (list, cursor, quota counter);
  - the interval tick, the pause and its continuation;
  - the staggered replies.

  Every send through a client is appended to a ghost event log. The specification function
  `Window` is the exact event trace of a job and its continuations, and the lemmas prove
  three things about it: every number gets exactly one send, in order; no burst between
  pauses exceeds the quota; the pause falls exactly where the quota is met.
- `Application` holds the rest of `Application`:
  - the checks `run` makes on `numbers` and `message`, including `String.prototype.trim`;
  - `divideEqually`;
  - `handleIncomingMessage`, with the sender-number extraction and its round trip with the outbound address;
  - `processReply`.
- `Wrappers` holds `Option` and `Result`.

The repository contains the same code twice: split into files under `src/`, and as the single
file `whatsapp-bulk-messenger.js`. The two agree statement for statement, so one set of members
models both. The table cites the `src/` copy; the single-file copy's ranges map as follows:

- `Conversation`: 165-176, the same as `src/conversations/Conversation.js:3-14`.
- `ConversationManager`: 190-212, the same as `src/conversations/ConversationManager.js:9-31`.
- `MessageService`: 226-284. `sendMessages` is at 233-239, the tick at 241-272 and `sendReply` at 274-283.
- `Application.run`: 369-408, with its checks at 380-392.
- `divideEqually`: 410-424.
- `handleIncomingMessage`: 426-443.
- `processReply`: 445-453.

`src/clients/Conversation.js` is an identical, unreferenced duplicate of `Conversation`, and the
same two functions model it.

Timers are explicit steps:
- `Tick` is one firing of the interval and `Resume` is the expiry of a pause.
- `Step` is either one, and `RunJob` drives a job to its end.
- `SendReply` fires its reply timers in the order of their delays.

The transport is `Send` events on the log. `WhatsAppClient.sendMessage` catches its own errors
(`src/clients/WhatsAppClient.js:61-69`), so a send never fails, and the tick always goes on to
append `Enviado`.

## Model

| member | source | states |
|---|---|---|
| Conversations.NewConversation | src/conversations/Conversation.js:4-10 | a new conversation holds the four header arguments and no messages |
| Conversations.AddMessage | src/conversations/Conversation.js:12-14 | exactly one `{direction, content}` is added at the end; earlier entries and all header fields are unchanged |
| Conversations.Find | src/conversations/ConversationManager.js:25 | `find` returns a listed record with the requested id, and misses exactly when no record has it |
| Conversations.LookupMany | src/conversations/ConversationManager.js:25 | `map(find).filter`: no more results than ids, each a listed record whose id is among the ids |
| Conversations.LookupManyConcat | src/conversations/ConversationManager.js:25 | looking up `a + b` is looking up `a` then `b`: the output follows the order of the ids |
| Conversations.LookupManyEmpty | src/conversations/ConversationManager.js:25 | the lookup is empty iff every id misses |
| Conversations.FindNumbered | src/conversations/ConversationManager.js:24-25 | in a list with consecutive ids, `find` hits exactly the ids in range, at the position the id gives |
| Conversations.UpdateKeepsNumbered | src/conversations/ConversationManager.js:15-21 | changing a record's messages in place keeps the registry invariant and its key set |
| Conversations.InsertKeepsNumbered | src/conversations/ConversationManager.js:16-18 | inserting a new number with id `counter` at the end of the insertion order keeps the registry invariant for `counter + 1` |
| Conversations.RecordedTranscripts | src/services/MessageService.js:41-42 | get-or-create then `addMessage` appends the message to that number's transcript (a new number starts empty) and to no other |
| Conversations.RecordedClients | src/Application.js:90-91 | recording through an existing client keeps every conversation owned by an existing client |
| Conversations.AddedClients | src/services/MessageService.js:63 | appending to a registered conversation keeps every conversation owned by an existing client |
| Conversations.ConversationManager.constructor | src/conversations/ConversationManager.js:10-13 | a fresh registry is empty, with `counter == 1`, and satisfies the invariant |
| Conversations.ConversationManager.GetConversation | src/conversations/ConversationManager.js:15-21 | on a hit nothing changes and the existing record is returned, the passed client data ignored; on a miss one record with id `old counter`, the given header and no messages is added, and the counter and order grow by one; the invariant is kept |
| Conversations.ConversationManager.AddMessageTo | src/services/MessageService.js:63 | `addMessage` on a registered record: only that record changes, as `AddMessage` says; keys, order, counter and invariant are kept |
| Conversations.ConversationManager.Record | src/services/MessageService.js:41-42 | get-or-create, then `addMessage` on the record it returns: the counter grows exactly on a miss, and the transcripts gain the message at that number only |
| Conversations.ConversationManager.AllConversations | src/conversations/ConversationManager.js:28-30 | one entry per registered number, in insertion order; the i-th has id i + 1 |
| Conversations.AllConversationsComplete | src/conversations/ConversationManager.js:28-30 | every registered record is listed, at the position its id gives |
| Conversations.ConversationManager.ConversationsByIds | src/conversations/ConversationManager.js:23-26 | every result is the registered record of its own number, with an id among the ids |
| Conversations.ConversationById | src/conversations/ConversationManager.js:23-26 | a single id yields the record created id-th, or nothing when it is out of 1..size |
| Conversations.ConversationsByIdsConcat | src/conversations/ConversationManager.js:23-26 | lookups of a concatenation concatenate, so order is kept, misses are dropped and repeated ids give repeated records |
| Conversations.ConversationsByIdsEmpty | src/conversations/ConversationManager.js:23-26 | the lookup is empty iff no id lies in 1..size |
| Conversations.ConversationsByIdsClients | src/services/MessageService.js:62 | the records a lookup returns belong to existing clients, so `clients[convo.clientIndex]` exists |
| Dispatch.Quota | src/services/MessageService.js:48 | the largest burst between pauses: `messagesBeforePause`, or 1 when that is below 1 (the check is `>=` after the increment) |
| Dispatch.Window | src/services/MessageService.js:26-57 | the trace of a job from a given count: one send per number, at most one pause after each, so between `n` and `2n` events for `n` numbers |
| Dispatch.Schedule | src/services/MessageService.js:26-57 | the trace of a fresh job: exactly one send per number, in order, and no burst between pauses above the quota |
| Dispatch.Address | src/services/MessageService.js:37 | the address is the bare number followed by `@c.us`, so the number is its prefix of the same length |
| Dispatch.WindowDeliversAll | src/services/MessageService.js:26-57 | across a job and all its continuations the sends are exactly one per number, in order, to `number + '@c.us'` |
| Dispatch.WindowBursts | src/services/MessageService.js:26-57 | no more than `Quota(messagesBeforePause)` sends happen between consecutive pauses |
| Dispatch.WindowPausesAtQuota | src/services/MessageService.js:45-54 | with enough numbers left, the job sends until the quota, pauses, and the continuation starts afresh on the next number |
| Dispatch.WindowFinishesBelowQuota | src/services/MessageService.js:30-47 | with fewer numbers left than the quota allows, the job sends them all and never pauses |
| Dispatch.DeliverAt | src/services/MessageService.js:36-46 | after a job, each number's transcript is its old one followed by one `Enviado` per occurrence of the number in the list |
| Dispatch.DeliverSnoc | src/services/MessageService.js:59-67 | delivering to one more conversation appends the message to its transcript last |
| Dispatch.EnrolledKeeps | src/conversations/ConversationManager.js:15-21 | get-or-create over a list keeps the old insertion order as a prefix and registers exactly the old numbers and those of the list |
| Dispatch.EnrolledDistinct | src/conversations/ConversationManager.js:16-18 | a number is never added to the insertion order twice |
| Dispatch.EnrolledConcat | src/conversations/ConversationManager.js:15-21 | get-or-create over `a + b` is get-or-create over `a`, then over `b`, so new numbers are added in order of first use |
| Conversations.NumberedKeys | src/conversations/ConversationManager.js:16-18 | under the registry invariant a number is in the map exactly when it is in the insertion order |
| Dispatch.Burst | src/services/MessageService.js:36-49 | what one live tick logs: the send to the number, then a pause exactly when the quota was reached |
| Dispatch.WindowStep | src/services/MessageService.js:36-54 | a job's trace is its first burst followed by the trace of the rest, with the counter reset after a pause or advanced otherwise |
| Dispatch.ReplySends | src/services/MessageService.js:59-67 | the k-th reply goes through the conversation's own client to its recipient's address |
| Dispatch.DispatchJob.constructor | src/services/MessageService.js:26-28 | a new job starts at index 0 with count 0, ticking |
| Dispatch.DispatchJob.Advance | src/services/MessageService.js:45-49 | both counters grow by one and the interval is cleared once `messageCount >= messagesBeforePause`; the pending trace loses exactly one burst and the remaining list its first number |
| Dispatch.MessageService.constructor | src/services/MessageService.js:12-16 | the service holds the clients, the shared registry and the pacing settings, with an empty log |
| Dispatch.MessageService.SendMessages | src/services/MessageService.js:18-24 | one fresh job per client `i`, over `numbersPerClient[i]`, at the start of its list |
| Dispatch.MessageService.SendNext | src/services/MessageService.js:36-55 | a live tick logs one send to `numbers[index] + '@c.us'` (then a pause when the quota is reached), records `Enviado` in that number's conversation unconditionally, and advances both counters; the log plus what is still pending is unchanged; no existing header changes and a new record belongs to the job's client |
| Dispatch.MessageService.RecordSent | src/services/MessageService.js:39-42 | get-or-create with the client's own number, then `Enviado`: the registry equals `Recorded` of the old one, the invariant and client ownership are kept, no existing header changes and a new record belongs to that client; enrolling the numbers still to come continues from the new insertion order |
| Dispatch.MessageService.Tick | src/services/MessageService.js:30-56 | a tick stops the job iff the list is exhausted, and then logs nothing and leaves the registry, the cursor and the count as they were; otherwise it logs the send and the pause exactly as `SendNext` does, advances both counters, pauses iff the count reached `messagesBeforePause`, and records `Enviado` as `Recorded`; no existing header changes and a new record belongs to the job's client |
| Dispatch.MessageService.Resume | src/services/MessageService.js:51-54 | the pause's end starts a fresh job with both counters zero on `numbers.slice(index)`, with the same pending trace |
| Dispatch.MessageService.Step | src/services/MessageService.js:30-56 | each timer event keeps the log plus pending trace, the eventual transcripts and the eventual insertion order (`Enrolled` of what is left), makes progress, changes no existing header, and creates records only for the job's client |
| Dispatch.MessageService.RunJob | src/services/MessageService.js:26-57 | driving a job to its end logs exactly its pending trace (`Window` of what is left of its list, from its current count), appends one `Enviado` per remaining number to the transcripts, and extends the insertion order by the numbers not yet registered, in order of first send, so with the invariant each new record gets the next id; no existing header changes and every record it creates has the job's `clientIndex` and client number |
| Dispatch.MessageService.ReplyTo | src/services/MessageService.js:61-64 | one reply timer: one send through the conversation's client, then one `Enviado` on that conversation only; keys, order, counter and every record's id, client and numbers are kept |
| Dispatch.MessageService.ReplyNext | src/services/MessageService.js:60-66 | after the k-th timer the log and transcripts are those of the first k + 1 replies, and every record's id, client and numbers are still those it had before the first |
| Dispatch.MessageService.SendReply | src/services/MessageService.js:59-68 | the k-th conversation's delay is `k * delayBetweenMessagesMs`; the log gains one reply per conversation, in order, and each gets one `Enviado`; keys, order, counter, client ownership and every record's id, client and numbers are kept |
| Application.TrimStart | src/Application.js:43 | drops exactly the leading whitespace and line terminators of `trim` |
| Application.TrimEnd | src/Application.js:43 | drops exactly the trailing whitespace and line terminators of `trim` |
| Application.Trim | src/Application.js:43 | the result is no longer than the string and neither starts nor ends with whitespace or a line terminator |
| Application.TrimSlice | src/Application.js:43 | `trim` keeps one contiguous stretch of the string, starting where the leading whitespace ends, and every character before or after it is whitespace or a line terminator |
| Application.TrimEmpty | src/Application.js:43 | a string trims to empty iff all its characters are whitespace or line terminators |
| Application.ValidateConfig | src/Application.js:35-47 | `numbers` missing or empty fails first; then `message` missing or trimming to empty fails; otherwise both values are passed on |
| Application.ValidateConfigAccepts | src/Application.js:35-47 | the configuration is accepted iff there is a number and the message has a character `trim` keeps |
| Application.GroupStartClosed | src/Application.js:66-75 | group i starts at `i * perGroup + min(i, remainder)` |
| Application.GroupStartBound | src/Application.js:66-74 | every group boundary lies inside the list and the last ends exactly at its end |
| Application.GroupSizesBalanced | src/Application.js:72-75 | group sizes never grow along the list and differ by at most one |
| Application.DivideEquallySlices | src/Application.js:71-74 | group i is the slice of the list between consecutive boundaries |
| Application.DivideEqually | src/Application.js:65-79 | `numGroups <= 0` gives `[]`; otherwise exactly `numGroups` groups that concatenate back to the list, group i of size `floor(len / n) + (i < len % n ? 1 : 0)` |
| Application.SenderNumber | src/Application.js:85 | `split('@')[0]`: the longest prefix without `@`, followed by `@` or the end |
| Application.AddressRoundTrip | src/Application.js:85 | for a number without `@`, the sender extracted from `number + '@c.us'` is the number again |
| Application.Application.constructor | src/Application.js:16-22 | a fresh application has an empty registry and no message service |
| Application.Application.Run | src/Application.js:24-63 | fails iff the checks fail, with their error and no service; otherwise a fresh service with the configured pacing and one job per client over `divideEqually(numbers, numAccounts)` |
| Application.Application.HandleIncomingMessage | src/Application.js:81-98 | a non-chat message or a client index with no client changes nothing; a chat message is recorded as `Recibido` in the conversation of the sender's bare number, created for that client if new |
| Application.Application.ProcessReply | src/Application.js:100-108 | when no id matches nothing is sent or changed; otherwise the matched conversations, in id order, get the reply as `SendReply` states; in both cases keys, order, counter and every record's id, client and numbers are kept |

## Left out

- Conversation records are values kept in the registry map, not shared mutable objects. `addMessage` on a record is modelled as the registry replacing that entry (`AddMessageTo`). The model therefore does not capture aliasing of the same record by several holders, or in-place mutation through a record held outside the registry. In the source every holder reaches the record through the registry, so the transcripts come out the same.
- `display()`, `console` and `logger` output: they only read.
- Real timers and time arithmetic. This covers `setInterval`, `setTimeout`, `pauseDurationMinutes * 60 * 1000` and the delay values themselves. Ticks, pause expiry and reply timers are explicit steps, and reply delays are integers.
- Concurrency: overlapping asynchronous ticks when a send outlasts the interval; interleaving of replies with a bulk job; the order in which different clients' timers fire. Each job is modelled as running to its end on its own (`RunJob`).
- Dispatch.MessageService.SendReply: the reply timers fire one after another in the order of their delays, with no other event in between. Equal delays, when `delayBetweenMessagesMs <= 0`, fire in the order the timers were created. Node.js sets any timer delay above 2147483647 ms to 1 ms, so a reply whose `idx * delayBetweenMessagesMs` exceeds that limit fires before the earlier replies; the model does not capture this.
- The WhatsApp transport (`whatsapp-web.js`), QR codes, authentication and the client bring-up in `WhatsAppClientManager`. A send is an event on the ghost log. `getClientInfo().wid.user` is the entry `clientNumbers[i]`, a given string per client.
- The user interface menus (`UserInterface`), and reading and parsing the configuration file. The configuration is a `Config` value. `numbers` is `None` when the JSON value is not an array, and `message` is `None` when it is not a string.
- Elements of `numbers` that are not strings are not modelled; every number is a string.
- `numAccounts`, `messagesBeforePause` and `delayBetweenMessagesMs` are integers in `Config` and `MessageService`. Three behaviours of other JSON values are therefore not modelled:
  - A missing `messagesBeforePause`, or one that converts to NaN (a non-numeric string, an object), makes `messageCount >= messagesBeforePause` false on every tick, so such a job never pauses. Other values compare as the number they convert to: `null` and `false` as 0, `true` as 1, a numeric string such as `"3"` as 3; the model covers them only as that integer.
  - A fractional `messagesBeforePause` pauses after its ceiling.
  - A fractional `numAccounts` gives `ceil(numAccounts)` clients, and `divideEqually` then computes a fractional remainder.
- `process.exit(1)` is the `Failure` result of `Run`. The catch-all around `run` for errors thrown by the client bring-up or the menu is not modelled.
- Application.Application.Run: requires as many client numbers as `max(numAccounts, 0)`. `initializeClients(numAccounts)` creates that many clients before the checks run.
- Application.Application.ProcessReply: requires the message service to exist. The menu that calls it starts only after `run` has created the service.
- Dispatch.MessageService.SendReply: requires every conversation to belong to an existing client and to be registered. An out-of-range `clientIndex` would make the timer throw. `ProcessReply` discharges both conditions from the registry invariant.
- Dispatch.MessageService.Tick: requires the job's client to exist. `sendMessages` only creates jobs for existing clients.
