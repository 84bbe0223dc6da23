# Device buy-back intake bot — verified model

A Dafny model of the logic in `main.py` of a Telegram bot that collects a
device-sale request through a fixed seven-question dialogue. The bot keeps
one in-memory conversation per user, appends each completed request to a
`requests` table, notifies the administrator, and lets the administrator list
the newest requests.

The model is a pure transition system:
`Bot.Step(World(states, store), event) -> Transition(states', store', outputs)`.

- `common.dfy` (`Common`): `Option`, user ids, photo file ids (non-empty
  strings), and Python truthiness of an optional string.
- `questions.dfy` (`Questions`): the question table. Its keys form an
  enumeration `Key`, and `Name` gives each key's spelling in the source.
  `NameInjective` shows that comparing keys is the same as comparing those
  strings. The photo step's answer is stored under `photo_id`, not `photo`.
- `store.dfy` (`RequestStore`): the `requests` table as a sequence of rows.
  `Save` assigns AUTOINCREMENT ids. `AllByIdDesc` is `ORDER BY id DESC`,
  written as an insertion sort. `ListRecent` is the `[:10]` slice.
- `outputs.dfy` (`Outputs`): outgoing messages as abstract tokens.
- `conversation.dfy` (`Conversation`): the `user_state` map, `start_request`
  and `process_answer`.
- `admin.dfy` (`Admin`): `list_requests`, gated on `ADMIN_ID` = 167372100.
- `bot.dfy` (`Bot`): events, `Step`, `Run` over event sequences, and the
  end-to-end conversation lemmas.

Behaviour the model keeps as written:

- The cancel button has no handler. Its label is an ordinary text answer at
  a text step and is refused at the photo step.
- A photo sent at a text step is accepted. The recorded answer is `None`,
  because a photo message has no text.
- Pressing start in the middle of a conversation silently discards it.

`ProcessAnswer` requires that the caller's entry, if there is one, is well
formed. That means its step indexes the question table and the answers to
all earlier questions are present. This is a sufficient condition, not the
exact need. `questions[step]` (main.py:123) needs only the step bound. The
summary's `data['…']` lookups at the last step (main.py:146-151) need only
`device`, `memory`, `battery`, `kit` and `defects`. `urgency` is written by
that same answer, and `photo_id` is read with `.get` (main.py:155), which
cannot fail. `Step` proves that every handler preserves the condition, and
`Bot.Run` proves it for any event sequence. So every world reachable from
start-up satisfies it. At start-up there are no conversations, but the
table may hold rows from earlier runs, because `requests.db` persists
(main.py:40-45).

## Model

| member | source | states |
|---|---|---|
| Questions.NameInjective | main.py:92-100 | the seven question keys and `photo_id` are pairwise distinct strings, so the enumeration models the string keys exactly |
| Questions.SummaryKeysAnswered | main.py:143-155 | once the first six questions are answered, every key the completion summary reads with `[]` is present, except `urgency`, which the final answer itself writes just before: `device`, `memory`, `battery`, `kit` and `defects`. `photo_id`, which the photo lookup reads with `.get`, is present as well |
| Questions.KeysBeforeNext | main.py:129-135 | answering question n adds exactly its stored key (`photo_id` for the photo step) to the set of answered keys |
| RequestStore.MaxId | main.py:45 | the AUTOINCREMENT high-water mark: it bounds every id in the table and is one of them (0 for an empty table) |
| RequestStore.Save | main.py:62-80 | appending a request adds exactly one row at the end, leaves earlier rows unchanged, stores the request as given, and its id is at least 1 and greater than every existing id |
| RequestStore.SavePreservesOrder | main.py:45 | ids stay strictly increasing in insertion order after any save |
| RequestStore.AllByIdDesc | main.py:82-88 | the `ORDER BY id DESC` result is a permutation of the table whose ids never increase |
| RequestStore.AllByIdDescStrict | main.py:85 | when ids are distinct the descending result is strictly descending |
| RequestStore.ListRecent | main.py:171-176 | `rows[:10]` has `min(10, n)` rows, all from the table, in non-increasing id order |
| RequestStore.ListRecentIsNewest | main.py:171-176 | a row left out of the listing is never newer than a listed row |
| RequestStore.ListRecentOrderAndCoverage | main.py:171-176 | with distinct ids the listing is strictly newest first; with at most `limit` rows every row is listed |
| Conversation.StartRequest | main.py:111-114 | the user's entry becomes step 0 with no answers, overwriting any conversation in progress; other users' entries and the table are unchanged; only the first prompt is sent |
| Conversation.ProcessAnswer | main.py:116-163 | an idle user changes nothing and gets nothing; a non-photo at the photo step changes nothing and gets only the warning; other users are untouched; a non-final accepted answer advances the step by one, records the answer (under `photo_id` at the photo step) and sends the next prompt, with the table unchanged; the final answer appends exactly one row built from the answers, with an id above all earlier ones, sends the admin the summary of that row, then the photo exactly when the row's `photo_id` is truthy, then the acknowledgement, and removes the user's entry |
| Conversation.ProcessAnswerKeepsInvariant | main.py:122-135 | every entry stays well formed (step < 7, earlier answers present); reachable entries hold exactly the earlier questions' keys and a non-empty photo reference |
| Conversation.AcceptedAnswerAdvances | main.py:122-136 | an accepted answer to a question other than the last moves the user to the next step, stores the answer under that question's stored key (`photo_id` at the photo step), sends only the next prompt and leaves the table and other users alone |
| Conversation.ProcessAnswerKeepsIdOrder | main.py:137-142 | an answer never breaks the increasing order of ids in the table, including when it saves a row |
| Conversation.CancelIsAnAnswer | main.py:125-131 | the cancel label is refused at the photo step, and at any other step is recorded as the answer and advances the conversation, to completion at the last step |
| Conversation.PhotoAtTextStepRecordsNone | main.py:130-163 | a photo at a text step records `None` as the answer. Before the last step it advances the step and sends the next prompt; at the last step it saves the request with `urgency` = `None` and ends the conversation |
| Admin.ListingMessages | main.py:176-191 | one message per row in order, sent as a photo with caption exactly when the row's `photo_id` is truthy, otherwise as text |
| Admin.ListRequests | main.py:165-176 | a non-admin caller gets only the denial; the admin gets only "no requests" on an empty table, otherwise `min(10, n)` messages |
| Admin.DeniedReadsNothing | main.py:167-169 | a denied caller's reply is the same whatever the table holds, so the table is not read |
| Admin.ListingContents | main.py:176-191 | every listed message goes to the admin, shows a row of the table, is a photo exactly when that row has a photo, and ids never increase along the listing |
| Admin.ListingRows | main.py:171-176 | the admin's listing shows exactly the rows of `ListRecent(store, 10)`, in order |
| Admin.ListingShowsNewest | main.py:171-176 | no row left out of the admin's listing is newer than any listed row |
| Admin.ListingNewestFirst | main.py:171-176 | on a table that `save_request` built, the listing is strictly newest first, and all rows are listed when there are at most ten |
| Admin.ListingListsAll | main.py:171-191 | when the table holds at most ten rows, the admin receives one message per row and every row of the table appears in one of them |
| Bot.Step | main.py:111-176 | each handler keeps every entry well formed and keeps the reachable-world invariant; the table only grows, by at most one row, and old rows are kept; a row is written only by the answer to the last question; an answer from an idle user changes nothing and sends nothing; listing is read-only |
| Bot.Run | main.py:111-176 | over any event sequence the table is append-only and the invariants are kept |
| Bot.ReachableIsValid | main.py:40-45 | every world reachable from start-up keeps the invariant, so `questions[step]` is always in bounds. Start-up means no conversations and any table with increasing ids left by earlier runs |
| Bot.StartOpens | main.py:111-114 | pressing start opens an empty conversation at step 0 and sends prompt 0 |
| Bot.AnswerAdvances | main.py:122-136 | an accepted answer to question k-1 moves a user holding the earlier answers to question k |
| Bot.PartialConversation | main.py:111-136 | after start and k accepted answers, the user is at step k with exactly those answers, has received prompts 0..k, and the table is unchanged |
| Bot.PartialConversationStep | main.py:122-136 | one more accepted answer extends a partial conversation by one question and one prompt |
| Bot.DataAfterKeys | main.py:129-131 | after k answers the stored keys are exactly those of the first k questions |
| Bot.DataAfterLookup | main.py:129-131 | after k answers each earlier question's answer can be read back under its stored key |
| Bot.SubmittedIsRecorded | main.py:62-78 | the row saved for seven answers holds device, photo_id, memory, battery, kit, defects and urgency equal to the answers in question order |
| Bot.LastAnswerSubmits | main.py:137-163 | the last answer appends the submitted row, sends the admin its summary and its photo, acknowledges, and ends the conversation |
| Bot.CompleteConversation | main.py:111-163 | start followed by seven accepted answers appends exactly one row whose fields are the answers in question order, with an id above all earlier ones; the user receives prompts 0..6 and then the acknowledgement; the admin receives the summary and the photo, which is always sent because the photo step is mandatory; the user's conversation is removed |

## Left out

- Routing (main.py:104-116, 165): handlers are invoked directly through `Bot.Event`. Which aiogram handler receives a message is decided by the framework, not modelled here. aiogram tries handlers in registration order. The start button's text therefore goes to `start_request`, even during a conversation. `process_answer`'s `F.text | F.photo` filter is registered before `Command("list")` and matches the `/list` text. It returns normally for an idle user, so in the running bot `/list` never reaches `list_requests`. During a conversation it is taken as an answer. At a text step it is recorded, and at the last step it completes the request. At the photo step it is refused with the photo warning. `Bot.ListCommand` models `list_requests` as written, as if it were reached.
- The `/start` welcome handler (main.py:104-109): it only sends a greeting and touches no state.
- SQLite connections, SQL text, commit and close (main.py:40-88): the table is an in-memory sequence. Storage and transport failures, which abort the in-flight handler, are not modelled.
- Message texts, emoji, keyboards and the summary/caption formatting, including `username or user_id` (main.py:23-37, 106-109, 143-152, 178-187): outputs are abstract tokens that carry the fields.
- The bot token, logging, polling and start-up (main.py:11-20, 194-198).
- Chat ids: every reply goes to `message.chat.id`. That covers the `message.answer` calls (main.py:114, 127, 136, 159, 168, 173, 191) and the listing photo (main.py:189). The model addresses these replies (`Prompt`, `PhotoWarning`, `Ack`, `Denied`, `NoRequests`, `ListedWithPhoto`, `ListedAsText`) to the user who sent the message. The two are the same in a private chat. The admin notifications go to `ADMIN_ID` (main.py:154, 157).
- Concurrency (main.py:195): `start_polling` handles each update in its own task, so handlers can interleave at every `await`. The model assumes each event runs to completion before the next one. In the source, a second answer during the last step's notifications (main.py:154-161) can save a duplicate row. The entry is still at the last step until `user_state.pop` (main.py:163) runs. The second answer overwrites `urgency` and notifies the admin again.
