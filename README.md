# WhatsApp group bot: retry loop, group listing and windowed promotion scheduler

Two Node.js scripts drive a WhatsApp client library. `index.js` waits after the
client is ready, then fetches the chat list with a bounded retry loop and
prints a summary of every group chat. `publicidad.js` starts, for each
configured group, a chain of timed firings: inside the 05:00–22:00 window
(America/Bogota) a firing sends a random caption with a random image and
schedules the next firing 30 to 60 minutes later. Outside the window it sends
nothing and schedules the next firing for a whole number of hours later. When
the client disconnects, every stored timer is cleared.

This project models the logic under those library calls in Dafny:

- `chats.dfy` (module `Chats`): the chat record as the scripts read it.
- `list_groups.dfy` (module `GroupListing`): the projection inside
  `listGroups`, with the error for a failed or non-array fetch, the group
  filter and the id, name and participant-count fallbacks.
- `retry.dfy` (module `GetChatsRetry`): `tryGetChatsWithRetries`. The class
  `GetChatsRunner` holds the two module-level variables. Its loop is proved
  equal to the function `RunFrom`, which gives the event log (attempts, sleeps
  of 5000 ms, the final "max retries" report) and the final counters. The
  lemmas give exact logs and counts for "first success on attempt k" and
  "every attempt fails", and show that a second call makes no attempt.
- `schedule.dfy` (module `Schedule`): the window test, `Math.floor(r * n)`
  picks, the reschedule interval, the out-of-window delay (as written and
  corrected), the `.jpg`/`.png` filter, one whole firing as the function
  `Step`, and the `ready` handler's choice of target chats.
- `timer_table.dfy` (module `TimerTable`): the class `Timers` with the
  `timers` object and the runtime's set of live timers. It has the firing
  that writes one entry, a timer firing, and the `disconnected` loop that
  clears every stored timer but keeps the keys.

Inputs replace the environment:

- The library's answer to the n-th `getChats()` call is `fetches[n - 1]`.
- The hour in the America/Bogota time zone is an integer from 0 to 23.
- Each `Math.random()` value is an exact fraction `num / den` in [0, 1).
- The result of reading the image folder is a `Listing`.
- Whether loading the image and sending it succeed is a boolean.
- Sleeps and timers are recorded delays. Nothing waits.

Where the scripts differ from what their names and comments suggest:

- Before 05:00 the code waits until 22:00, not until 05:00. Here the model
  does not follow the code: `AsWrittenOutOfWindowDelay` keeps the code's delay
  and the lemmas about it show the skipped window, while `Schedule.Step`,
  `Timers.SendRandomMessage` and `Timers.Fire` use the corrected delay to
  05:00. See Findings.
- Storing a new timer for a chat does not clear the timer it replaces.
  `Timers.SendRandomMessage` keeps the replaced timer live. A chain stays
  single only when the chat had no live timer before, which is the condition
  in its last `ensures`. The model follows the code here.
- `tryGetChatsWithRetries` returns no outcome value. Success and exhaustion
  show only in the counters and the log.

## Model

| member | source | states |
|---|---|---|
| `GroupListing.ListGroups` | index.js:104-149 | The result is an error exactly when the fetch was rejected (the message is kept) or returned a non-array (its type is kept). Otherwise there is one summary per group chat, in input order, and every summary has a non-empty name |
| `GroupListing.Groups` | index.js:122 | The group filter never yields more chats than it is given |
| `GroupListing.GroupsMembers` | index.js:122 | A chat is kept by the group filter if and only if it is in the input and its `isGroup` flag is true |
| `GroupListing.GroupsAppend` | index.js:122 | The filter distributes over concatenation, so the kept chats stay in input order |
| `GroupListing.GroupsOfGroupsOnly` | index.js:122 | A list made only of groups is kept whole: one entry per group |
| `GroupListing.GroupsOfNoGroups` | index.js:122-128 | A list with no group yields no entries |
| `GroupListing.SummaryId` | index.js:132 | The id is `_serialized` when that is truthy, else the rendered id when there is an id, else "sin-id" |
| `GroupListing.SummaryName` | index.js:133 | The name is the first truthy one of `name` and `formattedTitle`, else "Sin nombre". It is never empty |
| `GroupListing.ParticipantsCount` | index.js:134 | The count is defined if and only if `participants` is an array, and then it equals the array's length |
| `GroupListing.Summarize` | index.js:131-138 | A summary's name is non-empty, and its participant count is present exactly when the chat's participants form an array |
| `GetChatsRetry.Succeeds` | index.js:82-83 | An attempt succeeds, and the success flag is set, exactly when `getChats()` returned an array |
| `GetChatsRetry.RunFrom` | index.js:78-97 | One call of the runner never lowers the counter and always ends with the loop guard false. With the guard already false it makes no call and changes nothing. Otherwise its first event is the next attempt and the counter ends at most at 5 |
| `GetChatsRetry.RunBounded` | index.js:78-97 | The attempt counter never exceeds 5 and only grows. The log holds one call per counted attempt. The loop stops only on success or after 5 attempts |
| `GetChatsRetry.NoRestart` | index.js:20-21 | The counters are never reset, so calling the runner again after it stops makes no call and changes nothing |
| `GetChatsRetry.SucceedsAt` | index.js:78-96 | If attempts a+1..k-1 fail and attempt k succeeds, the log is those failures, each followed by one 5000 ms sleep, then attempt k. The final state is (k, success) |
| `GetChatsRetry.FirstSuccessCounts` | index.js:78-96 | From the start, a first success on attempt k ≤ 5 gives exactly k calls and k-1 sleeps, ends the log with attempt k, and sets the success flag |
| `GetChatsRetry.AllFailFrom` | index.js:88-95 | If every remaining attempt fails, each failure but the last is followed by a sleep, and the last is followed by the terminal report |
| `GetChatsRetry.AllFailCounts` | index.js:88-95 | From the start, always failing gives exactly 5 calls and 4 sleeps. The terminal report comes last, with no sleep after the fifth failure |
| `GetChatsRetry.FailedAttemptsCounts` | index.js:90-92 | A run of failed attempts from a+1 to b holds b-a calls and b-a sleeps |
| `GetChatsRetry.GetChatsRunner.TryGetChatsWithRetries` | index.js:77-98 | The loop over the two fields produces exactly the log and the final counters given by `RunFrom` from the old counters |
| `GetChatsRetry.GetChatsRunner.constructor` | index.js:20-21 | Both counters start at zero attempts and no success |
| `Schedule.InWindow` | publicidad.js:64 | The sending window lies inside one day and never wraps past midnight |
| `Schedule.RandomIndex` | publicidad.js:77 | `floor(r * len)` for r in [0, 1) lies in [0, len) whenever len > 0. This holds for the caption pick and the image pick |
| `Schedule.RandomIndexOnto` | publicidad.js:65 | Every index below len is produced by some draw |
| `Schedule.RandomInterval` | publicidad.js:88 | The in-window delay is an integer from 1 800 000 to 3 600 000 ms, both ends included |
| `Schedule.RandomIntervalOnto` | publicidad.js:88 | Every delay in that range is produced by some draw |
| `Schedule.AsWrittenOutOfWindowDelay` | publicidad.js:92-93 | As written, the out-of-window delay is a whole number of hours under a day and lands exactly on the target hour: 22:00 before 22:00, 05:00 after |
| `Schedule.AsWrittenDelayValues` | publicidad.js:92-93 | As written, the out-of-window delay is (22 - hour) h for hours 0..4, so 18 to 22 h. It is 7 h at 22 and 6 h at 23, and it is never zero |
| `Schedule.AsWrittenSkipsWindow` | publicidad.js:92-94 | As written, a firing before 05:00 waits until 22:00, passing 05:00. The firing at 22:00 is again outside the window and waits 7 h more, so more than a day passes with no in-window firing. From 02:00 the first wait is 20 h |
| `Schedule.AsWrittenAgreesLate` | publicidad.js:92-93 | The as-written and corrected delays agree if and only if the hour is 22 or later |
| `Schedule.OutOfWindowDelay` | publicidad.js:90-94 | The corrected out-of-window delay is a positive whole number of hours. The next firing falls on 05:00, and no in-window hour lies strictly between |
| `Schedule.IsImageName` | publicidad.js:70 | A name passes the image test only if it ends in a dot and a three-letter extension |
| `Schedule.ImageFiles` | publicidad.js:70 | The filter keeps exactly the names ending in ".jpg" or ".png" (case-sensitive) and never grows the list |
| `Schedule.ImageFilesAppend` | publicidad.js:70 | The image filter distributes over concatenation, so listing order is kept |
| `Schedule.Step` | publicidad.js:58-96 | A send is attempted if and only if the hour is in [5, 22), the folder was read and some image name matches. It counts as sent if and only if, in addition, loading and sending succeed. Inside the window, a failed folder read is reported as such and still reschedules. The outcome is "no images" if and only if the hour is in the window, the folder was read and no name matches, and exactly then no timer is set. An in-window delay is in [30 min, 1 h]. Outside the window the delay is the corrected one. A sent image comes from the listing, has an image extension and goes to the given chat with a caption index below 3 |
| `Schedule.SendOutcomeIrrelevant` | publicidad.js:83-89 | A failed load or send is caught: the next delay does not depend on whether the send succeeded |
| `Schedule.ReadyTargets` | publicidad.js:48-53 | Every chat that gets a chain is in the fixed list of two group ids, and there are never more chains than chats |
| `Schedule.ReadyTargetsSingle` | publicidad.js:50-51 | A chat is started if and only if it is a group, it has an id, and that id's serialized form is in the fixed list; its chain is then started under that chat's own serialized id |
| `Schedule.ReadyTargetsAppend` | publicidad.js:49-53 | While every group chat has an id, chats are visited in order and each is judged on its own |
| `Schedule.ReadyTargetsStops` | publicidad.js:50 | Reading the id of a group chat without one throws, and no chat after it is started |
| `TimerTable.Timers.constructor` | publicidad.js:15 | The table starts empty with no live timer |
| `TimerTable.Timers.SetTimer` | publicidad.js:89 | Storing a new timer replaces only that chat's entry, adds a fresh live timer, and leaves a replaced timer live |
| `TimerTable.Timers.SendRandomMessage` | publicidad.js:58-96 | A firing does what `Step` says. When a timer is set, it writes exactly that chat's entry and leaves every other key unchanged. When no image matched, nothing changes. A chain stays single when the chat had no live timer before |
| `TimerTable.Timers.Fire` | publicidad.js:94 | A live timer fires once, leaves the runtime's queue, and runs the firing for its own chat. One live chain per chat is preserved |
| `TimerTable.Timers.Disconnect` | publicidad.js:99-101 | Every stored timer is cleared. The keys and entries of `timers` stay, and no other live timer is touched. If each chat had one chain, no timer remains live |

## Left out

- The client library is not modelled: `Client`, `LocalAuth`, Puppeteer, `getChats`, `sendMessage` and `MessageMedia.fromFilePath` are foreign code. Their results are inputs.
- QR code rendering in the terminal and as a data URL, the Express page and the server are not modelled. They are UI and network code.
- Reading the image folder and joining paths are not modelled; the list of names is an input.
- Real time is not modelled. `setTimeout` and `sleep` become recorded delays, and the time-zone hour becomes an integer input.
- The 10-minute wait before `tryGetChatsWithRetries` (index.js:55) is not modelled, because it is real time.
- All logging is not modelled. The retry log keeps only calls, sleeps and the terminal report.
- `listGroups` returns nothing: its summary list (index.js:131-138) is only printed. `GroupListing.ListGroups` returns that list as `Ok(groups)` so that it can be stated; the retry loop uses only whether it succeeded.
- A second `ready` event can start `tryGetChatsWithRetries` while an earlier run is still waiting in an `await`, and the two runs then share the counters. That overlap is not modelled; `GetChatsRetry.NoRestart` covers only a second call after the first has finished.
- A rejected `client.getChats()` in the `publicidad.js` `ready` handler (publicidad.js:48) starts no chain at all. The model's `Schedule.ReadyTargets` takes the fetched chat list as given and does not model that rejection.
- The caption texts are not modelled: a send records the index of the caption among the three.
- `Math.random()` is an exact fraction here. Floating-point rounding of `r * n` is not modelled.
- Some JavaScript engines render midnight as hour 24 with the 24-hour option. The model takes hours 0..23 only.
- The catch around the group summary (index.js:147-149) is not modelled. The model's chats are well-formed records, so the summary step cannot throw.
- The early return when there are no groups (index.js:125-128) gives an empty summary list. Both count as success for the retry loop.
- An exception in the `ready` handler's `forEach` is modelled only as the end of the selection. The rejected promise it leaves behind is not modelled.
- The `ready` handler starts each selected chain with one `Timers.SendRandomMessage` call. The sequence of those calls is not modelled as one method.
- Several chains interleave asynchronously. The model runs one firing at a time against the shared table.
- The commented-out JSON file write (index.js:141-145) is not modelled.
- The event-handler registrations are not modelled.
- `Schedule.Step`: outside the window before 05:00 it uses the corrected delay (`OutOfWindowDelay`), not the as-written one. `AsWrittenOutOfWindowDelay` keeps the code's value; see Findings.

## Findings

| source | as written | input that shows it | evidently intended | confidence | as-written member | corrected member |
|---|---|---|---|---|---|---|
| publicidad.js:92 | outside the window the target hour is 22 whenever the hour is below 22, so before 05:00 the chain waits for 22:00 | hour 2: waits 20 h to 22:00, which is again outside the window, then 7 h to 05:00 of the next day; no firing falls inside that day's window | wait until the window opens at 05:00 (3 h from 02:00) | high, not executed | `Schedule.AsWrittenSkipsWindow` | `Schedule.OutOfWindowDelay` |
