# SMS Sync, modelled in Dafny

SMS Sync moves the text messages of an Android phone to a desktop computer and shows them there. The system has five parts:

- **The backend store.** A Flask application keeps every message in one JSON list. It has routes to add one message, add a batch while skipping duplicates, set the read flag, delete, and list everything, the unread messages or the counters.
- **Two USB readers.** `adb_manager.py` and `adb_sync.py` run `adb shell content query` on the phone and cut its text output into messages.
- **A Wi-Fi poller.** `wifi_syncer.py` asks the phone's small HTTP server for its newest messages and backs off when polls fail.
- **A notifier.** It shows a desktop notification for each message id above the highest one it has seen.
- **Two dashboards and two phone apps.** The dashboards are a server-rendered page and a React page. The newer phone app serves the inbox over HTTP and shows a status screen. The older one posts the whole inbox to the bulk route in one batch.

Each source file is one Dafny module here:

| module | source |
|---|---|
| `MessageStore` | `backend/app.py` |
| `AdbFields` | the field extraction shared by both USB readers |
| `AdbManager` | `backend/adb_manager.py` |
| `AdbSync` | `adb_sync.py` |
| `WifiSyncer` | `backend/wifi_syncer.py` |
| `SmsNotifier` | `desktop_app/sms_notifier.py` |
| `Conversations` | `frontend/src/App.jsx` |
| `Dashboard` | `backend/static/script.js` |
| `SmsService` | `android_app/src/main/kotlin/com/example/smssender/SmsService.kt` |
| `DeviceStatus` | `android_app/src/main/kotlin/com/example/smssender/MainActivity.kt` |
| `InboxSender` | `android_app/MainActivity.kt` |

There are also three helper modules:

- `Wrappers` holds `Option` and `Result`.
- `Text` models Python's `strip`, `split`, `splitlines` and `in`, and JavaScript's `includes` and `toLowerCase`. It also does decimal rendering and truncation.
- `Seqs` has filters, counting and an insertion sort, proved stable.

Code that changes state is modelled as classes whose methods have `modifies` clauses, or as methods with loops:

- the store file
- the syncer flags
- the notifier's state file
- the dashboard's globals
- the phone's server and screens

Each such method is proved against a specification function. Pure expressions are functions, and the properties that relate several calls are lemmas.

Everything that talks to the outside world becomes a parameter:

- subprocess output and exit codes
- HTTP replies
- cursor contents
- clock readings
- permission answers

## Model

| member | source | states |
|---|---|---|
| MessageStore.SmsStore.constructor | backend/app.py:13-18 | The store starts as the list loaded from the file. |
| MessageStore.SmsStore.ReceiveSms | backend/app.py:25-51 | A body without both `sender` and `message` gives 400 and leaves the store unchanged. Otherwise the answer is 201 and exactly one unread record is appended at the end, with id = old length + 1 and the clock's time. |
| MessageStore.BulkTimestamp | backend/app.py:128 | A bulk record keeps its own timestamp when that is present and non-empty; otherwise it gets the clock's. |
| MessageStore.SmsStore.ReceiveBulkSms | backend/app.py:96-141 | A non-list body gives 400 and no change. Otherwise the loop's result equals `Merge` over all elements, with element `i` seeing the clock reading `clock(i)`. `added` is the number of records appended, and `total_received` is the number of elements sent. |
| MessageStore.MergeAppends | backend/app.py:109-132 | A bulk insert only appends. Each appended record is unread, has its position as id, and repeats no (sender, message) pair stored before it, whether from the old store or earlier in the same batch. |
| MessageStore.AppendedWhenNew | backend/app.py:116-123 | Element `j` supplies a record exactly when it is complete and its pair is not in the store built from the elements before it. Of several elements with the same new pair, the first is stored. |
| MessageStore.MergeSources | backend/app.py:109-132 | Each appended record comes from one complete batch element. It carries that element's sender and message, and the element's own timestamp or else the clock's reading at that element. The elements used are distinct and in batch order, so at most one record is added per element. |
| MessageStore.MergeKeepsPair | backend/app.py:117-123 | A (sender, message) pair already stored stays stored through any batch. |
| MessageStore.MergeCovers | backend/app.py:109-132 | After a bulk insert, the pair of every complete element (an object with both keys) is in the store. |
| MessageStore.MergeCovered | backend/app.py:116-123 | A batch whose every pair is already stored adds nothing. |
| MessageStore.MergeReplay | backend/app.py:109-132 | Replaying the same batch adds nothing, whatever the clock says. |
| MessageStore.FirstWithId | backend/app.py:87-88 | Gives the first record carrying the id, or proves that no record carries it. |
| MessageStore.MarkRead | backend/app.py:87-89 | Only the first record with the id changes, and only its `read` field. An unknown id changes nothing. |
| MessageStore.MarkReadIdempotent | backend/app.py:83-92 | Setting the flag twice to the same value equals setting it once. |
| MessageStore.SmsStore.MarkAsRead | backend/app.py:79-92 | The loop sets the requested flag (default true) on the first record with the id and answers 200. With no such record it answers 404 and nothing changes. |
| MessageStore.WithoutId | backend/app.py:196 | Exactly the records with another id remain, and the length drops by the number of records carrying the id. |
| MessageStore.SmsStore.DeleteSms | backend/app.py:191-198 | Every record with the id is removed and the rest keep their order. The answer is 200 even when the id is absent. |
| MessageStore.Unread | backend/app.py:73-74 | Exactly the records whose flag is false, and as many as the unread count. |
| MessageStore.UnreadReverses | backend/app.py:73-74 | The unread view is in reverse store order: the unread records of a later part of the store come first. |
| MessageStore.GetStats | backend/app.py:167-169 | `total` is the store's length, `unread` is the size of the unread view, `read` counts the read records, and `read + unread = total`. |
| MessageStore.NewerFirstIsOrder | backend/app.py:63 | Comparing timestamp strings is a strict weak order, which is what the stable sort needs. |
| MessageStore.NewestFirst | backend/app.py:63 | The list route holds a permutation of the store, ordered by timestamp string with the greatest first. |
| MessageStore.NewestFirstKeepsTies | backend/app.py:63 | Python's sort is stable: records with equal timestamps keep their stored order in the list. |
| MessageStore.InsertsKeepPositions | backend/app.py:37-47 | While nothing is deleted, single and bulk inserts keep every id equal to its 1-based position, so ids are unique. |
| MessageStore.IdsRepeatAfterDelete | backend/app.py:37 | After a deletion, the `len + 1` id of the next insert can equal an id that is still stored. |
| AdbFields.EarliestStop | backend/adb_manager.py:130 | The first index at or after the start where a terminator begins, or the end of the line. |
| AdbFields.ValueUntil | backend/adb_manager.py:130 | The lazy capture of `key(.*?)` up to a terminator or `$`. It is absent exactly when the key does not occur. Otherwise it is the text that starts right after the key's first occurrence and ends at the first terminator or at the end of the line. |
| AdbFields.ValueAvoidsStop | backend/adb_manager.py:77 | A one-character terminator never occurs inside the captured value. |
| AdbFields.RestAfter | backend/adb_manager.py:146 | The greedy capture `key(.*)$`: absent exactly when the key does not occur, otherwise everything after its first occurrence. |
| AdbFields.MessageOf | backend/adb_manager.py:146-153 | The message is the stripped text after `body=`. When that is empty or `body=` is missing, it is `[Boş Mesaj]`, so it is never empty. |
| AdbFields.DigitsFrom | backend/adb_manager.py:122 | The maximal run of digits starting at an index. |
| AdbFields.DateFrom | backend/adb_manager.py:122-124 | Absent exactly when no `date=` followed by a digit occurs from that index on. Otherwise it is the number written by the digit run after the first such `date=`. |
| AdbManager.DeviceOf | backend/adb_manager.py:32-38 | A device exactly when the line has at least two whitespace-separated words. Its serial and state are the first two words. |
| AdbManager.GetDevices | backend/adb_manager.py:25-42 | The devices of the lines below the header, in line order; no devices when `adb` could not be run. Every serial and state is a single word. |
| AdbManager.DevicesAreWords | backend/adb_manager.py:33-38 | Every device read from a listing has a one-word serial and a one-word state. |
| AdbManager.EveryDeviceListed | backend/adb_manager.py:31-38 | Every line below the header that has two or more words yields its device in the list. |
| AdbManager.BlockedEntry | backend/adb_manager.py:77-80 | Present exactly when the line contains `original_number=` and the text after its first occurrence, up to the first comma or the end of the line, is non-empty once stripped. The number is that stripped text, so it is non-empty, already stripped and free of commas. |
| AdbManager.GetBlockedNumbers | backend/adb_manager.py:67-83 | The loop's set holds exactly the numbers the query lines yield. It is empty when the query could not be run. |
| AdbManager.BlockedListed | backend/adb_manager.py:74-80 | A number is blocked exactly when some line lists it. |
| AdbManager.InboxLine | backend/adb_manager.py:109-155 | A line gives a record exactly when it contains `address=` and its stripped address (ending at `, body=`, `, date=` or the end of the line) is non-empty and not blocked. The record holds that address, the message and the date. |
| AdbManager.FetchAndSave | backend/adb_manager.py:85-162 | A non-zero exit code, or a pass that parses nothing, does not call the save callback. Otherwise the callback gets every parsed record in line order. No record has a blocked or empty sender or an empty message. |
| AdbManager.UnblockedLineSaved | backend/adb_manager.py:130-155 | A line with a non-empty, unblocked address reaches the batch, so the callback is called. |
| AdbManager.AdbSyncer.constructor | backend/adb_manager.py:10-13 | The syncer starts inactive, with no device and no worker thread. |
| AdbManager.AdbSyncer.StartSync | backend/adb_manager.py:44-49 | Sets the device and switches the loop on. A new worker starts exactly when there is no worker yet or the last one has ended. Afterwards a worker exists. |
| AdbManager.AdbSyncer.StopSync | backend/adb_manager.py:51-52 | Only the `active` flag changes, to false. The worker thread is left to notice it. |
| AdbSync.SyncLine | adb_sync.py:105-146 | A line gives a record exactly when it contains `Row:` and `address=` and its stripped address (ending at `, body=` or the end of the line) is non-empty. No blocked-number filter applies. |
| AdbSync.ParseRows | adb_sync.py:101-146 | The loop yields one record per usable `Row:` line, in line order. |
| AdbSync.SyncViaAdb | adb_sync.py:75-151 | There are five outcomes. When `adb devices` cannot be started, its exception escapes the run and ends the script's loop. Without `device\n` or `device\r` in the device list, the script only waits. A failed query ends the run. A run that parses nothing posts nothing. Otherwise every parsed record is posted in one batch. |
| AdbSync.PostedMessagesWellFormed | adb_sync.py:141-146 | Every posted record has a non-empty sender and a non-empty message, and comes from a `Row:` line. |
| AdbSync.EarliestStopIgnoresAbsent | adb_sync.py:128 | A terminator that never occurs in the line does not move the end of the address. |
| AdbSync.SyncAgreesWithManager | adb_sync.py:128-146 | On a `Row:` line without `, date=`, the script and the desktop syncer (with no blocked numbers) read the same record. |
| AdbSync.GetSmsFromAdb | adb_sync.py:9-73 | Returns the empty list on every path, whatever `adb` prints. |
| WifiSyncer.WifiSyncer.constructor | backend/wifi_syncer.py:7-13 | The syncer starts stopped, with no address. |
| WifiSyncer.WifiSyncer.StartSync | backend/wifi_syncer.py:15-29 | Already running on the same address: nothing changes. Otherwise the syncer stops, takes the new address, clears the stop request, runs, and starts one new worker. |
| WifiSyncer.WifiSyncer.StopSync | backend/wifi_syncer.py:31-37 | The syncer always ends not running, with the stop requested and no address. |
| WifiSyncer.WifiSyncer.GetStatus | backend/wifi_syncer.py:39-44 | `active` is the running flag and the type is `wifi`. The device is `WiFi (<ip>)` exactly when the address is set and non-empty. |
| WifiSyncer.Convert | backend/wifi_syncer.py:61-70 | The sender is the address (default `Unknown`) and the message is the body (default empty). The timestamp is the date (default 0) in decimal, which reads back as that number. |
| WifiSyncer.ConvertAll | backend/wifi_syncer.py:57-70 | One converted message per reply object, in reply order. |
| WifiSyncer.NextErrorCount | backend/wifi_syncer.py:72-82 | A 200 with a non-empty list that the store callback takes resets the count to 0. A failed connection, a non-200 status, an unparsable body or a store callback that raises on the batch adds 1. A 200 with an empty list leaves the count unchanged. |
| WifiSyncer.SleepSeconds | backend/wifi_syncer.py:85 | The pause is 5 seconds once more than 3 errors have piled up, and 2 otherwise. |
| WifiSyncer.LastDeliveryEnd | backend/wifi_syncer.py:72-75 | The position just after the last delivering poll; no later poll delivers. |
| WifiSyncer.ErrorsStep | backend/wifi_syncer.py:72-82 | The per-poll count update counts exactly the failed polls since the last delivery. |
| WifiSyncer.SleepSchedule | backend/wifi_syncer.py:84-86 | One pause per poll. |
| WifiSyncer.SleepScheduleAt | backend/wifi_syncer.py:84-86 | The pause after poll `i` depends only on the failures since the last delivery up to and including poll `i`. |
| WifiSyncer.PollOnce | backend/wifi_syncer.py:50-82 | A poll delivers its converted list exactly when the reply is a 200 with a non-empty list and the store callback does not raise; a batch the callback raises on is lost. The error count is updated by `NextErrorCount`. |
| WifiSyncer.SyncLoop | backend/wifi_syncer.py:46-86 | A run gives the store the batches of the delivering polls in order; a batch whose store callback raises is not among them and counts as a failure. It ends with the number of failures since the last delivery and takes the scheduled pause after each poll. |
| SmsNotifier.LoadLastChecked | desktop_app/sms_notifier.py:16-22 | The mark is the saved `last_id`, or 0 when there is no file or no `last_id`. |
| SmsNotifier.Notify | desktop_app/sms_notifier.py:29-40 | The title is `SMS: <sender>`. A text longer than 100 characters becomes its first 100 characters plus `...`; any other text is unchanged. |
| SmsNotifier.Fresh | desktop_app/sms_notifier.py:57-63 | Every notified message is from the list and has an id above the mark. |
| SmsNotifier.NotesFor | desktop_app/sms_notifier.py:57-59 | One notification per notified message. |
| SmsNotifier.HighWaterIsMax | desktop_app/sms_notifier.py:57-63 | The final mark is the maximum of the initial mark and every listed id. |
| SmsNotifier.HighWaterAppend | desktop_app/sms_notifier.py:57-63 | The mark after two runs of messages is the mark after the second, scanned from the mark the first left. |
| SmsNotifier.FreshAppend | desktop_app/sms_notifier.py:57-63 | Two runs of messages notify what the first notifies, then what the second notifies from the mark the first left. |
| SmsNotifier.FreshStep | desktop_app/sms_notifier.py:57-63 | The message at each position is notified exactly when its id is above the mark left by the messages before it, and the mark then becomes its id. |
| SmsNotifier.FreshIncreasing | desktop_app/sms_notifier.py:58-63 | Notified ids strictly increase. |
| SmsNotifier.OlderBehindNewerSkipped | desktop_app/sms_notifier.py:58-63 | A message listed anywhere after one with a higher id is never notified. |
| SmsNotifier.FreshIffRaised | desktop_app/sms_notifier.py:65-66 | Something is notified exactly when the mark rises. |
| SmsNotifier.NothingTwice | desktop_app/sms_notifier.py:57-66 | Scanning the same list again from the saved mark notifies nothing. |
| SmsNotifier.Scan | desktop_app/sms_notifier.py:53-63 | The loop shows the notifications of the fresh messages in order, ends with the high-water mark, and counts the fresh messages. |
| SmsNotifier.Notifier.constructor | desktop_app/sms_notifier.py:14 | The notifier starts with the state file as it is and nothing shown. |
| SmsNotifier.Notifier.CheckNewSms | desktop_app/sms_notifier.py:45-79 | Returns true exactly on a 200 with a JSON body and a readable state file; otherwise nothing changes. A missing `sms_list` is the empty list. The fresh messages are notified, and the mark is saved only when something was notified. |
| Conversations.Senders | frontend/src/App.jsx:31-37 | The grouping keys, in order of first appearance, without repeats. |
| Conversations.SendersListed | frontend/src/App.jsx:31-37 | A sender is a key exactly when some message comes from it. |
| Conversations.GroupOfAbsent | frontend/src/App.jsx:33-35 | A sender not yet seen has no messages, so its new group starts empty. |
| Conversations.GroupStep | frontend/src/App.jsx:36 | One more message joins its own sender's group and no other. |
| Conversations.GroupsNonEmpty | frontend/src/App.jsx:33-36 | Every key's group is non-empty, so `msgs[msgs.length - 1]` always exists. |
| Conversations.IsGroupMap | frontend/src/App.jsx:31-37 | A map keyed by exactly the senders, each holding that sender's messages in list order, is the grouping. |
| Conversations.SendersStep | frontend/src/App.jsx:33-35 | One more message adds its sender at the end of the keys, unless the sender is already a key. |
| Conversations.GroupBySender | frontend/src/App.jsx:31-37 | The `forEach`/`push` loop builds one key per sender, in first-appearance order, each holding that sender's messages in list order. |
| Conversations.Summary | frontend/src/App.jsx:40-51 | A sender's row holds a permutation of its messages. `lastMessage` is the final one and `unreadCount` is the number of unread ones. |
| Conversations.Summaries | frontend/src/App.jsx:45-51 | One row per key. |
| Conversations.SummariesAt | frontend/src/App.jsx:45-51 | The `i`-th row summarises the `i`-th key's group. |
| Conversations.Rows | frontend/src/App.jsx:45-51 | One row per distinct sender, before ordering. |
| Conversations.RowAt | frontend/src/App.jsx:45-51 | The row of the `i`-th sender summarises exactly that sender's messages. |
| Conversations.Conversations | frontend/src/App.jsx:30-53 | Grouping, summarising and sorting in the memo yields the conversation list the lemmas below describe. |
| Conversations.RowIsSummary | frontend/src/App.jsx:45-52 | Every row in the ordered list is the summary of one sender's messages. |
| Conversations.OneRowPerSender | frontend/src/App.jsx:30-53 | There are exactly as many conversations as distinct senders, and no two share a sender. |
| Conversations.RowListed | frontend/src/App.jsx:45-52 | Sorting loses no row. |
| Conversations.SenderRow | frontend/src/App.jsx:31-52 | Every sender has a conversation holding exactly its messages. |
| Conversations.MessageInItsRow | frontend/src/App.jsx:32-37 | Every message lands in the conversation of its sender. |
| Conversations.SummaryHolds | frontend/src/App.jsx:46-48 | A row holds every message it summarises. |
| Conversations.RowContents | frontend/src/App.jsx:48-50 | A conversation holds exactly its sender's messages, and `unreadCount` counts the unread ones among them. |
| Conversations.EarlierIsOrder | frontend/src/App.jsx:41 | Comparing message times is a strict weak order. |
| Conversations.SummaryInTimeOrder | frontend/src/App.jsx:40-49 | A row's messages run oldest first, and its `lastMessage` is the newest of them. |
| Conversations.SummaryKeepsTies | frontend/src/App.jsx:41 | `Array.prototype.sort` is stable: a row keeps messages with equal times in their list order. |
| Conversations.LastMessageListedLast | frontend/src/App.jsx:41-49 | Of the messages with the newest time, the one listed last becomes `lastMessage`. |
| Conversations.RowInTimeOrder | frontend/src/App.jsx:40-49 | The same holds for every conversation of the final list. |
| Conversations.RowsNewestFirst | frontend/src/App.jsx:52 | Conversations are ordered by the time of their last message, newest first. |
| Conversations.FilteredConversations | frontend/src/App.jsx:55-58 | A conversation is kept exactly when the lower-cased term occurs in its lower-cased sender or last message text. |
| Conversations.EmptySearchKeepsAll | frontend/src/App.jsx:55-58 | An empty search keeps every conversation, in order. |
| Conversations.FindSender | frontend/src/App.jsx:60 | Finds a conversation with that sender exactly when one exists. |
| Conversations.ActiveConversation | frontend/src/App.jsx:60 | Nothing is active when no sender (or the empty one) is selected. Otherwise the active conversation is the selected sender's, present exactly when that sender has one. |
| Dashboard.Page.constructor | backend/static/script.js:1-4 | The page starts with empty lists, the `all` filter and no open message. |
| Dashboard.Page.FilterSms | backend/static/script.js:67-85 | The list on screen is the fetched list under the filter test and the search test, as an order-preserving subsequence. Nothing else changes. |
| Dashboard.AllShownWhenUnfiltered | backend/static/script.js:70-82 | With the `all` filter and an empty search box, every message is shown. |
| Dashboard.ReadAndUnreadSplitAll | backend/static/script.js:71-74 | For any search, the `read` and `unread` views together hold as many messages as the `all` view. |
| Dashboard.LongerSearchNarrows | backend/static/script.js:76-79 | Typing more into the search box never shows a message that was hidden. |
| Dashboard.Page.SetFilter | backend/static/script.js:88-98 | The filter changes and the list is redrawn with it. |
| Dashboard.Page.LoadSms | backend/static/script.js:27-48 | A failed fetch changes nothing. Otherwise the fetched `sms_list` (or the empty list when it is missing) is stored and redrawn. |
| Dashboard.Preview | backend/static/script.js:138-140 | A missing text gives the empty text. A text longer than 100 characters gives its first 100 plus `...`; any other text is unchanged. |
| Dashboard.PreviewIdempotent | backend/static/script.js:138-140 | Previewing a preview changes nothing. |
| Dashboard.JoinHeads | backend/static/script.js:288 | The two heads are upper-cased. A missing head reads as `UNDEFINED`, and two missing heads throw. |
| Dashboard.Initials | backend/static/script.js:284-291 | An empty name gives `?`. Without a space it gives the first two characters upper-cased. Otherwise it joins the heads of the first two pieces of `split(' ')`. |
| Dashboard.FormatTime | backend/static/script.js:261-270 | A difference under a minute (including a negative one) is "just now". Up to an hour, the minutes lie in 1..59 and are the floor of the difference. Up to a day, the hours lie in 1..23 in the same way. Beyond that the date is shown. |
| Dashboard.AgeMonotone | backend/static/script.js:265-270 | An older message never shows a younger age. |
| Dashboard.AgeLabel | backend/static/script.js:267-269 | The labels are `Az önce`, `<n> dakika önce` and `<n> saat önce`, where `<n>` is the decimal of the bucket's number. |
| Dashboard.FindById | backend/static/script.js:160 | Finds the first message with the id, exactly when one exists. |
| Dashboard.OpenRequest | backend/static/script.js:180-182 | As written, opening sends a request exactly for an unread message, and that request says `read: false`. |
| Dashboard.OpenRequestKeepsUnread | backend/static/script.js:180-182 | Applied by the store, that request leaves the store unchanged, so the opened message stays unread. |
| Dashboard.IntendedOpenRequest | backend/static/script.js:179-182 | As the comment intends, opening an unread message asks for `read: true`. |
| Dashboard.IntendedOpenRequestMarksRead | backend/static/script.js:179-182 | Applied by the store, the intended request marks the opened message read and changes no other record. |
| Dashboard.Page.OpenModal | backend/static/script.js:159-183 | An unknown id changes nothing. Otherwise the modal opens on the message, and an unread message gets the request as written, `read: false` (see Findings). |
| Dashboard.Page.IntendedOpenModal | backend/static/script.js:159-183 | The same, except that an unread message gets the intended request, `read: true`. |
| Dashboard.Page.CloseModal | backend/static/script.js:186-189 | The modal closes and forgets its message. |
| Dashboard.Page.ToggleRead | backend/static/script.js:192-202 | With no open message (or id 0), or one no longer listed, nothing happens. Otherwise the negation of its read flag is requested and the modal closes. |
| Dashboard.Words | backend/static/script.js:286 | The non-empty pieces between spaces. Every character of a word comes from the name. |
| Dashboard.IntendedInitials | backend/static/script.js:284-291 | The intended initials: one or two upper-cased characters of the name, or `?`. With two words or more, the heads of the first two words. |
| Dashboard.InitialsLeakUndefined | backend/static/script.js:286-288 | As written, `Ali ` gives `AUNDEFINED` and a lone space throws. |
| Dashboard.WellSpacedWords | backend/static/script.js:286-288 | When the first space follows a word and is followed by a letter, the first two words start with those letters. |
| Dashboard.InitialsAgreeWhenWellSpaced | backend/static/script.js:284-291 | Without a space, or with a well-placed first space, the code as written agrees with the intended initials. |
| SmsService.LaterFirstIsOrder | android_app/src/main/kotlin/com/example/smssender/SmsService.kt:140 | `date DESC` is a strict weak order. |
| SmsService.QueryInbox | android_app/src/main/kotlin/com/example/smssender/SmsService.kt:140 | The query lists at most 50 inbox messages, dates non-increasing, all drawn from the inbox. |
| SmsService.QueryKeepsNewest | android_app/src/main/kotlin/com/example/smssender/SmsService.kt:140 | Every message the limit leaves out is no later than any message listed. |
| SmsService.RowObject | android_app/src/main/kotlin/com/example/smssender/SmsService.kt:148-152 | Missing columns give `Unknown`, the empty text and 0. Present columns carry the row's values. An unreadable row fails exactly when some column is read. |
| SmsService.ReadSmsToJson | android_app/src/main/kotlin/com/example/smssender/SmsService.kt:136-156 | The loop gives one object per cursor row, in cursor order. The first failing row aborts everything with its error, and no cursor gives the empty list. |
| SmsService.Serve | android_app/src/main/kotlin/com/example/smssender/SmsService.kt:117-133 | `/sms` gives 200 with the JSON array, or 500 `Error: <msg>` when reading fails. `/` gives the liveness page. Any other path gives 404 `Not Found`. |
| SmsService.AsPoll | backend/wifi_syncer.py:52-55 | The desktop sees the status and, for a JSON reply, the list, together with whether its store callback takes a batch. |
| SmsService.PhoneToDesktop | android_app/src/main/kotlin/com/example/smssender/SmsService.kt:121-127 | A poll of `/sms` hands the store a batch exactly when the read succeeds with some row, and delivers it exactly when the store also takes it. It counts as an error exactly when the read fails or the store raises. A delivered batch holds every object converted, in order. |
| SmsService.StoredReachesDesktop | android_app/src/main/kotlin/com/example/smssender/SmsService.kt:149-151 | A message read through every column reaches the desktop with its sender and text, and a non-negative date stays unsigned. |
| SmsService.Service.constructor | android_app/src/main/kotlin/com/example/smssender/SmsService.kt:22 | The service starts with no server. |
| SmsService.Service.StartServer | android_app/src/main/kotlin/com/example/smssender/SmsService.kt:105-114 | A new server is made only when there is none or the current one is not alive. A start that throws leaves it not alive. |
| SmsService.Service.Destroy | android_app/src/main/kotlin/com/example/smssender/SmsService.kt:72-74 | The server, if any, stops. |
| DeviceStatus.Unsigned | android_app/src/main/kotlin/com/example/smssender/MainActivity.kt:213 | Reads the 32-bit Wi-Fi address as an unsigned number (two's complement). |
| DeviceStatus.Octet | android_app/src/main/kotlin/com/example/smssender/MainActivity.kt:217 | Every printed byte lies in 0..255. |
| DeviceStatus.OctetsReconstruct | android_app/src/main/kotlin/com/example/smssender/MainActivity.kt:215-218 | The four bytes, least significant printed first, make up the address's 32 bits. |
| DeviceStatus.FormatIp | android_app/src/main/kotlin/com/example/smssender/MainActivity.kt:214-218 | The printed address starts with a digit. |
| DeviceStatus.ParseQuad | android_app/src/main/kotlin/com/example/smssender/MainActivity.kt:215-218 | The reference reading of a dotted quad (first byte least significant) is a 32-bit number. |
| DeviceStatus.Quad | android_app/src/main/kotlin/com/example/smssender/MainActivity.kt:215-216 | `%d.%d.%d.%d` of four numbers starts with a digit. |
| DeviceStatus.QuadRoundTrip | android_app/src/main/kotlin/com/example/smssender/MainActivity.kt:215-218 | Four bytes printed as a dotted quad read back as their value. |
| DeviceStatus.ZeroQuad | android_app/src/main/kotlin/com/example/smssender/MainActivity.kt:214 | The unset address prints as `0.0.0.0`, which reads back as 0. |
| DeviceStatus.OctetsRoundTrip | android_app/src/main/kotlin/com/example/smssender/MainActivity.kt:215-218 | The formatted bytes of an address read back as its 32 bits. |
| DeviceStatus.FormatIpRoundTrip | android_app/src/main/kotlin/com/example/smssender/MainActivity.kt:214-218 | The printed address reads back as the address's 32 bits, so no two addresses print alike. |
| DeviceStatus.FormatIpUnset | android_app/src/main/kotlin/com/example/smssender/MainActivity.kt:214 | The printed address is `0.0.0.0` exactly when the integer is 0. |
| DeviceStatus.FirstUsable | android_app/src/main/kotlin/com/example/smssender/MainActivity.kt:205-209 | The first non-loopback IPv4 link address, or proof that there is none. |
| DeviceStatus.GetIpAddress | android_app/src/main/kotlin/com/example/smssender/MainActivity.kt:200-222 | An exception gives `Bilinmiyor`. Otherwise the first non-loopback IPv4 link address wins over the printed Wi-Fi integer. |
| DeviceStatus.FallbackReachable | android_app/src/main/kotlin/com/example/smssender/MainActivity.kt:107 | Falling back to the Wi-Fi integer, the service switch is offered exactly when that integer is non-zero. |
| DeviceStatus.StatusScreen.constructor | android_app/src/main/kotlin/com/example/smssender/MainActivity.kt:29-33 | The screen starts with every switch off and no service requests. |
| DeviceStatus.StatusScreen.StopSmsService | android_app/src/main/kotlin/com/example/smssender/MainActivity.kt:187-191 | One stop request and the label `Service Stopped.`; nothing else changes. |
| DeviceStatus.StatusScreen.StartSmsService | android_app/src/main/kotlin/com/example/smssender/MainActivity.kt:170-185 | On success: one start request, the switch on, and the started label. On failure: the switch off and `Error starting service: <msg>`. |
| DeviceStatus.StatusScreen.ServiceSwitchChanged | android_app/src/main/kotlin/com/example/smssender/MainActivity.kt:55-61 | Switching on starts the service, and the switch stays on exactly when starting succeeds; the label reads `Service Started. Running in background.` or `Error starting service: <msg>`. Switching off stops it and reads `Service Stopped.`. The permission and battery switches, the address and the service switch's enabled state stay as they were. |
| DeviceStatus.StatusScreen.DisableService | android_app/src/main/kotlin/com/example/smssender/MainActivity.kt:110-115 | The label is `No Wifi`. The service switch goes off and is disabled, stopping the service once if it was on. The status label is `Please connect to Wifi first.` |
| DeviceStatus.StatusScreen.RefreshStatus | android_app/src/main/kotlin/com/example/smssender/MainActivity.kt:93-115 | The permission and battery switches show their state and are enabled only while off. A reachable address is shown and enables the service switch; otherwise the screen goes to `No Wifi`. The service is never started here. |
| InboxSender.ReadAllSms | android_app/MainActivity.kt:143-176 | Without permission or a cursor, the empty list. Otherwise one message per row with a non-empty body, in cursor order, with `Bilinmeyen` and empty-text defaults for missing columns. A NULL body fails the whole read. |
| InboxSender.ReadMessagesNonEmpty | android_app/MainActivity.kt:165-171 | Every message read has a non-empty text taken from a row. |
| InboxSender.NoBodyColumnReadsNothing | android_app/MainActivity.kt:167-171 | Without a body column nothing is read. |
| InboxSender.BulkPayload | android_app/MainActivity.kt:180-188 | Exactly one `{sender, message}` object per message, in order. |
| InboxSender.SendBulkSms | android_app/MainActivity.kt:178-207 | The batch is posted. Success is exactly a 2xx answer. A failed call or another code is wrapped as `Gönderim hatası: ...`, with `API hatası: <code>` inside for a bad code. |
| InboxSender.PayloadStored | android_app/MainActivity.kt:180-188 | Received by the bulk route, the batch leaves every message with a known sender stored. |
| InboxSender.NullSenderSkipped | android_app/MainActivity.kt:184 | A message with a NULL address reaches the bulk route without a sender, and the route skips it. |
| InboxSender.SenderScreen.constructor | android_app/MainActivity.kt:42-44 | Nothing has been posted yet. |
| InboxSender.SenderScreen.SyncAllButton | android_app/MainActivity.kt:113-141 | No permission gives only a warning. A failed read gives `❌ Hata: <msg>`. An empty inbox posts nothing. Otherwise exactly one batch holding every message is posted, and the label says how many were sent or why the post failed. |
| Text.TokensAreWords | backend/adb_manager.py:33 | `split()` yields non-empty words without whitespace. |
| Text.StripIdempotent | backend/adb_manager.py:139 | Stripping the address a second time changes nothing. |
| Text.DecimalRoundTrip | backend/wifi_syncer.py:69 | `str(n)` of a natural number reads back as `n`. |
| Text.ShortenIdempotent | desktop_app/sms_notifier.py:33 | Shortening a shortened text changes nothing. |

## Left out

- Files, processes and the network are parameters here: JSON file loading and saving, `subprocess.run` of `adb`, HTTP clients and servers (Flask, `requests`, NanoHTTPD, OkHttp, axios). Each operation is given what these returned.
- Threads, daemon loops, `stop_event`, `join` timeouts, `time.sleep` and coroutines are not modelled. The Wi-Fi loop is a method over the sequence of poll results, and the USB loop's 100 ms checks of `active` are left out.
- Clock readings are parameters; the bulk route reads one per batch element. Date conversion is not modelled: `fromtimestamp`, `fromisoformat` and `isoformat`, the JavaScript `Date` and date-fns. Timestamps are opaque strings (backend), the millisecond number of `date=` (USB readers) or the number `new Date(...)` gives (front ends).
- MessageStore.GetStats: the `recent_24h` counter is not modelled, because it needs the clock and ISO date parsing.
- MessageStore.SmsStore.ReceiveSms: a JSON body that is not an object (a list or a string, for which `in` tests elements or substrings) is not modelled. The 500 answers for exceptions are not modelled either.
- MessageStore.SmsStore.MarkAsRead: the requested flag is a boolean or absent. A `read` value of another JSON type (`null`, a string), which the route stores as given, is not modelled, and neither is the 500 answer for a body that is not an object.
- MessageStore.NewestFirst: records without a `timestamp` key are not modelled; every record carries one.
- AdbManager.InboxLine: the record keeps the `date=` value in milliseconds. Converting it with `fromtimestamp(...).isoformat()`, and the `None` an out-of-range value gives, are not modelled.
- Debug printing and the `debug_count` counter in `adb_sync.py` have no effect on the result and are not modelled.
- AdbSync.GetSmsFromAdb: the discarded loop over `Row:` lines is not modelled, because the function returns the empty list whatever that loop computes.
- Dashboard.Preview: lengths and cuts count Unicode characters. JavaScript's `length` and `substring` count UTF-16 code units, so the script cuts a text with characters outside the Basic Multilingual Plane (such as emoji) earlier than the model does. Its cut can also split a surrogate pair, which a Dafny string cannot hold.
- Dashboard.Initials: `[0]` and `substring(0, 2)` take UTF-16 code units in the script and whole characters here. For a name that starts with such a character, the script takes half of its surrogate pair.
- Text.Lower and Text.Upper map only ASCII letters. Unicode case mapping (for example `İ` or `ß`) is not modelled.
- Conversations.GroupBySender: keys come in first-appearance order. JavaScript's `Object.keys` puts integer-like keys first in numeric order, which only changes the order of conversations whose last messages have equal times. Senders that collide with `Object.prototype` members (`constructor`, `__proto__`) are not modelled.
- Conversations.Summary: message times are numbers. Invalid dates (`NaN`), which make the comparator inconsistent, are not modelled.
- Dashboard.AgeLabel: the `toLocaleDateString` rendering for messages older than a day is not modelled (None).
- Dashboard.Page.ToggleRead: the `loadSMS`/`loadStats` reload after the request is not modelled; a load is `Page.LoadSms` with the fetched list.
- `deleteSMS` in `backend/static/script.js` is not modelled. It depends on a confirmation dialog, and the route it calls is `MessageStore.SmsStore.DeleteSms`.
- `loadStats`, `renderSMS`, `escapeHtml`, the status indicator and all DOM and React rendering are not modelled.
- SmsNotifier.LoadLastChecked: an unreadable state file (not JSON, or not an object) throws. That is the caller's error path: `Notifier.CheckNewSms` returns false. Listed messages without an `id` key are not modelled.
- SmsService.QueryInbox: messages with equal dates keep their stored order, while the content provider's order for ties is unspecified.
- InboxSender.ReadAllSms: reading a NULL body throws the null-reference exception; its message is the fixed stand-in `null object reference`, and the runtime's actual message text is not modelled.
- InboxSender.SenderScreen.SyncAllButton: the intermediate label `📤 Tüm SMS'ler gönderiliyor...` and the coroutine hops are collapsed into one step that ends with the final label.
- DeviceStatus.StatusScreen.ServiceSwitchChanged: `CompoundButton` re-entrancy is not modelled. When `startSmsService` sets the switch inside the listener, the listener is assumed not to run again. On success the switch is already on. On failure it turns off, but `CompoundButton.setChecked` does not call the listener while it is still delivering a change, so no stop follows.
- The permission and battery-exemption requests, the permission switch listeners, the foreground notification and the wake and Wi-Fi locks are not modelled; the screens are given the answers.
- `android_app/SmsReceiver.kt`, `frontend/src/services/api.js`, `frontend/src/lib/utils.js`, the test scripts, `convert_icon.py` and the desktop sync endpoints those clients call are not part of this model.

## Findings

| source | as written | input that shows it | evidently intended | confidence | as-written member | corrected member |
|---|---|---|---|---|---|---|
| backend/static/script.js:180-182 | opening an unread message calls `markAsRead(smsId, false)` | any unread message opened in the modal: the store keeps it unread | mark the opened message read, as the comment above the call says | high, not executed | Dashboard.OpenRequestKeepsUnread | Dashboard.IntendedOpenRequestMarksRead |
| backend/static/script.js:284-291 | `getInitials` uses `parts[0][0] + parts[1][0]` of `split(' ')`, so an empty piece gives `undefined` | `"Ali "` gives `AUNDEFINED`; `" "` throws a TypeError | the initials of the first two words | high, not executed | Dashboard.InitialsLeakUndefined | Dashboard.IntendedInitials |
