# Verified models of wintr's stateful parts

This project models the parts of the wintr library that hold algorithms and state machines, and proves
what they promise: the buffered push-notification pipeline, coin amounts and their texts, the Kafka
partition consumer, the failover of the river queue's database client, the Redis struct codec, the
Postgres LISTEN/NOTIFY listener, and the translations client. `dafny verify dfyconfig.toml` checks it.

External services (FCM, Kafka, Postgres, Redis, the translations site) are arbitrary: a script or a step
parameter says what they answer, and every theorem holds for all scripts. `RetryNotify` is an arbitrary
finite number of attempts. Time is an integer argument. Texts are ASCII.

Two forms of model occur side by side. Code that updates fields or arrays is a class or a method with
loops, proved equal to a function on values. Code that runs in several goroutines is a state machine:
`Step` lists the actions other goroutines can observe, `Enabled` and `Next` say when and how each happens,
`Possible` and `After` define runs, and the main lemmas hold after every possible run.

| module | source | the functions on values that the theorems speak about |
|---|---|---|
| PushBatch | notifications/push/batch.go | `VerdictOf` (what is known of one notification after some attempts), `AnswerOf`, `Over`; `SettledAt` and `TrueTo`, in terms of FCM's own replies |
| PushSink | notifications/push/sink.go | `AcceptStep`, `FlushStep`, `Drain`; `StateAfter`, `FlushesOf` for sequences of calls |
| PushPipeline | both of these | state machine of `accept`, ticks, `stop`, workers, attempts and answers; `heard`, FCM's record of its replies |
| PushProgress | notifications/push/sink.go | `Stage` and the finer measures of how far a state is from a complete stop |
| CoinText | coin/coin.go | `IceText`, `IceFlake`, `FlakesOf` (the flakes a decimal `a.b` stands for) |
| CoinFormat | coin/coin.go | `FormatText`, `Groups`, `MarshalText`, `UnmarshalText`, `CheckedDigits` |
| CoinAmount | coin/coin.go | `AddAmount`, `SubtractAmount`, `Bits`, `Fold` (a run of operations over naturals), `Written` |
| Consumer | connectors/message_broker/consumer.go | state machine of polling, assigning, revoking and consuming; `Select`, `Grouped` |
| ConsumerProgress | connectors/message_broker/consumer.go | `Servable`, and measures of how far a state is from the barrier |
| Failover | riverqueue/database.go | `Rotation`, `FirstHealthy` |
| FailoverRaces | riverqueue/database.go | state machine of concurrent `switchMaster` and `Close` calls; `MayInstall`, `TakenByClose`, `Installs`, `TriedBy`, `ReplacedBy` |
| StructCodec | connectors/storage/v3/storage.go | `CollectFields`, `Serialize`, `Deserialize`, `Get`, `Set`, `Merge`; `Between` and `Holds`, for what a tag and a leaf say |
| StructNormalForm | connectors/storage/v3/storage.go | `Normal`, `Blank`, `ComesBack`, `Exposed` |
| StructTarget | connectors/storage/v3/storage.go | the value of a struct in memory, for `Deserialize` of StructCodec |
| Listener | connectors/storage/v2/api.go | `Advance` (one loop iteration), `Run`; `AllHandedOn` (nothing is lost on the way to the channel) |
| Templates | translations/translations.go | `ReplaceAll`, `InOrder` (one replacement per argument), `Filled` (all at once) |
| Translations | translations/translations.go | `Has`, `Found`, `IsTranslation` |

`Wrappers`, `Ledgers`, `GoSlices` and `Decimal` hold shared vocabulary: results, counting and subsequences, Go
slices over a backing array, and decimal digit texts of any length.

## What the proofs found

These promises hold only under a condition. The code is modelled as it is; the condition is proved, and a
lemma gives an input at which the promise fails.

- A caller of the push client gets nil iff FCM reported success, except for a reply with neither success
  nor an error, which the code counts as success: the promise holds for all answers iff FCM never sends
  one (`PushPipeline.AnsweredExactlyOnce`, `PushBatch.SilentCountsAsSuccess`).
- `stop` of the push client waits for every queued notification iff some worker had registered with the
  wait group by then, or nothing was queued: the registration happens inside the worker goroutine
  (notifications/push/sink.go:14). Callers of the constructor are safe, because it waits for its probe
  (`PushPipeline.StopBarrier`, `PushPipeline.StopOvertakesWorkers`).
- The not-found path of the Kafka consumer adds its records to the wait group twice, and they are done
  once. The poll loop can get past its barrier iff that path has handled no record and none of the fetches
  still held has to take it (`Consumer.BarrierOpens`, `ConsumerProgress.BarrierReachable`,
  `Consumer.LeakHappens`).
- `UnmarshalJSON` of an ICE text checks only the fraction of a text with a dot. What it accepts without a
  dot can be converted to flakes; what it accepts with a dot can iff its whole part is decimal and the
  whole amount fits into 256 bits. Otherwise `ICEFlake` rejects it, or it is no decimal at all, like
  `abc.5` (`CoinFormat.AcceptedConvertible`, `CoinFormat.AcceptedTooBig`, `CoinFormat.AcceptedUnreadable`).
- `ICEFlake` of a dotted decimal is exact iff there are at most nine fraction digits, or the digits are all
  zero (`CoinText.ExactUpToNineDigits`, `CoinText.TenDigitsMisread`).
- The words of a coin are in step with its amount after a run of operations iff they were at the start or
  some operation wrote them. A coin decoded from JSON has zero words (coin/contract.go:25-38), and adding
  nothing to it leaves them (`CoinAmount.Run`, `CoinAmount.DecodedOutOfStep`).
- A client from which `Close` took the active pool gets another one, without a further call of
  `switchMaster`, iff some call in progress is past its recheck and has a master left to try, or loaded no
  pool. A call whose loaded pool `Close` took returns "no active master" although it installed one
  (`FailoverRaces.ReopensIff`, `FailoverRaces.SwitchAfterClose`, `FailoverRaces.ReopenedAfterClose`).
- Of the switches that loaded the same active pool at most one installs a pool. Switches that loaded none
  can each install one (`FailoverRaces.NoDoubleSwitch`, `FailoverRaces.TwoSwitchesAfterClose`).
- Replacing template arguments one after the other depends on the map's iteration order iff some value
  mentions another argument's placeholder, and that argument is not its own placeholder
  (`Templates.OrderNeverShows`, `Templates.MentionShows`).
- All values of a struct type come back from a new hash in normal form iff every embedded struct is one that
  reflection may expose, or is embedded by value without stored leaves and pointers; or the type stores
  nothing. A value comes back iff the structs out of reach have nothing to lose. Otherwise they are written
  and not read back (`StructNormalForm.NormalFormIff`, `StructNormalForm.GetAfterFirstSet`,
  `StructNormalForm.UnreachableIsLost`).
- The user of a listener gets every notification received, in order, iff each time one arrived the channel had
  room and the listener was not stopping and choosing to drop it (`Listener.InOrderDelivery`,
  `Listener.LossHappens`).
- The listener's loop can spin without counting anything iff it is disconnected and a wait is interrupted
  by `done` while the context is alive. `Close` cancels the context first, which excludes this
  (`Listener.CountsUnlessSpinning`, `Listener.SpinningMakesNoProgress`).

## Model

| member | source | states |
|---|---|---|
| PushBatch.AnswerMeaning | notifications/push/batch.go:69-100 | Over any attempts, the invalid-token error iff the first attempt that settles the notification blamed its token; nil iff that attempt reported success or was silent; so nil means reported success iff it was not silent. |
| PushBatch.FailureMeaning | notifications/push/batch.go:26-100 | Over any attempts, the not-attempted error iff FCM never replied for the notification; a send error iff no reply settled it, and then it is the error of the last reply. |
| PushBatch.OverMeaning | notifications/push/batch.go:69-102 | Retrying is over iff the last attempt met the expired context, or was answered and every notification is settled by some reply; any other refusal ends nothing. |
| PushBatch.AnswerIsTrue | notifications/push/batch.go:26-102 | Every answer is true to the replies FCM gave for the notification while it was asked, and no reply follows one that settles it. |
| PushBatch.SilentCountsAsSuccess | notifications/push/batch.go:81-96 | A reply with neither success nor an error is answered with nil. |
| PushBatch.UntriedTogether | notifications/push/batch.go:34-40 | A notification is untried iff FCM answered no attempt at all, so notified and failed together are empty or everything. |
| PushBatch.SettledForGood | notifications/push/batch.go:104-110 | A delivered or invalid-token verdict never changes in later attempts. |
| PushBatch.OpenOne | notifications/push/batch.go:69-102 | As long as retrying goes on, some notification is unsettled, so no attempt sends an empty request. |
| PushBatch.SplitSize | notifications/push/batch.go:34-34 | Comparing the sizes of two disjoint index sets with the batch size decides whether they cover the batch. |
| PushBatch.NotificationBatch.Bookkeeping | notifications/push/batch.go:69-102 | Between attempts: notified and failed are disjoint, invalid is part of failed, and notified and failed together are empty or all indices. |
| PushBatch.NotificationBatch.constructor | notifications/push/batch.go:16-24 | A new batch has tried nothing. |
| PushBatch.NotificationBatch.BuildFcmMessages | notifications/push/batch.go:104-129 | Messages, in order, for exactly the indices neither notified nor invalid, each with its own notification's data, token, title, body and image. |
| PushBatch.NotificationBatch.FcmSendAll | notifications/push/batch.go:69-102 | One attempt sends exactly the unsettled notifications, records each reply, and finishes iff notified and invalid now cover the batch. |
| PushBatch.NotificationBatch.Record | notifications/push/batch.go:80-96 | One reply changes what is recorded of its own notification, to what the reply says, and of no other. |
| PushBatch.NotificationBatch.Process | notifications/push/batch.go:26-42 | For every script of FCM behaviour: attempts stop before the script ends iff the last one met the expired context, or was answered with every notification settled, and never earlier; each sends exactly what no earlier reply settled; everyone's answer is the one its verdict calls for. |
| PushBatch.NotificationBatch.Fill | notifications/push/batch.go:34-40 | The deadline fill never overwrites a recorded error and marks exactly the untried notifications. |
| PushBatch.NotificationBatch.Respond | notifications/push/batch.go:44-67 | In whatever order the answering goroutines run, each notification gets exactly one answer, its own. |
| PushSink.CutIsPartition | notifications/push/sink.go:65-70 | Full batches followed by the remainder are the buffer. |
| PushSink.RemainderSlice | notifications/push/sink.go:69-70 | The tail slice computed with the modulus is what is left after cutting full batches. |
| PushSink.AcceptMeaning | notifications/push/sink.go:44-79 | One accept sends the whole buffer as one batch iff it has reached 500, or is not empty and one second past `resetAt`; otherwise it keeps it. |
| PushSink.AcceptProperties | notifications/push/sink.go:44-79 | One accept loses and reorders nothing, leaves fewer than 500 buffered, sends at most one batch of 1 to 500, and moves `resetAt` exactly when it flushes. |
| PushSink.DrainProperties | notifications/push/sink.go:28-37 | `stop` sends everything buffered and never an empty batch. |
| PushSink.FreshAfter | notifications/push/sink.go:55-78 | After each accept, everything buffered was accepted at or after `resetAt`, which is less than one deadline old. |
| PushSink.FlushedInTime | notifications/push/sink.go:55-91 | With ticks at most three deadlines apart, each notification leaves the buffer less than four deadlines after it was accepted. |
| PushSink.BufferedIsYoung | notifications/push/sink.go:81-91 | What is still buffered between ticks is younger than four deadlines too. |
| PushSink.Sink.constructor | notifications/push/push.go:74-86 | A new sink is empty and open. |
| PushSink.Sink.SendFullBatches | notifications/push/sink.go:66-68 | The loop hands over consecutive windows of 500 of the buffer's own array. |
| PushSink.Sink.Leftover | notifications/push/sink.go:69-70 | The last window is the remainder, with no capacity beyond the array. |
| PushSink.Sink.CutBatches | notifications/push/sink.go:65-70 | Full batches go out and the remainder stays; a buffer cut empty keeps no capacity in the shared array. |
| PushSink.Sink.SendAndRenew | notifications/push/sink.go:71-74 | The rest goes out, and the buffer continues in a new array. |
| PushSink.Sink.Flush | notifications/push/sink.go:64-78 | Emptying the buffer does what `FlushStep` says and leaves the invariant. |
| PushSink.Sink.Push | notifications/push/sink.go:56-63 | Appending never grows the array and never writes into a window already handed over. |
| PushSink.Sink.Accept | notifications/push/sink.go:44-79 | An open sink does exactly `AcceptStep`; every window ever handed over still reads as it did when it was sent; a closed sink hands the notification back. |
| PushSink.Sink.SendAll | notifications/push/sink.go:28-37 | Everything buffered is sent, as `Drain` says. |
| PushSink.Sink.Stop | notifications/push/sink.go:24-42 | The first stop drains and closes; a second one changes nothing; nothing is sent after the close. |
| PushPipeline.KeepsInvariant | notifications/push/sink.go:13-79 | Every step of every goroutine keeps order, conservation, honesty of answers, and the closing protocol. |
| PushPipeline.Reachable | notifications/push/sink.go:13-79 | The invariant holds after every possible run. |
| PushPipeline.ExactlyOnePlace | notifications/push/sink.go:13-79 | In every reachable state each accepted notification is in exactly one place, once: waiting, with one goroutine, or answered. |
| PushPipeline.AcceptedInOrder | notifications/push/sink.go:24-79 | What went through the channel, followed by the buffer, is what was accepted, in order; every batch has 1 to 500 notifications. |
| PushPipeline.NoPanic | notifications/push/sink.go:24-42 | No send on the closed channel, no second close, no negative wait group. |
| PushPipeline.ChannelBounded | notifications/push/push.go:74-86 | The channel never holds more batches than its capacity. |
| PushPipeline.EveryAcceptCounts | notifications/push/sink.go:44-63 | No call loses its notification: an open sink queues it, a closed one has the caller process it as a batch of its own. |
| PushPipeline.AttemptsEnd | notifications/push/batch.go:26-79 | In every run, an attempt that met the expired context or settled everything is the last of its batch; after any other attempt the next one may follow. |
| PushPipeline.StopBarrier | notifications/push/sink.go:13-42 | When `stop` gets past its wait, everything queued has been answered iff some worker registered or nothing was queued. |
| PushPipeline.StopOvertakesWorkers | notifications/push/sink.go:13-42 | A run in which `stop` gets past its wait with a notification accepted before it unanswered. |
| PushPipeline.StopBarrierAfterProbe | notifications/push/push.go:96-106 | Once any answer was given, as the constructor requires, the barrier of `stop` is complete. |
| PushPipeline.AnsweredTruthfully | notifications/push/batch.go:26-102 | In every run, every answer given is true to FCM's own record of its replies: nil iff success or a silent reply, invalid token iff a reply blamed it, not attempted iff there was no reply, otherwise the error of the last one; and no reply follows one that settles the matter, so nothing is sent again. |
| PushPipeline.AnsweredExactlyOnce | notifications/push/sink.go:13-79 | After `stop`, with nothing left in process, every accepted notification has been answered exactly once, with nil iff FCM reported success, or neither success nor an error, for it; nil means success for all of them iff FCM was never silent. |
| PushProgress.CanAlwaysStop | notifications/push/sink.go:13-79 | With a worker and room in the channel there is no deadlock: from every reachable state the pipeline can run on, without further notifications, until it is closed and every notification has been answered. |
| PushProgress.NeverAnsweredWithoutWorkers | notifications/push/sink.go:13-79 | Without workers the first notification is never answered. |
| CoinText.CollectFromRight | coin/coin.go:306-317 | The loop collects, from the right, the nine digits up to the last non-zero one. |
| CoinText.ReverseInPlace | coin/coin.go:318-320 | The swap loop reverses the collected prefix. |
| CoinText.TransformNumbersBiggerThanOneIce | coin/coin.go:301-324 | The text of one ICE or more is split before the last nine digits, without the zeros at its end. |
| CoinText.Ice | coin/coin.go:277-299 | The ICE text of a flake amount, for both ranges. |
| CoinText.IceMeaning | coin/coin.go:277-324 | It is the whole ICE, a dot, and the rest as nine digits without the zeros at the end. |
| CoinText.DottedIceFlake | coin/coin.go:365-390 | Every dotted decimal, blanks around it or not, is read as its digits scaled to nine places. |
| CoinText.UndottedIceFlake | coin/coin.go:370-372 | An integer text without leading zeros is read as that many whole ICE. |
| CoinText.NonDecimalIceFlake | coin/coin.go:365-390 | A dotted text whose parts are not digits is left to the integer library. |
| CoinText.IceFlakeMeaning | coin/coin.go:365-390 | What every text is read as: nothing if blank, the digits scaled to nine places if dotted, whole ICE if an integer without leading zeros, and otherwise left to the integer library. |
| CoinText.ExactUpToNineDigits | coin/coin.go:373-377 | The amount read is exactly the decimal times 10^9 iff there are at most nine fraction digits or all digits are zero. |
| CoinText.TenDigitsMisread | coin/coin.go:373-377 | With ten fraction digits a tenth of an ICE is read as a whole one. |
| CoinText.FlakeRoundTrip | coin/coin.go:277-390 | `ICE` writes normal forms and `ICEFlake` reads every amount below 2^256 back. |
| CoinText.IceRoundTrip | coin/coin.go:277-390 | `ICE` after `ICEFlake` is the identity on texts in normal form. |
| CoinFormat.FormatGroups | coin/coin.go:428-442 | The loop groups the integer digits in threes from the right. |
| CoinFormat.Format | coin/coin.go:403-426 | The formatted text, for blank, dotted, undotted and leading-dot texts. |
| CoinFormat.FormatIsGrouping | coin/coin.go:403-442 | Formatting is the normalised text with its integer part grouped; nothing else changes. |
| CoinFormat.CommaPlaces | coin/coin.go:403-442 | Commas stand exactly before each third integer digit from the right, and never at the front, iff the integer part does not start with a comma of its own that is dropped as if it were one of these. |
| CoinFormat.UngroupFormat | coin/coin.go:403-442 | Deleting the commas gives the normalised text without its own commas; it gives the normalised text back iff the text had none. |
| CoinFormat.FormatKeepsAmount | coin/coin.go:365-442 | Formatting changes the notation and not the amount: without its commas the text is read as before. |
| CoinFormat.IceValue.MarshalJson | coin/coin.go:444-450 | The quoted text, formatted unless it already has a comma; then it is quoted as it is. |
| CoinFormat.IceValue.UnmarshalJson | coin/coin.go:452-472 | The value is replaced iff the text is accepted, and left alone otherwise. |
| CoinFormat.CheckedPart | coin/coin.go:474-496 | Only the fraction of a dotted text, and all of an undotted one, is checked. |
| CoinFormat.CheckedFraction | coin/coin.go:474-496 | For a dotted decimal the checked amount is its fraction alone, in flakes. |
| CoinFormat.UnmarshalMeaning | coin/coin.go:452-496 | For every text: accepted, completed to a dotted one, iff the digits it checks denote a flake amount below 2^256; refused if they denote more; left to the library if they are not digits. |
| CoinFormat.UnmarshalDotted | coin/coin.go:452-472 | A text with a decimal fraction is accepted, with a digit put before a leading dot, iff its fraction alone fits, whatever its whole part is. |
| CoinFormat.GroupedJson | coin/coin.go:444-472 | A text with a comma is quoted as it is, and read back as it would be read without the quotes. |
| CoinFormat.AcceptedConvertible | coin/coin.go:452-496 | Every accepted text, completed, is `a.b` with a decimal fraction; it converts to flakes iff `a` is decimal and the whole amount fits, is rejected if it does not fit, and left to the library if `a` is not decimal; without a dot it always converts. |
| CoinFormat.AcceptedTooBig | coin/coin.go:452-496 | 10^81 ICE in JSON is accepted, and cannot be converted. |
| CoinFormat.AcceptedUnreadable | coin/coin.go:452-496 | `abc.5` in JSON is accepted, and is no decimal. |
| CoinFormat.JsonRoundTrip | coin/coin.go:444-472 | JSON gives back every ICE text in normal form, grouped or not. |
| CoinFormat.AmountRoundTrip | coin/coin.go:277-472 | Every amount below 2^256 survives ICE, JSON out, JSON in, and back to flakes. |
| CoinAmount.ArithmeticMeaning | coin/coin.go:143-164 | Addition and saturating subtraction of naturals whatever is nil or zero, and subtracting what was added restores the value. |
| CoinAmount.BitsMeaning | coin/coin.go:73-92 | Base-2^64 digits denote the number, and there are no more of them than its size allows. |
| CoinAmount.BitsFit | coin/coin.go:73-92 | Every amount below 2^256 has at most four words. |
| CoinAmount.FourWords | coin/coin.go:73-92 | Padding the digits with zero words to four does not change the number. |
| CoinAmount.Coin.constructor | coin/coin.go:98-100 | An empty coin is in step. |
| CoinAmount.Coin.SetWord | coin/coin.go:130-141 | Exactly the named word changes. |
| CoinAmount.Coin.SetAmount | coin/coin.go:73-92 | Whatever the coin held before, afterwards it holds the amount and the four words that denote it. |
| CoinAmount.Coin.Add | coin/coin.go:102-111 | The sum; this coin itself if nothing is added, otherwise a new one in step, whether this one was or not; a panic iff it does not fit. |
| CoinAmount.Coin.Subtract | coin/coin.go:113-119 | The difference, zero if it would be negative; this coin itself if nothing changes, otherwise a new one in step. |
| CoinAmount.Perform | coin/coin.go:73-119 | One operation acts on the amount as on naturals; afterwards the words are in step iff they were or the operation wrote them. |
| CoinAmount.Run | coin/coin.go:73-164 | After any run of these operations on any starting coin, in step or not, the amount is the fold over naturals, and the words are in step iff they were at the start or some operation wrote them. |
| CoinAmount.DecodedOutOfStep | coin/contract.go:25-38 | A coin with an amount and zero words is out of step, and stays so until an operation writes. |
| Consumer.GroupByKey | connectors/message_broker/consumer.go:304-307 | Grouping a batch gives every key its own records in order, and no other key. |
| Consumer.Complete | connectors/message_broker/consumer.go:292-326 | If class by class a prefix is processed, equal numbers of records mean that every class is complete and in order. |
| Consumer.KeepsRegistered | connectors/message_broker/consumer.go:208-290 | Every step keeps at most one unfinished consumer per partition, the registered one, closed at most once. |
| Consumer.KeepsOrdered | connectors/message_broker/consumer.go:292-326 | Every step keeps, key by key: dispatched is processed followed by what is outstanding. |
| Consumer.FetchedIsDispatched | connectors/message_broker/consumer.go:31-59 | The records of all fetches that did not fail are the ones dispatched, followed by those the poll in progress still holds. |
| Consumer.ProcessedInFetchOrder | connectors/message_broker/consumer.go:292-326 | In every reachable state the processed records of a key are a prefix of the fetched ones, in fetch order and each once; of the whole partition in one-goroutine mode. |
| Consumer.OneLiveConsumer | connectors/message_broker/consumer.go:208-290 | Of two consumers of a partition one is finished; channels are closed at most once; a finished consumer left no record behind. |
| Consumer.StopEndsWhenDone | connectors/message_broker/consumer.go:246-326 | Waiting for a consumer to stop ends only when it is done: closed once, nothing in its channel, and every record ever dispatched of its partition processed, in order. |
| Consumer.ClosingIsWaitedFor | connectors/message_broker/consumer.go:112-127 | A consumer that is closing and has not finished is the one being waited for. |
| Consumer.AssignOrRevoke | connectors/message_broker/consumer.go:208-282 | Between polls a partition can be revoked iff it has a running consumer and assigned iff it has none. |
| Consumer.ChannelsBounded | connectors/message_broker/consumer.go:230-236 | No consumer's channel ever holds more than 100 batches. |
| Consumer.AllProcessed | connectors/message_broker/consumer.go:31-59 | As many records processed as dispatched means: every class processed, in order. |
| Consumer.WaitGroupCounts | connectors/message_broker/consumer.go:52-57 | The wait group is dispatched minus processed plus what the not-found path counted twice; it is never negative and nothing is sent on a closed channel. |
| Consumer.BarrierOpens | connectors/message_broker/consumer.go:56-57 | Rebalancing is allowed iff every record ever dispatched was processed, in order, and the not-found path leaked nothing. |
| Consumer.LeakBlocksForever | connectors/message_broker/consumer.go:112-136 | Once the not-found path has handled a record, the barrier never opens again. |
| Consumer.LeakHappens | connectors/message_broker/consumer.go:91-98 | A fetch for a partition without a consumer takes that path. |
| ConsumerProgress.BarrierReachable | connectors/message_broker/consumer.go:31-127 | From every reachable state the poll loop can get past its barrier iff nothing has leaked and every fetch it still holds failed, is empty, or has a consumer. |
| Failover.CalculateConnectOrder | riverqueue/database.go:239-257 | For every number of masters and every valid current index, the rotation. |
| Failover.JoinAround | riverqueue/database.go:249-256 | The two appends give the rotation in a new array and leave the array they read from unchanged. |
| Failover.RotationIsModular | riverqueue/database.go:239-257 | The k-th master tried is (current + 1 + k) modulo the number of masters. |
| Failover.RotationIsPermutation | riverqueue/database.go:239-257 | Every master is tried exactly once, the current one last. |
| Failover.FirstHealthy | riverqueue/database.go:213-229 | The first healthy master down the order, all before it being unhealthy. |
| Failover.DatabaseClient.constructor | riverqueue/database.go:60-75 | A client whose active pool is the first one opened, to the given master. |
| Failover.NewDatabaseClient | riverqueue/database.go:42-76 | A client iff some master accepts a connection; the first one that does becomes the active one. |
| Failover.DatabaseClient.TryMasters | riverqueue/database.go:213-229 | The loop holds a pool to the first healthy master and has closed every other pool it opened. |
| Failover.DatabaseClient.SwitchMaster | riverqueue/database.go:201-237 | No second switch if the pool loaded is no longer active; otherwise the first healthy master after the current one becomes active, the old pool is closed, and success is reported iff there was an old pool. |
| FailoverRaces.Reachable | riverqueue/database.go:144-237 | Ownership, exclusion and the index invariant hold after every interleaving. |
| FailoverRaces.OneOwner | riverqueue/database.go:144-237 | Every pool opened is active, held by exactly one thread, or closed, and only one of these; none is closed twice. |
| FailoverRaces.IndexNamesActive | riverqueue/database.go:225-227 | Whenever the lock is free and a pool is active, `CurrentIndex` names its master. |
| FailoverRaces.TriesTheRotation | riverqueue/database.go:213-257 | Whatever other threads do, the j-th master a switch tries is (current + 1 + j) modulo their number; it gives up only after all of them, and the pool it pings leads to the last one tried. |
| FailoverRaces.ReportsWhatItDid | riverqueue/database.go:201-237 | A switch reports success iff the pool it had loaded was no longer active at its recheck, or it replaced a pool. |
| FailoverRaces.SwitchAfterClose | riverqueue/database.go:225-236 | A switch that loaded pool p and installs its own replaces p and reports success, unless a Close took p meanwhile: then it replaces nothing and reports failure although it installed its pool. |
| FailoverRaces.NoDoubleSwitch | riverqueue/database.go:201-237 | Of all switches that loaded the same active pool at most one installs a pool. |
| FailoverRaces.TwoSwitchesAfterClose | riverqueue/database.go:201-237 | A run from a new client in which, after a Close, two switches that loaded no pool each install one, the second replacing the first's. |
| FailoverRaces.ReopensIff | riverqueue/database.go:144-237 | From any reachable state without an active pool, some continuation without a new call of `switchMaster` has one again iff a call in progress may still install: it is past its recheck with a master left to try, or loaded no pool. |
| FailoverRaces.ClosedForGood | riverqueue/database.go:144-237 | With no such call and none started later, the closed client stays closed, and when all calls have returned every pool has been closed exactly once. |
| FailoverRaces.ActiveAtRest | riverqueue/database.go:144-237 | When all calls have returned, every pool but the active one has been closed, exactly once. |
| FailoverRaces.ReopenedAfterClose | riverqueue/database.go:144-237 | A run in which a closed client ends up with an open pool. |
| StructCodec.OmitEmpty | connectors/storage/v3/storage.go:372-382 | The option loop answers yes iff one of the comma-separated options is `omitempty`. |
| StructCodec.OptionMeaning | connectors/storage/v3/storage.go:372-382 | An option text asks for empty values to be left out iff `omitempty` stands between its commas. |
| StructCodec.TagMeaning | connectors/storage/v3/storage.go:338-349 | A tag is a name, alone or followed by a comma and options; the name is what comes before the first comma, and only what follows it can contain the option. |
| StructCodec.TwoPasses | connectors/storage/v3/storage.go:278-303 | Scanning a struct and then descending into the embedded ones gives what one pass over the fields gives, failures included. |
| StructCodec.WrittenNamesAreCollected | connectors/storage/v3/storage.go:258-370 | The names written are a subsequence of the names asked for. |
| StructCodec.SameReads | connectors/storage/v3/storage.go:278-303 | Reading depends only on the names asked for. |
| StructCodec.MergeReads | connectors/storage/v3/storage.go:278-370 | Reading after writing merges the new value into what can be read of the fields not written, and fails iff that fails. |
| StructCodec.GetAfterSet | connectors/storage/v3/storage.go:100-195 | For distinct names and an invertible leaf codec, whatever the hash held: `Get` after `Set` is the value merged into what can be read of the fields not written (omitted fields and fields behind nil pointers keep the older value), and fails iff those cannot be read. |
| StructCodec.ReadFailure | connectors/storage/v3/storage.go:278-303 | Reading fails iff the text stored for some leaf within reach cannot be parsed. |
| StructCodec.SetWritesLeaf | connectors/storage/v3/storage.go:320-382 | For every name and option text: `Set` leaves the entry of a leaf as it was iff `omitempty` is among its options and its value is empty, and otherwise writes the value's text. |
| StructCodec.SetLeavesOthers | connectors/storage/v3/storage.go:320-370 | `Set` touches no entry whose name no leaf bears, and never writes leaves tagged `-` or without a name. |
| StructCodec.WholeValueComesBack | connectors/storage/v3/storage.go:100-195 | A value whose leaves are all written, with every embedded struct there and within reach, is read back exactly, whatever the hash held before. |
| StructNormalForm.GetAfterFirstSet | connectors/storage/v3/storage.go:100-195 | On a new key `Get` gives the value merged into the blank one; that is its normal form (nil embedded pointers allocated, omitted leaves zero) iff the embedded structs out of reach hold nothing, are no pointers and contain none. |
| StructNormalForm.MergeIsNormal | connectors/storage/v3/storage.go:278-370 | For every value, the merge into the blank value is the normal form iff no struct out of reach has anything to lose. |
| StructNormalForm.NormalFormIff | connectors/storage/v3/storage.go:100-195 | All values of a struct type that write anything come back in normal form iff every embedded struct is within reach, or embedded by value without stored leaves and pointers; or the type stores nothing at all. |
| StructNormalForm.UnreachableIsLost | connectors/storage/v3/storage.go:278-370 | An embedded struct that reflection may not expose is written but not read back. |
| StructTarget.Target.constructor | connectors/storage/v3/storage.go:289-291 | A new target is the zero value: embedded structs present, embedded pointers nil. |
| StructTarget.Target.ScanLeaves | connectors/storage/v3/storage.go:278-281 | The leaves of this struct alone are overwritten from the hash, or the first unreadable name is reported. |
| StructTarget.Target.Allocate | connectors/storage/v3/storage.go:289-291 | A nil embedded pointer becomes a new zero struct; nothing else changes. |
| StructTarget.Target.FillEmbedded | connectors/storage/v3/storage.go:292-299 | The embedded struct is filled where it is; its siblings are untouched. |
| StructTarget.Target.EnterField | connectors/storage/v3/storage.go:283-299 | One field of the loop does what `Enter` says on values, and leaves every other field as it was. |
| StructTarget.Target.EnterFields | connectors/storage/v3/storage.go:282-300 | The loop over the embedded fields does in place what the descent on values does, and stops at the first field that fails. |
| StructTarget.Target.DeserializeValue | connectors/storage/v3/storage.go:278-303 | Filling in place gives the value, or the error, of the recursion on values; the struct stays a tree without sharing, and embedded structs it had stay in place. |
| Listener.FailuresAtTheEnd | connectors/storage/v2/api.go:427-434 | The error count is at least k iff the last k marks are failures. |
| Listener.TurnMeaning | connectors/storage/v2/api.go:317-468 | When one iteration stops for cancellation and when it ends with a connection, read off what connecting, waiting and reconnecting met. |
| Listener.TurnCounts | connectors/storage/v2/api.go:371-475 | Exactly which failures and successes one iteration counts; a failed reconnect is not one of them. |
| Listener.StopsAtTheTenthFailure | connectors/storage/v2/api.go:371-438 | In every run the loop stops for errors exactly at ten failures without a success in between, and the channel stays within its capacity. |
| Listener.CountsUnlessSpinning | connectors/storage/v2/api.go:324-336 | An iteration that does not stop the loop counts a failure or a success iff it is not the interrupted-while-alive kind. |
| Listener.SpinningMakesNoProgress | connectors/storage/v2/api.go:371-379 | Iterations of that kind change nothing, however many there are. |
| Listener.ProgressWithinTenTurns | connectors/storage/v2/api.go:317-337 | Given the order in which `Close` acts, ten iterations from any loop head stop the loop, connect, or receive a notification. |
| Listener.AdvanceDelivers | connectors/storage/v2/api.go:403-491 | One iteration moves notifications from the front of the channel to the user, and appends the one received iff the channel has room and it is not dropped while stopping. |
| Listener.InOrderDelivery | connectors/storage/v2/api.go:317-491 | Over every run, what the user took followed by what is in the channel is a subsequence, in order, of the notifications received, and equals it iff at every receipt the channel had room and the listener was not stopping and dropping. |
| Listener.LossHappens | connectors/storage/v2/api.go:477-491 | A notification received while the listener is stopping can be dropped although the channel is empty. |
| Listener.Listener.constructor | connectors/storage/v2/api.go:284-315 | The first connection is held iff LISTEN succeeded and given back otherwise. |
| Listener.Listener.Release | connectors/storage/v2/api.go:531-536 | The held connection, if any, is released exactly once. |
| Listener.Listener.Connect | connectors/storage/v2/api.go:493-529 | A connection is kept and the error count reset iff LISTEN succeeded; a refused one is released. |
| Listener.Listener.CountSuccess | connectors/storage/v2/api.go:470-475 | A success resets the count. |
| Listener.Listener.CountFailure | connectors/storage/v2/api.go:427-434 | One failure more; the tenth stops the loop. |
| Listener.Listener.EnsureConnection | connectors/storage/v2/api.go:371-389 | Connects only without a connection; a failed attempt counts. |
| Listener.Listener.SendNotification | connectors/storage/v2/api.go:477-491 | Never blocks: the notification goes to the end of the channel, unless the channel is full or a stopping listener drops it; then the channel stays as it was. |
| Listener.Listener.HandleConnectionError | connectors/storage/v2/api.go:441-454 | The lost connection is released before the reconnect, whose failure is not counted again. |
| Listener.Listener.HandleNotificationError | connectors/storage/v2/api.go:420-468 | Cancellation, the tenth failure, lost connection, transient error. |
| Listener.Listener.ProcessNotification | connectors/storage/v2/api.go:403-418 | Waiting does what the turn says to connection, count and channel. |
| Listener.Listener.Iterate | connectors/storage/v2/api.go:324-336 | One iteration does exactly `Advance`. |
| Listener.Listener.ReceiveNotifications | connectors/storage/v2/api.go:317-337 | The loop does exactly `Run`; at every exit each connection acquired has been released exactly once, and the channel is closed then and only then. |
| Templates.ReplacesItsHoles | translations/translations.go:94-96 | Replacing a placeholder's text replaces the placeholder and nothing else. |
| Templates.RestInAnyOrder | translations/translations.go:94-98 | Started anywhere, the remaining replacements in any order complete the simultaneous substitution. |
| Templates.FillingShows | translations/translations.go:94-98 | Filling in a placeholder that occurs changes the text, unless its value is the placeholder itself. |
| Templates.MentionShows | translations/translations.go:94-98 | With such a mention, two orders that give two texts. |
| Templates.OrderNeverShows | translations/translations.go:94-98 | On every template any two orders agree, and agree with the simultaneous substitution, iff no value mentions another argument's placeholder (one that stands for itself aside). |
| Templates.PlainValuesInAnyOrder | translations/translations.go:94-98 | Values without a closing brace are filled in all at once, whatever the order. |
| Templates.Substitute | translations/translations.go:94-98 | The loop performs one replacement per argument, each exactly once, in some order. |
| Translations.DefaultCoversAll | translations/translations.go:77-93 | A key is found in every language iff the default language has it. |
| Translations.DefaultNeverInterferes | translations/translations.go:77-93 | For a key that a language has of its own, no change of the default locale changes the translation. |
| Translations.OneTranslation | translations/translations.go:77-101 | A template of literals and placeholders is filled in in exactly one way, the simultaneous substitution. |
| Translations.Translations.constructor | translations/translations.go:35-43 | The default locale is the downloaded one for the default language. |
| Translations.Translations.Refresh | translations/translations.go:164-203 | The snapshot and its default locale change together, or not at all when the download fails. |
| Translations.Translations.TranslateOne | translations/translations.go:77-101 | If the language's locale has the key, its text; otherwise, if the default locale has it, that one's; otherwise the error naming what is missing. Filled in iff exactly one map of arguments is given. |
| Translations.Translations.Translate | translations/translations.go:46-54 | The same choice, said on the snapshot itself, unless the context is done. |
| Translations.Translations.TranslateKeys | translations/translations.go:66-75 | Every key asked for and no other, each from the language or else the default, or the error of the first key that is missing. |
| Translations.Translations.TranslateMultipleKeys | translations/translations.go:56-75 | The same, unless the context is done. |
| Translations.Translations.TranslateAllLanguages | translations/translations.go:103-120 | Every language of one snapshot and no other, each with its own text or else the default's, or an error of a language that lacks the key. |
| Translations.Translations.TranslateMultipleKeysAllLanguages | translations/translations.go:122-145 | Every key in every language of one snapshot, each from the language or else the default, or an error of one that is missing. |

## Left out

- Push: FCM messages other than their contents, topic broadcasts, delayed notifications, logging, and a responder that never reads its channel (an answer step is then never taken).
- Push: that a goroutine does take its next step, which is the scheduler's and the network's to decide; what is proved is that some run from every state finishes. A channel without capacity is not modelled.
- PushPipeline.NoPanic: does not model the wait group's own rule that a counter must not be raised while someone waits at zero.
- CoinText: what the unsigned-integer library makes of texts that are not plain decimal integers without leading zeros (signs, base prefixes, separators) is left open as `LibraryDefined`.
- CoinText.UndottedIceFlake: undotted texts with leading zeros, `0` among them, because nine more zeros are put behind them and the result goes to that library as it is.
- CoinText: multi-byte characters; the source indexes bytes.
- CoinAmount: multiplication, division, msgpack and SQL forms, and nil coin receivers; they forward to libraries or branch once.
- Consumer: waits that are cut off by a context, the shutdown loop (its `done` flag is never set back), the processors' results and the commit of offsets.
- Consumer: the consumer assigned by the not-found path is registered, given its records and closed in one step, partition by partition; the source does this for all partitions of a topic that has no consumers before it waits for any of them. Assigning and revoking happen between polls, because rebalancing is blocked during one.
- Failover: building URLs, pool options, which errors ask for a switch, and the river client's own lock and retries.
- Failover.DatabaseClient.SwitchMaster: one call by itself; what several do together is in FailoverRaces.
- StructCodec: reflection itself; a struct type is a tree of tagged leaves and embedded structs.
- StructTarget.Target.DeserializeValue: what a target holds after an error, beyond being well formed; structs whose embedded pointers share memory.
- StructCodec: leaf fields that are not exported, embedded fields that are not structs, several keys in one pipeline, `SetKey`, and `Bind` without a type of its own.
- StructCodec.GetAfterSet: a value with nothing to write leaves the hash as it is; that Redis then reports an error for the empty command is not modelled.
- Listener: the duration of waits, the error texts and `Err`, and which database errors count as connection errors (each turn may choose).
- Templates: literal text or values with a closing brace outside a placeholder, and keys with braces.
- Translations: the HTTP request and JSON decoding (a download succeeds with a snapshot or fails), the refresh timer, and readers that wait for the lock; each call works on one snapshot.
- Authentication, server, privacy, one-time passwords, time, errors, email, SMS, Telegram, in-app messages, pictures, tracking, configuration and logging: thin layers over libraries, or finite branching, that would add only easy members.
- connectors/storage/v3/proxy.go, connectors/storage/v2/lock.go, migrations and `DoInTransaction`: forwards, or behaviour of the database server.
