# Verified model of the cc_tools_qt core

The tools send, receive, display, save and replay protocol messages through plugins: a socket, a
chain of data filters and a protocol.  This project models the parts that carry state from event
to event and proves what each of them is for.

* **Timed sending** (`SendQueue`, `SendAgenda`, `SendSchedule`, `SendOrder`, `SendCompletion`,
  `SendTimer`, `SendRun`, `SendOnTime`, `SendOverflow`, `SendMgr`, `ScheduledStore`). The scheduler
  keeps one list in which each delay is relative to the message before it, and one single-shot
  timer whose value is cast to `int`. `SendAgenda` says what that is meant to be, a stable priority
  queue over absolute deadlines. The in-place walk is proved to be insertion into that queue. The
  runs of the object, the cast included, are proved to make the agenda's callbacks if and only if
  no two consecutive due instants are too far apart for the timer; then message *i* is sent exactly
  at T_i, T_i + p, T_i + 2p and so on, messages that are due together go out in one callback and in
  the order in which they were queued, and the run completes exactly when nothing repeats for ever.
* **Stream reading** (`FrameReader`, `DemoFrame`).  Unread bytes and garbage are kept between calls.
  Two assumptions are made about the protocol's frame, `Sound` and `PrefixStable`; a decoder after
  the demo protocol's layer declarations meets both and accepts what it writes and nothing else.
* **Message manager** (`FilterChain`, `InFlight`, `MaskFilter`, `MsgStore`, `Loopback`,
  `Generations`, `EchoAnswers`, `MsgMgr`, `EchoSession`, `DemoEcho`).  Sequence numbers, bulk
  deletion, filters in both directions, injection from the middle of the chain, and the loop closed
  by the echo socket: what comes back, and when a protocol that answers its own echo is done.
* **Displayed list** (`RecvList`, `GuiAppMgr`, with `TextOrder` and `Bisect` for binary search).  The
  list grows message by message next to the store and is used to delete from the store.
* **Files and lookup** (`HexCodec`, `IdText`, `MsgFactory`, `MsgFile`, `Replay`).  Hexadecimal text,
  id texts, lookup by text and index, saved lists, delays made from timestamps; and, composed with
  the scheduler, replay.

Objects that the program updates in place are classes here.  Their methods are proved against
functions on values, and the theorems are about those functions.  Time in the scheduler is ideal: a
timeout moves the clock by exactly the value the timer was started with.  A timer started with a
negative value is taken never to expire; what Qt does with one is not part of this model.

## What the code does not do

Where the code falls short of the plain property, a lemma gives an input that shows it and another
proves the exact condition under which the property holds.

* The delay of the head is cast to `int` on the way to the timer.  One message that is due at 2^31
  starts the timer with a negative value and is never sent; a delay past 2^32 is sent early
  (`SendOverflow.NegativeTimer`, `SendOverflow.SentEarly`, `SendRun.ToIntExact`).  The callbacks are the ideal
  ones if and only if every due instant is at most 2^31 - 1 after the start or after an earlier due
  instant (`SendOverflow.FollowsAgendaIff`); for a recording, if and only if no pause is longer than that
  (`Replay.RecordingOnTimeIff`, with `Replay.LongPauseStops`).
* The final flush looks at unread bytes only, so garbage collected up to the last byte stays
  buffered: it leaves nothing exactly when there were unread bytes or no garbage
  (`FrameReader.FinalKeepsGarbage`, `FrameReader.FinalLeavesNothingIff`,
  `FrameReader.FinalEmitsAllIff`).  Final calls of a frame always emit everything if and only if it
  rejects no octet that stands alone (`FrameReader.AlwaysEmitsAllIff`); the demo frame is one of
  those.
* A received batch joins the list only after the protocol has reacted to it, so numbers increase
  along the list exactly when the protocol sends nothing in reaction (`MsgStore.ReactionOvertakes`,
  `MsgStore.ReceiveIncreasingIffQuiet`, and over whole runs `MsgStore.RunIncreasingIff`), and messages are reported in
  the order in which they are stored exactly when it reacts to none but the first
  (`RecvList.ReactionsBetween`, `RecvList.ReportedAsStoredIff`).  Under any display, the displayed
  list stays equal to the filtered store exactly when no displayable reaction comes behind a
  displayable receipt (`RecvList.ArrivalInStepIff`, and over whole runs `RecvList.RunInStepIff`).
* Bulk deletion is one pass over both lists.  It deletes exactly the listed messages if and only if
  the stored ones among them come first and in store order (`MsgStore.SwappedListMissed`,
  `MsgStore.DeleteExactIff`).
* Messages are looked up by id text, which is read as decimal and then as hexadecimal.  The lookup
  agrees with the numbering of all messages if and only if every id text reads back as its id and
  messages with the same id have the same text (`MsgFactory.NumberingAgrees`).  The raw data
  protocol's dash and an empty text do not read back (`MsgFactory.DashNotFound`,
  `MsgFactory.EmptyTextMisnumbered`); the texts of the library and of the demo protocol do
  (`MsgFactory.UsualTextsReadBack`).
* A saved message comes back as the same message if and only if it is faithful in the sense of
  `MsgFile.Faithful` (`MsgFile.ObjectKeptIff`, and for whole lists `MsgFile.SendListKeptIff` and
  `MsgFile.RecvListKeptIff`): for an invalid message, if such messages have no id
  text and it has data (`MsgFile.RawMessageKept`).  In the protocols of the repository invalid
  messages do have an id text, so garbage comes back as another message or not at all
  (`MsgFile.DemoGarbageChanges`, `MsgFile.DashLost`).
* The garbage switch of the displayed list decides about a message exactly when the message has no
  id text (`RecvList.GarbageSwitchIff`); the demo protocol's garbage is shown as received messages
  are (`RecvList.DemoGarbageIsReceived`).
* Timestamps are subtracted without sign, so a recorded session keeps its spacing if and only if its
  timestamps never decrease (`Replay.ClockSetBack`, `Replay.DelaysKeepSpacing`).
* The echo socket's loop hands back what the protocol sends meanwhile, so it need not end: a protocol
  that answers every message with itself keeps it going for ever (`Loopback.AnswerGoesOn`).  Take what
  the protocol writes in reaction to the sent messages, what it writes in reaction to that, and so on.
  If the reader understands all of it and the filters return what they are given, the loop ends if and
  only if one of these generations is empty (`EchoAnswers.SentEndsIff`), and what has been received by
  then is the generations one behind the other (`EchoAnswers.SentHears`).  That is so after one
  generation for a protocol that never reacts, and for every protocol whose answers rank below what
  they answer (`Generations.SilentDiesOut`, `Generations.RankedDiesOut`, `DemoEcho.DemoAnswersEnd`).
* The comment on the demo protocol's sync field names other bytes than its declaration; the model
  follows the declaration, 0xabcd.

## Model

| member | source | states |
|---|---|---|
| SendQueue.DuePrefix | lib/src/ToolsMsgSendMgrImpl.cpp:72-81 | The walk stops at the first entry with a delay: everything before it is due, it is not. |
| SendQueue.ReinsertRefinesStable | lib/src/ToolsMsgSendMgrImpl.cpp:101-135 | Walking with a shrinking delay and shortening the successor's delay is stable insertion by absolute deadline; no other deadline moves. |
| SendQueue.ReinsertAllRefines | lib/src/ToolsMsgSendMgrImpl.cpp:86-139 | Putting a whole sent batch back is resubmitting its repeating jobs one by one, each one period after now. |
| SendQueue.FiringRefinesPriorityQueue | lib/src/ToolsMsgSendMgrImpl.cpp:72-139 | One firing takes out exactly the entries due by now and puts repeats back where a stable priority queue would. |
| SendAgenda.FiringLeavesFuture | lib/src/ToolsMsgSendMgrImpl.cpp:141-146 | After every firing of every run all that is left is due strictly later, as the code asserts of the head. |
| SendAgenda.OfInsert | lib/src/ToolsMsgSendMgrImpl.cpp:101-137 | Putting one message back leaves the pending job of every other message as it was. |
| SendAgenda.FireOne | lib/src/ToolsMsgSendMgrImpl.cpp:69-158 | One firing seen by one message: sent now and put back one period later if it repeats, when it was due; untouched otherwise. |
| SendSchedule.RunTracks | lib/src/ToolsMsgSendMgrImpl.cpp:86-137 | On every run the sends of a message so far are on its due instants and its only pending job is its next round, with the right count left. |
| SendSchedule.RoundsMeaning | lib/src/ToolsMsgSendMgrImpl.cpp:86-92 | How often a message is sent: once without a period; with one as often as its count says, once if that is not set, for ever if it is zero. |
| SendOrder.PutBackBehind | lib/src/ToolsMsgSendMgrImpl.cpp:100-122 | A message that is put back goes out behind whatever is due at the same instant and was queued before. |
| SendOrder.RunInTurn | lib/src/ToolsMsgSendMgrImpl.cpp:69-152 | On every run messages due together go out in the order in which they were queued: first rounds first and in list order, then longer periods before shorter ones, and among equal periods the one that started later. |
| SendOrder.RunExact | lib/src/ToolsMsgSendMgrImpl.cpp:69-152 | One callback for each instant reached at which something is due, with all that is due then, nothing else, and in that order. |
| SendOrder.ExactIsUnique | lib/src/ToolsMsgSendMgrImpl.cpp:69-152 | The list and the clock leave only one such sequence of callbacks. |
| SendSchedule.NothingElseSent | lib/src/ToolsMsgSendMgrImpl.cpp:83-154 | Nothing but the listed messages is ever sent or pending. |
| SendSchedule.RunOrdered | lib/src/ToolsMsgSendMgrImpl.cpp:101-137 | On every run pending sends are in deadline order. |
| SendSchedule.ClockAdvances | lib/src/ToolsMsgSendMgrImpl.cpp:141-149 | Every firing of a run that is still going moves time on by at least one. |
| SendCompletion.EachFiringPaysForItsBatch | lib/src/ToolsMsgSendMgrImpl.cpp:86-139 | Without endless messages each firing lowers the number of sends still owed by the size of its batch, and the batch is not empty. |
| SendCompletion.CompletedWhenEmpty | lib/src/ToolsMsgSendMgrImpl.cpp:151-157 | Completion is reported once, last of all, when the queue becomes empty, and never before. |
| SendCompletion.EmptyIsFinal | lib/src/ToolsMsgSendMgrImpl.cpp:141-157 | With nothing queued no timer runs and nothing happens again. |
| SendCompletion.EmptiedByLastSend | lib/src/ToolsMsgSendMgrImpl.cpp:151-157 | The queue becomes empty at the latest of all T_i + (c_i - 1) * p_i. |
| SendCompletion.EndlessNeverCompletes | lib/src/ToolsMsgSendMgrImpl.cpp:90-92 | One endless message keeps the queue filled and completion unreported, after any number of firings. |
| SendTimer.WaitsWithinIff | lib/src/ToolsMsgSendMgrImpl.cpp:141-149 | The waits between firings stay within a bound if and only if every due instant is at most that after the start or after an earlier due instant. |
| SendTimer.RequestsGaps | lib/src/ToolsMsgSendMgrImpl.cpp:141-149 | Delays and periods within the bound are enough for that. |
| SendRun.ToIntExact | lib/src/ToolsMsgSendMgrImpl.cpp:148 | The cast on the way to the timer keeps a delay if and only if it is at most 2^31 - 1. |
| SendRun.ToIntWraps | lib/src/ToolsMsgSendMgrImpl.cpp:148 | The first delay that does not fit starts the timer with a negative value. |
| SendRun.ToIntCongruent | lib/src/ToolsMsgSendMgrImpl.cpp:148 | Any delay comes out as the one 32-bit `int` that is congruent to it. |
| SendRun.FiringSends | lib/src/ToolsMsgSendMgrImpl.cpp:72-152 | A firing makes one callback with the leading entries that have no delay, in queue order, and none if there is no such entry. |
| SendRun.FiringRefines | lib/src/ToolsMsgSendMgrImpl.cpp:69-158 | A firing of the delta queue and its timer is a firing of the agenda: same batch, same callbacks, same deadlines left. |
| SendRun.NextRefines | lib/src/ToolsMsgSendMgrImpl.cpp:30-32 | A timeout after a wait that fits is the agenda's step to the earliest deadline. |
| SendRun.RunRefinesAgenda | lib/src/ToolsMsgSendMgrImpl.cpp:37-158 | While the waits so far fit an `int`, a run from `start`, cast included, is the agenda's run: same clock, same callbacks, same pending deadlines, and a timer started with the next wait, cast. |
| SendRun.RunWithin | lib/src/ToolsMsgSendMgrImpl.cpp:101-139 | No queued delay or timer value ever exceeds the largest delay or period that was given. |
| SendOnTime.TimerBounds | lib/src/ToolsMsgSendMgrImpl.cpp:141-149 | When no gap between due instants exceeds a bound that fits an `int`, the timer runs in every reachable state exactly while something is queued, with a positive value within the bound. |
| SendOnTime.FittingRequests | lib/src/ToolsMsgSendMgrImpl.cpp:141-149 | Lists whose delays and periods fit an `int` are on time, with a positive timer value no longer than the largest of them. |
| SendOverflow.FollowsAgendaIff | lib/src/ToolsMsgSendMgrImpl.cpp:37-158 | The callbacks of a list, at all times, are those of the agenda if and only if every due instant is at most 2^31 - 1 after the start or an earlier due instant. |
| SendOverflow.NegativeTimer | lib/src/ToolsMsgSendMgrImpl.cpp:141-149 | A message due at 2^31: `start` arms the timer with a negative value and nothing is ever sent. |
| SendOverflow.SentEarly | lib/src/ToolsMsgSendMgrImpl.cpp:141-149 | A message due at 2^32 + 5 is sent at 5. |
| SendOnTime.RunOnSchedule | lib/src/ToolsMsgSendMgrImpl.cpp:37-158 | For lists on time: after any number of timeouts message i has been sent at exactly those of T_i + k*p (k below the count, any k when endless, k = 0 without period) that the clock has reached, once each, in order. |
| SendOnTime.RunCallbacks | lib/src/ToolsMsgSendMgrImpl.cpp:37-158 | For lists on time: the callbacks so far are exact in that sense, in instants, messages and order. |
| SendOnTime.RunSendsAll | lib/src/ToolsMsgSendMgrImpl.cpp:69-158 | Every round a message has is sent after finitely many timeouts, at its due instant. |
| SendOnTime.RunCompletes | lib/src/ToolsMsgSendMgrImpl.cpp:86-157 | Without endless messages the run comes to the latest of all T_i + (c_i - 1) * p_i, where nothing is queued and completion has been reported once, last of all. |
| SendOnTime.RunReportsCompletion | lib/src/ToolsMsgSendMgrImpl.cpp:151-157 | At any time either the run is finished in that way or completion has not been reported. |
| SendOnTime.RunCompletesIff | lib/src/ToolsMsgSendMgrImpl.cpp:86-157 | A run completes if and only if no message repeats for ever. |
| SendMgr.ToolsMsgSendMgr.constructor | lib/src/ToolsMsgSendMgrImpl.cpp:27-33 | Nothing is queued and no timer runs. |
| SendMgr.ToolsMsgSendMgr.Start | lib/src/ToolsMsgSendMgrImpl.cpp:37-60 | The object is at the beginning of the run of the given list. |
| SendMgr.ToolsMsgSendMgr.Begin | lib/src/ToolsMsgSendMgrImpl.cpp:37-60 | The same for the bare state: clones queued, first firing done. |
| SendMgr.ToolsMsgSendMgr.QueueClones | lib/src/ToolsMsgSendMgrImpl.cpp:42-58 | The queue holds one clone of each message, in list order. |
| SendMgr.ToolsMsgSendMgr.Stop | lib/src/ToolsMsgSendMgrImpl.cpp:62-67 | Queue, timer and protocol are given up without a callback; once the run has completed, the stop of the viewer's completion callback (app/cc_view/src/GuiAppMgr.cpp:708-712) takes nothing away. |
| SendMgr.ToolsMsgSendMgr.Timeout | lib/src/ToolsMsgSendMgrImpl.cpp:30-32 | The object moves one firing on in its run, and time moves on by the timer's value. |
| SendMgr.ToolsMsgSendMgr.Expire | lib/src/ToolsMsgSendMgrImpl.cpp:30-32 | The same for the bare state. |
| SendMgr.ToolsMsgSendMgr.SendPendingAndWait | lib/src/ToolsMsgSendMgrImpl.cpp:69-158 | The loops and in-place updates compute the firing. |
| SendMgr.ToolsMsgSendMgr.PutBack | lib/src/ToolsMsgSendMgrImpl.cpp:100-137 | The search loop with its two updates computes the insertion walk. |
| SendMgr.ToolsMsgSendMgr.FindPlace | lib/src/ToolsMsgSendMgrImpl.cpp:100-122 | The search with its shrinking delay stops at the first entry that is due later than one period from now; what it has passed stays in front. |
| SendMgr.ToolsMsgSendMgr.SentOnSchedule | lib/src/ToolsMsgSendMgrImpl.cpp:37-158 | Whatever starts, timeouts and stops led to a state, if the current list is on time each of its messages has been sent at exactly those of its due instants that the clock has reached. |
| SendMgr.ToolsMsgSendMgr.CompletionReported | lib/src/ToolsMsgSendMgrImpl.cpp:151-157 | On the object: completion has been reported, once and last of all, at the latest final send, if the list was sent to its end, and not before. |
| ScheduledStore.EventsStored | app/cc_view/src/GuiAppMgr.cpp:702-706 | The batches handed to `sendMsgs` are recorded in the order of the schedule under consecutive numbers. |
| ScheduledStore.ScheduleStored | app/cc_view/src/GuiAppMgr.cpp:702-706 | After any number of timeouts the store has gained one record for every place in the callbacks, in order, and each message as often as it has due instants that the clock has reached. |
| ScheduledStore.ListOrder | app/cc_view/src/GuiAppMgr.cpp:702-706 | Messages whose first rounds are due at the same instant go out in list order. |
| FrameReader.ChunkIndependence | lib/include/cc_tools_qt/ToolsFrameBase.h:60-149 | Feeding a and then b gives the messages and leaves the buffers of feeding a + b once, from any buffers. |
| FrameReader.AnyChunking | lib/include/cc_tools_qt/ToolsFrameBase.h:60-149 | The same for any number of non-final calls. |
| FrameReader.DrainConserves | lib/include/cc_tools_qt/ToolsFrameBase.h:83-144 | On every exit of the loop the emitted raw bytes, the garbage and the unread bytes are what was buffered, in order. |
| FrameReader.ReadConserves | lib/include/cc_tools_qt/ToolsFrameBase.h:60-156 | The same for a whole call, final or not. |
| FrameReader.RunConserves | lib/include/cc_tools_qt/ToolsFrameBase.h:60-156 | Over any sequence of calls no byte is lost, doubled or moved. |
| FrameReader.DrainBounds | lib/include/cc_tools_qt/ToolsFrameBase.h:83-119 | The garbage stays below 512 bytes and what is unread is nothing or what the frame waits to complete. |
| FrameReader.RunBounds | lib/include/cc_tools_qt/ToolsFrameBase.h:83-156 | The same between the calls of any sequence. |
| FrameReader.FinalLeavesNothingIff | lib/include/cc_tools_qt/ToolsFrameBase.h:151-156 | A final call leaves no unread bytes, and no garbage if and only if there were unread bytes or no garbage before the flush. |
| FrameReader.FinalEmitsAllIff | lib/include/cc_tools_qt/ToolsFrameBase.h:60-156 | Any calls ended by a final one have emitted every byte ever fed if and only if, before the final flush, there were unread bytes or no garbage. |
| FrameReader.FinalKeepsGarbage | lib/include/cc_tools_qt/ToolsFrameBase.h:151-156 | A frame with a sync octet and any other octet in the final call: nothing is emitted and the octet stays in the garbage. |
| FrameReader.FinalFlushes | lib/include/cc_tools_qt/ToolsFrameBase.h:151-156 | With unread bytes a final call emits what it would emit otherwise and then one invalid message, of the garbage and those bytes; without any it does nothing more. |
| FrameReader.WaitingKeeps | lib/include/cc_tools_qt/ToolsFrameBase.h:98-106 | While the frame waits for more or cannot allocate, everything stays unread and nothing is emitted. |
| FrameReader.RunRecognised | lib/include/cc_tools_qt/ToolsFrameBase.h:83-144 | Over any calls, final ones included, every message emitted as decoded was read by the frame at the front of some stream, with that id and index, and is known to the factory. |
| FrameReader.GarbageLimit | lib/include/cc_tools_qt/ToolsFrameBase.h:108-119 | Fewer than 512 rejected octets are held back; the 512th lets them out as one invalid message. |
| FrameReader.AlwaysEmitsAllIff | lib/include/cc_tools_qt/ToolsFrameBase.h:60-156 | Whatever calls are ended by a final one, every byte ever fed has been emitted, if and only if the frame rejects no octet that stands alone. |
| FrameReader.CutIsCeil | lib/include/cc_tools_qt/ToolsFrameBase.h:68-119 | Garbage cut at the limit: ceil(n / 512) invalid messages, all full but possibly the last, joining up to the garbage. |
| FrameReader.Resynchronises | lib/include/cc_tools_qt/ToolsFrameBase.h:111-143 | After bytes rejected at every offset the reader emits pending and new garbage so cut, then the frame behind it, and goes on. |
| FrameReader.ReadsBack | lib/include/cc_tools_qt/ToolsFrameBase.h:83-143 | A stream of accepted frames gives exactly its messages and leaves both buffers empty. |
| FrameReader.ToolsFrame.constructor | lib/include/cc_tools_qt/ToolsFrameBase.h:57 | Both buffers start empty. |
| FrameReader.ToolsFrame.ReadData | lib/include/cc_tools_qt/ToolsFrameBase.h:60-171 | The loop over the consumed count computes the messages and leaves the buffers of the specification. |
| FrameReader.ToolsFrame.Skip | lib/include/cc_tools_qt/ToolsFrameBase.h:111-119 | A rejected byte goes to the garbage, which is emitted at the limit; what is still to come accounts for the rest. |
| FrameReader.ToolsFrame.Take | lib/include/cc_tools_qt/ToolsFrameBase.h:121-143 | Garbage before a frame is emitted first; a frame the factory does not know becomes an invalid message. |
| FrameReader.ToolsFrame.CheckGarbage | lib/include/cc_tools_qt/ToolsFrameBase.h:68-79 | Pending garbage, if any, becomes one invalid message and is cleared. |
| DemoFrame.DemoMeetsAssumptions | demo/protocol/include/demo/Frame.h:190-217 | The demo layers read by both assumptions made about frames, and wait on any single octet. |
| DemoFrame.DemoEmitsAll | lib/include/cc_tools_qt/ToolsFrameBase.h:151-156 | So its final calls leave nothing behind. |
| DemoFrame.DemoStable | demo/protocol/include/demo/Frame.h:34-217 | A definite answer of the demo reader survives more bytes. |
| DemoFrame.DemoAcceptsWritten | demo/protocol/include/demo/Frame.h:34-217 | Whatever id, version and payload the demo frame writes, its reader accepts exactly that, whatever follows. |
| DemoFrame.DemoReadsIff | demo/protocol/include/demo/Frame.h:190-217 | The demo reader accepts a frame if and only if sync octets, length, id and checksum are right. |
| DemoFrame.DemoWaitsIff | demo/protocol/include/demo/Frame.h:190-217 | It waits if and only if sync octets and length are right so far and the frame is not complete. |
| DemoFrame.DemoReadsWritten | demo/protocol/include/demo/Frame.h:190-217 | It accepts what the protocol writes for some version and payload, and nothing else. |
| DemoFrame.CorruptedIsRejected | demo/protocol/include/demo/Frame.h:197-199 | A complete frame with any other checksum than that of its body is rejected. |
| DemoFrame.ChecksumAdds | demo/protocol/include/demo/Frame.h:197-199 | The checksum of octets is their sum in 16 bits. |
| FilterChain.ChainConcat | lib/src/ToolsMsgMgrImpl.cpp:201-215 | Sending through a chain is sending through its upper and then its lower part. |
| FilterChain.RecvChainConcat | lib/src/ToolsMsgMgrImpl.cpp:364-377 | Receiving through a chain is receiving through its lower and then its upper part. |
| FilterChain.SplitLaw | lib/src/ToolsMsgMgrImpl.cpp:455-476 | The full path out is the filters from k up followed by an injection at k, and an injection touches no filter from k up. |
| FilterChain.SendInPortions | lib/src/ToolsMsgMgrImpl.cpp:201-215 | Sending in two portions is sending once, filter states included. |
| FilterChain.RecvInPortions | lib/src/ToolsMsgMgrImpl.cpp:364-377 | The same for receiving. |
| FilterChain.EmptyStaysEmpty | lib/src/ToolsMsgMgrImpl.cpp:204-206 | Leaving the loop early on an empty list makes no difference. |
| FilterChain.ChainUndoes | lib/src/ToolsMsgMgrImpl.cpp:364-377 | If each filter's receiving undoes its sending on the byte stream, so does the whole chain's, however the blocks are re-cut. |
| FilterChain.PassThroughUndoes | lib/src/ToolsFilter.cpp:156-168 | A filter that overrides nothing meets that assumption. |
| MaskFilter.MaskersUndo | lib/src/ToolsMsgMgrImpl.cpp:364-377 | So does a filter that shifts every octet by a key and sends each in a block of its own. |
| InFlight.ChainSendsBehind | lib/src/ToolsMsgMgrImpl.cpp:202-216 | While data is under way, what a chain of returning filters sends goes behind it. |
| InFlight.ChainReceivesInFront | lib/src/ToolsMsgMgrImpl.cpp:362-382 | Whatever block comes back first, the chain passes up the front of what was given to it and not yet returned. |
| InFlight.ReturnsUndoes | lib/src/ToolsMsgMgrImpl.cpp:202-216 | A filter that returns data while more is sent undoes itself when nothing is sent meanwhile. |
| InFlight.PassThroughReturns | lib/src/ToolsFilter.cpp:156-168 | A filter that overrides nothing returns what it is given. |
| MaskFilter.MaskersReturn | lib/src/ToolsMsgMgrImpl.cpp:364-377 | So does the filter that shifts and re-cuts. |
| MsgStore.SendRecordsAll | lib/src/ToolsMsgMgrImpl.cpp:173-236 | Every non-null message is recorded once, in order, under consecutive numbers, whether or not it could be written or passed the filters. |
| MsgStore.SendNumbers | lib/src/ToolsMsgMgrImpl.cpp:184-194 | Sending keeps numbers distinct, below the counter, and increasing if they were. |
| MsgStore.ReceiveEachOneMore | lib/src/ToolsMsgMgrImpl.cpp:396-412 | The batch loop, seen from its last round. |
| MsgStore.ReceiveRecords | lib/src/ToolsMsgMgrImpl.cpp:396-414 | The list grows by everything sent in reaction to the batch and then by the batch, each under the number it got in the order of events. |
| MsgStore.ReceiveNumbers | lib/src/ToolsMsgMgrImpl.cpp:396-414 | Receiving keeps numbers distinct and below the counter, whatever the protocol sends in reaction. |
| MsgStore.ReceiveIncreasingIffQuiet | lib/src/ToolsMsgMgrImpl.cpp:411-414 | A batch keeps numbers increasing along the list if and only if the protocol sends nothing in reaction. |
| MsgStore.ReactionOvertakes | lib/src/ToolsMsgMgrImpl.cpp:410-414 | One received message and one reaction: stored in falling number order. |
| MsgStore.AddRecords | lib/src/ToolsMsgMgrImpl.cpp:238-264 | Loading appends exactly the non-null messages with a type, in order, under consecutive numbers. |
| MsgStore.LoadTakes | lib/src/ToolsMsgMgrImpl.cpp:238-264 | Which those are, by place: exactly the entries that are there and have a type, received or sent, each with its kind and message. |
| MsgStore.LoadTakesAll | lib/src/ToolsMsgMgrImpl.cpp:238-264 | A list in which every message is there and has a type is stored whole, entry by entry. |
| MsgStore.AddNumbers | lib/src/ToolsMsgMgrImpl.cpp:258-262 | Loading keeps numbers distinct, below the counter, and increasing if they were. |
| MsgStore.DeleteFirst | lib/src/ToolsMsgMgrImpl.cpp:149-171 | Deleting one message removes the first with its number and nothing else. |
| MsgStore.PassRemovesFound | lib/src/ToolsMsgMgrImpl.cpp:126-147 | The pass removes exactly the leading listed messages that it meets in store order. |
| MsgStore.DeleteExact | lib/src/ToolsMsgMgrImpl.cpp:126-147 | A list in store order is deleted exactly, the rest kept in order. |
| MsgStore.DeleteOneExact | lib/src/ToolsMsgMgrImpl.cpp:149-171 | So is any single message, stored or not. |
| MsgStore.DeleteExactIff | lib/src/ToolsMsgMgrImpl.cpp:126-147 | For any list: exactly the listed messages go if and only if the stored ones among them come first and in store order. |
| MsgStore.SwappedListMissed | lib/src/ToolsMsgMgrImpl.cpp:126-147 | Two stored messages listed the other way round: one of them stays. |
| MsgStore.DeleteDistinct | lib/src/ToolsMsgMgrImpl.cpp:126-147 | Deletion keeps numbers distinct. |
| MsgStore.DeleteIncreasing | lib/src/ToolsMsgMgrImpl.cpp:126-147 | Deletion keeps numbers increasing. |
| MsgStore.RunNumbers | lib/src/ToolsMsgMgrImpl.cpp:504-509 | Over any run of sends, arrivals, loads and deletions stored numbers are distinct and below a counter that never goes back. |
| MsgStore.RunIncreasingIff | lib/src/ToolsMsgMgrImpl.cpp:504-509 | They increase along the list before, during and after a run if and only if they did before it and the protocol sends nothing from its received hook. |
| Loopback.SendListIsOnePass | lib/src/ToolsMsgMgrImpl.cpp:178-226 | Message by message through the chain puts out what all messages filter by filter would. |
| Loopback.DeliverAllIsOnePass | lib/src/ToolsMsgMgrImpl.cpp:352-415 | Block by block through filters, frame and store ends where all blocks stage by stage would. |
| Loopback.ReadsWritten | lib/include/cc_tools_qt/ToolsFrameBase.h:83-144 | Any blocks that carry what was written of a list read back as the messages that could be written. |
| Loopback.EchoReturnsWhatWasSent | plugin/echo_socket/EchoSocket.cpp:39-68 | The store gains a record of every message of a sent list that is not null, and then, as received and in order, every one that could be written; the frame's buffers are empty, the filters in sync. |
| Loopback.EchoEveryRound | plugin/echo_socket/EchoSocket.cpp:39-68 | The same over any number of rounds. |
| Loopback.SilentHandOvers | plugin/echo_socket/EchoSocket.cpp:55-68 | With a protocol that does not send in reaction, the socket hands back exactly the pending blocks. |
| Loopback.AnswerGoesOn | plugin/echo_socket/EchoSocket.cpp:55-68 | With a protocol that answers a message with itself, a block waits after any number of rounds. |
| Loopback.EchoSettles | plugin/echo_socket/EchoSocket.cpp:55-68 | A sent list handed back block by block leaves nothing pending and the link settled with the list sent and what was written of it received. |
| Generations.DiesOutOn | plugin/echo_socket/EchoSocket.cpp:55-68 | Hearing messages from the front of a queue and putting their replies at its end changes nothing about whether the generations of replies die out. |
| Generations.AncestryOn | plugin/echo_socket/EchoSocket.cpp:55-68 | It goes through the generations in order. |
| Generations.SilentDiesOut | lib/src/ToolsProtocol.cpp:353-355 | A protocol that never reacts has no second generation. |
| Generations.RankedDiesOut | plugin/echo_socket/EchoSocket.cpp:55-68 | If every reply ranks below what it answers, no generation is left after as many as the largest rank. |
| Generations.AnswerNeverDies | plugin/echo_socket/EchoSocket.cpp:55-68 | A protocol that always answers with the same message never dies out. |
| EchoAnswers.ReadsPart | lib/include/cc_tools_qt/ToolsFrameBase.h:83-144 | Any part of a stream of known messages is read as the messages it completes, with the beginning of the next one unread. |
| EchoAnswers.OneBlock | plugin/echo_socket/EchoSocket.cpp:58-67 | One block handed back: some messages from the front are heard and stored, and what waits then carries the rest and behind it their replies. |
| EchoAnswers.ExchangeEndsIff | plugin/echo_socket/EchoSocket.cpp:55-68 | Wherever an exchange stands, the loop ends if and only if the generations of replies to what is still to be heard die out. |
| EchoAnswers.SentEndsIff | plugin/echo_socket/EchoSocket.cpp:39-68 | So it does after a list has been sent, through any filters that return what they are given. |
| EchoAnswers.SentHears | plugin/echo_socket/EchoSocket.cpp:39-68 | What has been received when it ends are the generations one behind the other, all buffers are empty, and as many blocks were handed back as put out; without filters, as many as there are messages in the generations. |
| EchoAnswers.UnansweredEnds | lib/src/ToolsSocket.cpp:106-127 | If nobody listens or the socket is not connected, the loop ends with the blocks that were pending. |
| DemoEcho.DemoEchoes | plugin/echo_socket/EchoSocket.cpp:39-68 | Any demo messages, through any number of masking filters, come back whole and in order. |
| DemoEcho.DemoAnswersEnd | plugin/echo_socket/EchoSocket.cpp:39-68 | A demo protocol that answers only with larger ids, through any number of masking filters, comes to the end of the exchange with its own echo. |
| MsgMgr.EchoSocket.constructor | lib/src/ToolsSocket.cpp:58-62 | Not running, not connected, nothing pending. |
| MsgMgr.EchoSocket.Stop | lib/src/ToolsSocket.cpp:72-80 | It neither runs nor is connected; pending data stays. |
| MsgMgr.EchoSocket.SendData | lib/src/ToolsSocket.cpp:106-127 | Only while connected a block joins the end of the pending ones, which always have a timer to bring them back. |
| MsgMgr.EchoSocket.SendDataPostponed | plugin/echo_socket/EchoSocket.cpp:55-68 | Whenever the loop ends at all, everything pending and everything sent meanwhile has reached the manager, oldest first, when the socket runs and the manager listens, and was dropped otherwise. |
| MsgMgr.EchoSocket.HandBack | lib/src/ToolsSocket.cpp:185-206 | One pending block, with the running gate; what the protocol sends in reaction joins the end. |
| MsgMgr.ToolsMsgMgr.constructor | lib/src/ToolsMsgMgrImpl.h:112 | An empty store whose first number is 1. |
| MsgMgr.ToolsMsgMgr.Push | lib/src/ToolsMsgMgrImpl.cpp:184-194 | One record more, numbered by the counter, stored and reported. |
| MsgMgr.ToolsMsgMgr.RunFilter | lib/src/ToolsMsgMgrImpl.cpp:209-212 | One filter over a list of blocks, in either direction. |
| MsgMgr.ToolsMsgMgr.SendThrough | lib/src/ToolsMsgMgrImpl.cpp:455-472 | The reverse walk with its early exit is an injection; from the top it is the whole chain. |
| MsgMgr.ToolsMsgMgr.HandToSocket | lib/src/ToolsMsgMgrImpl.cpp:221-222 | Every block is handed over in order. |
| MsgMgr.ToolsMsgMgr.SendMsg | lib/src/ToolsMsgMgrImpl.cpp:178-235 | One message is written, passed down and recorded whatever became of it. |
| MsgMgr.ToolsMsgMgr.SendMsgs | lib/src/ToolsMsgMgrImpl.cpp:173-236 | Nothing without a socket or a protocol; else the list is sent, and the socket gets what was put out. |
| MsgMgr.ToolsMsgMgr.SendEach | lib/src/ToolsMsgMgrImpl.cpp:178-235 | The loop over the list. |
| MsgMgr.ToolsMsgMgr.FilterDataToSend | lib/src/ToolsMsgMgrImpl.cpp:434-482 | Data from filter k passes exactly the filters below it and reaches the socket, if there is one. |
| MsgMgr.ToolsMsgMgr.SocketDataReceived | lib/src/ToolsMsgMgrImpl.cpp:352-415 | While listening a block goes up the filters, through the frame and into the store; otherwise nothing changes. |
| MsgMgr.ToolsMsgMgr.PassUp | lib/src/ToolsMsgMgrImpl.cpp:362-382 | The forward walk with its early exit is the incoming chain. |
| MsgMgr.ToolsMsgMgr.ReadBlocks | lib/src/ToolsMsgMgrImpl.cpp:384-391 | The blocks are read one after the other and the messages joined. |
| MsgMgr.ToolsMsgMgr.StoreReceived | lib/src/ToolsMsgMgrImpl.cpp:392-414 | The batch is numbered, reacted to and reported one by one and stored at the end. |
| MsgMgr.ToolsMsgMgr.NumberAndReact | lib/src/ToolsMsgMgrImpl.cpp:396-412 | One round of that loop. |
| MsgMgr.ToolsMsgMgr.AddMsgs | lib/src/ToolsMsgMgrImpl.cpp:238-264 | Loaded messages are taken in. |
| MsgMgr.ToolsMsgMgr.DeleteMsgs | lib/src/ToolsMsgMgrImpl.cpp:126-147 | The two-iterator loop with its batched erases computes the pass. |
| MsgMgr.ToolsMsgMgr.DeleteMsg | lib/src/ToolsMsgMgrImpl.cpp:149-171 | The search and erase is the pass for one number. |
| MsgMgr.SendAndFire | plugin/echo_socket/EchoSocket.cpp:39-68 | On the objects, for any protocol for which the loop ends: send a list and let the timer fire. |
| MsgMgr.SendAndHearEcho | plugin/echo_socket/EchoSocket.cpp:39-68 | On the objects: send a list, let the timer fire, and the store has gained the list as sent and what was written of it as received; everything is settled for the next round. |
| EchoSession.SendAndHearAnswers | plugin/echo_socket/EchoSocket.cpp:39-68 | On the objects, with a protocol that answers: when a generation of its replies is empty the loop ends, and the store has gained, as received, the generations before it in order. |
| Bisect.FindsPartition | lib/src/ToolsMsgFactory.cpp:51-70 | Binary search finds the one place where a test turns from true to false. |
| TextOrder.MissingIffAbsent | app/cc_view/src/GuiAppMgr.cpp:916-918 | On a sorted list the binary search and comparison test non-membership. |
| TextOrder.LessMeaning | app/cc_view/src/GuiAppMgr.cpp:916-918 | The order is that of the first differing character, a beginning of a text being less than the text. |
| RecvList.CanAddMeaning | app/cc_view/src/GuiAppMgr.cpp:893-919 | A message without id text is displayable if and only if garbage is shown; any other if and only if its kind is shown and, while the filter applies, its description is not listed. |
| RecvList.GarbageSwitchIff | app/cc_view/src/GuiAppMgr.cpp:893-902 | The garbage switch makes a difference to a message if and only if it has no id text. |
| RecvList.SetModeMeaning | app/cc_view/src/GuiAppMgr.cpp:953-958 | A switch that is checked puts its bit into the mask, one that is not takes it out; no other bit changes. |
| RecvList.ToggleShows | app/cc_view/src/GuiAppMgr.cpp:949-964 | After a switch the list holds what the switch is about if and only if it is on, and of everything else what it would have held before. |
| RecvList.HandleDisplay | app/cc_view/src/GuiAppMgr.cpp:123-134 | A new filter list is the filter list from then on; apart from it only the switches change what is displayable. |
| RecvList.LoadFileReplaces | app/cc_view/src/GuiAppMgr.cpp:428-437 | A loaded file replaces the store by what was taken in from it and the list by the displayable part of that; numbers go on. |
| RecvList.DemoGarbageIsReceived | demo/cc_plugin/DemoMessage.cpp:33-36 | Garbage of the demo protocol is displayable if and only if received messages are shown and its description is not filtered out. |
| RecvList.DeleteShown | app/cc_view/src/GuiAppMgr.cpp:536-545 | Deleting the displayable messages leaves the others, in order. |
| RecvList.SendReports | lib/src/ToolsMsgMgrImpl.cpp:184-194 | Sending reports exactly its records, in order. |
| RecvList.AddReports | lib/src/ToolsMsgMgrImpl.cpp:258-262 | Loading reports exactly its records, in order. |
| RecvList.ReceiveReports | lib/src/ToolsMsgMgrImpl.cpp:396-412 | Receiving reports each message after what was sent in reaction to it. |
| RecvList.ReportedAsStoredIff | lib/src/ToolsMsgMgrImpl.cpp:411-414 | A batch is reported in the order in which it is stored if and only if the protocol reacts to none of it but perhaps the first message. |
| RecvList.ReactionsBetween | lib/src/ToolsMsgMgrImpl.cpp:396-414 | Two messages with a reaction to each are reported in an order that is not the stored one. |
| RecvList.ShownAsStoredIff | app/cc_view/src/GuiAppMgr.cpp:746-769 | What is displayable of a batch is reported in the order in which it is stored if and only if no displayable reaction comes behind a displayable receipt. |
| RecvList.ApplyAppends | lib/src/ToolsMsgMgrImpl.cpp:173-264 | Every operation the display can follow reports what it appends, the displayable part in store order. |
| RecvList.ClearLeavesHidden | app/cc_view/src/GuiAppMgr.cpp:536-545 | Clearing the displayed list leaves the store's other messages, in order, and the equal-size shortcut agrees with the general way. |
| RecvList.DeleteOneShown | app/cc_view/src/GuiAppMgr.cpp:191-202 | Deleting the message of one row removes that row of the filtered store and nothing else. |
| RecvList.HandleInStep | app/cc_view/src/GuiAppMgr.cpp:746-861 | Each orderly event keeps the displayed list equal to the filtered store, and its count right. |
| RecvList.ArrivalInStepIff | app/cc_view/src/GuiAppMgr.cpp:746-769 | Under any display, an arrival does so if and only if no displayable reaction comes behind a displayable receipt. |
| RecvList.RunInStepIff | app/cc_view/src/GuiAppMgr.cpp:746-964 | Over any run of sends, arrivals, loads, clicks, toggles and filter changes the display is the filtered store at all times if and only if every arrival is orderly under the display of its time. |
| RecvList.SilentRunInStep | app/cc_view/src/GuiAppMgr.cpp:746-964 | So it is on every run with a protocol that never sends in reaction. |
| RecvList.HidingSentInStep | app/cc_view/src/GuiAppMgr.cpp:893-911 | And on every arrival while sent messages are hidden, if every message has an id text. |
| GuiAppMgr.AppMgr.constructor | app/cc_view/src/GuiAppMgr.h:245-249 | Everything is shown, nothing listed. |
| GuiAppMgr.AppMgr.OnMsgAdded | app/cc_view/src/GuiAppMgr.cpp:746-769 | A reported message joins the displayed list if it is displayable. |
| GuiAppMgr.AppMgr.RefreshRecvList | app/cc_view/src/GuiAppMgr.cpp:829-861 | The list is rebuilt from the store. |
| GuiAppMgr.AppMgr.DeleteReported | app/cc_view/src/GuiAppMgr.cpp:536-545 | The reported messages are deleted, with the shortcut for lists as long as the store. |
| GuiAppMgr.AppMgr.ClearRecvList | app/cc_view/src/GuiAppMgr.cpp:871-891 | The list is emptied; its messages are deleted only when that is asked for. |
| GuiAppMgr.AppMgr.RecvClearClicked | app/cc_view/src/GuiAppMgr.cpp:204-208 | The list and its messages are gone. |
| GuiAppMgr.AppMgr.RecvDeleteClicked | app/cc_view/src/GuiAppMgr.cpp:191-202 | The selected message is gone from store, list and count. |
| GuiAppMgr.AppMgr.UpdateRecvListMode | app/cc_view/src/GuiAppMgr.cpp:949-964 | The bit is on if and only if the switch is checked, no other bit changes, and the list is rebuilt: it holds what the switch is about if and only if it is on. |
| GuiAppMgr.AppMgr.SetFilteredMessages | app/cc_view/src/GuiAppMgr.cpp:123-134 | The filter list is the new one; the list is rebuilt only if the filter applies. |
| GuiAppMgr.AppMgr.RecvLoadMsgs | app/cc_view/src/GuiAppMgr.cpp:428-437 | Store and list hold the loaded messages instead of the old ones. |
| GuiAppMgr.AppMgr.SendMsgs | app/cc_view/src/GuiAppMgr.cpp:702-719 | Manager and viewer together: the list is sent and stored, every report is displayed or not, and the displayed list stays equal to the filtered store. |
| GuiAppMgr.AppMgr.SocketDataReceived | app/cc_view/src/GuiAppMgr.cpp:714-719 | The same for a block of data that arrives; the displayed list stays equal to the filtered store if and only if the batch it completes is orderly. |
| HexCodec.HexRoundTrip | lib/src/ToolsMsgFileMgr.cpp:141-202 | Decoding the text of any data gives the data back. |
| HexCodec.DecodeKeepsNumber | lib/src/ToolsMsgFileMgr.cpp:171-202 | Any text decodes to the number its hexadecimal digits stand for, in as few octets as hold them; an odd count reads as with a leading zero. |
| HexCodec.DecodeDependsOnDigits | lib/src/ToolsMsgFileMgr.cpp:171-185 | Texts with the same digit values decode to the same data, whatever else is in them. |
| HexCodec.EncodeMsgData | lib/src/ToolsMsgFileMgr.cpp:141-151 | The loop computes the text form. |
| HexCodec.DecodeMsgData | lib/src/ToolsMsgFileMgr.cpp:171-202 | The loop over digits computes the data. |
| HexCodec.EncodedAt | lib/src/ToolsMsgFileMgr.cpp:141-151 | The text has two small digits for each octet, the more significant one first, and one blank between octets. |
| HexCodec.HexCharacters | lib/src/ToolsMsgFileMgr.cpp:171-202 | The hexadecimal digits are 0 to 9, a to f and A to F. |
| HexCodec.HexValues | lib/src/ToolsMsgFileMgr.cpp:141-202 | And these are their values. |
| HexCodec.StripParts | lib/src/ToolsMsgFileMgr.cpp:171-202 | Digits are kept wherever they stand, and everything else is dropped. |
| IdText.DecimalReadsBack | lib/src/ToolsMessage.cpp:131-134 | Every 64-bit id reads back from the text that messages have by default. |
| IdText.DemoReadsBack | demo/cc_plugin/DemoMessage.cpp:33-36 | Every id that is not negative reads back from the demo protocol's hexadecimal text. |
| IdText.NoDigitsNoId | lib/src/ToolsMsgFactory.cpp:28-46 | The empty text and the dash read as no id. |
| IdText.FormsReadBack | lib/src/ToolsMsgFactory.cpp:28-46 | A sign, either prefix, and hexadecimal digits without a prefix are read. |
| IdText.TooLargeNoId | lib/src/ToolsMsgFactory.cpp:28-46 | A number beyond 64 bits with sign reads as no id. |
| IdText.TextForms | demo/cc_plugin/DemoMessage.cpp:33-36 | How ids are written: in decimal with a minus sign if negative; in the demo protocol with the prefix 0x and at least two small hexadecimal digits. |
| IdText.DigitsPlain | lib/src/ToolsMessage.cpp:131-134 | Numbers have no leading zeros. |
| MsgFactory.CreateIsNth | lib/src/ToolsMsgFactory.cpp:48-80 | On a sorted table the lookup gives the idx-th entry with the id, and nothing exactly when there are not that many. |
| MsgFactory.FoundAt | lib/src/ToolsMsgFactory.cpp:48-80 | An entry is found by its id and an index if and only if the index counts the entries with its id before it. |
| MsgFactory.CreateAllMessages | lib/src/ToolsProtocol.cpp:165-187 | The loop gives the numbering. |
| MsgFactory.NumberIsRun | lib/src/ToolsProtocol.cpp:169-179 | Where texts read back and match, an entry is numbered by how many with its id precede it. |
| MsgFactory.NumberingAgrees | lib/src/ToolsProtocol.cpp:165-197 | Lookup by an entry's id text and number gives that entry, for all entries, if and only if every text reads back as its id and entries with the same id have the same text. |
| MsgFactory.UsualTextsReadBack | lib/src/ToolsMessage.cpp:131-134 | Tables with the default texts or the demo protocol's read back. |
| MsgFactory.DashNotFound | plugin/raw_data_protocol/cc_plugin/RawDataProtocolMessage.h:47-50 | The raw data protocol's message is found by no index and by no load. |
| MsgFactory.EmptyTextMisnumbered | lib/src/ToolsProtocol.cpp:169-179 | A table of one message without an id text: its number looks up nothing. |
| MsgFactory.CreateDense | lib/src/ToolsMsgFactory.cpp:72-77 | Where there is an idx-th message there are all before it. |
| MsgFactory.SearchFindsLeast | lib/src/ToolsMsgFileMgr.cpp:238-250 | The search ends, with the least index that accepts the data or with nothing exactly when none does. |
| MsgFactory.FindPicks | lib/src/ToolsMsgFileMgr.cpp:220-250 | A stored index other than 0 wins if it decodes; else the least that does. |
| MsgFactory.FindMessage | lib/src/ToolsMsgFileMgr.cpp:220-250 | The two loops compute that choice. |
| MsgFactory.TryDecode | lib/src/ToolsMsgFileMgr.cpp:225-233 | One attempt: created and decoded, or nothing. |
| MsgFile.ConvertToSendList | lib/src/ToolsMsgFileMgr.cpp:348-382 | The loop makes one entry for each message. |
| MsgFile.ConvertFromSendList | lib/src/ToolsMsgFileMgr.cpp:384-445 | The loop with its running timestamp computes the loaded list. |
| MsgFile.Timing | lib/src/ToolsMsgFileMgr.cpp:407-433 | Delay, count and running timestamp of one entry, on every way out of the block. |
| MsgFile.DelayCases | lib/src/ToolsMsgFileMgr.cpp:407-433 | Entries with a delay, period or count of their own keep it and do not count as recordings; the first recording has no delay, any other that of its timestamp after the one before, in 64 bits. |
| MsgFile.SendFileNoRecvList | lib/src/ToolsMsgFileMgr.cpp:329-334 | A saved send list loads as an empty receive list. |
| MsgFile.ConvertToRecvList | lib/src/ToolsMsgFileMgr.cpp:294-313 | The loop leaves out messages without id and data. |
| MsgFile.ConvertFromRecvList | lib/src/ToolsMsgFileMgr.cpp:315-346 | The loop skips entries that make no message and entries without a timestamp. |
| MsgFile.CreateMsgObject | lib/src/ToolsMsgFileMgr.cpp:154-261 | The message of an entry, or nothing. |
| MsgFile.FindsIff | lib/src/ToolsMsgFileMgr.cpp:220-250 | The search finds a message's prototype if and only if its text reads back, its data decodes to itself and nothing tried before it accepts that data. |
| MsgFile.ObjectKeptIff | lib/src/ToolsMsgFileMgr.cpp:124-261 | A saved message comes back with the same prototype and data if and only if it is faithful. |
| MsgFile.ObjectRoundTrip | lib/src/ToolsMsgFileMgr.cpp:124-261 | A faithful message comes back with its place among the messages with its id as index, and with its extra information. |
| MsgFile.NumberedFaithful | lib/src/ToolsProtocol.cpp:165-197 | A message the protocol numbered is faithful, and keeps its index, if and only if its data decodes to itself. |
| MsgFile.ReceivedFaithful | lib/include/cc_tools_qt/ToolsFrameBase.h:127-142 | A received message, which has no index property, is faithful if and only if no message before it with its id decodes its data. |
| MsgFile.RawMessageKept | lib/src/ToolsMsgFileMgr.cpp:167-218 | An invalid message is kept by a save and load if and only if such messages have no id text and it has data. |
| MsgFile.DemoGarbageChanges | demo/cc_plugin/DemoMessage.cpp:33-36 | Garbage of the demo protocol is lost or comes back as a message with the id 0. |
| MsgFile.DashLost | plugin/raw_data_protocol/cc_plugin/RawDataProtocolMessage.h:47-50 | Nothing the raw data protocol saved is ever loaded. |
| MsgFile.EmptyRawMessageLost | lib/src/ToolsMsgFileMgr.cpp:167-169 | Where invalid messages have no id text, one without data is saved as an entry and not loaded. |
| MsgFile.SendListKeptIff | lib/src/ToolsMsgFileMgr.cpp:348-445 | A send list comes back in order with all send properties, an unset or pointless zero count as one, if and only if all its messages are faithful. |
| MsgFile.RecvListKeptIff | lib/src/ToolsMsgFileMgr.cpp:263-346 | A receive list comes back in order with timestamps, kinds and comments, without the messages that had no timestamp, if and only if all the others are faithful. |
| Replay.AlikeRuns | lib/src/ToolsMsgSendMgrImpl.cpp:86-92 | Lists that differ only in counts of messages without a period have the same run, whatever their delays. |
| Replay.SavedListSendsAlike | lib/src/ToolsMsgFileMgr.cpp:348-445 | A send list that was saved and loaded makes the scheduler do the same callbacks at the same instants. |
| Replay.DelaysKeepSpacing | lib/src/ToolsMsgFileMgr.cpp:407-433 | Delays made from timestamps add up to the distances from the first if and only if the timestamps never decrease. |
| Replay.ClockSetBack | lib/src/ToolsMsgFileMgr.cpp:424-430 | Timestamps 2 and 1 load as the delays 0 and 2^64 - 1. |
| Replay.LoadedDelays | lib/src/ToolsMsgFileMgr.cpp:390-442 | Recorded entries load as messages sent once, with the delays of the timestamps of those that could be loaded. |
| Replay.OnceOnTimeIff | lib/src/ToolsMsgSendMgrImpl.cpp:141-149 | Messages sent once are on time if and only if every single delay fits the timer. |
| Replay.RecordingOnTimeIff | lib/src/ToolsMsgSendMgrImpl.cpp:141-149 | A recording is replayed on time if and only if no pause is longer than 2^31 - 1. |
| Replay.LongPauseStops | lib/src/ToolsMsgSendMgrImpl.cpp:141-149 | After a pause of 2^31 the timer is started with a negative value and the second message is never sent. |
| Replay.ReplayKeepsSpacing | lib/src/ToolsMsgFileMgr.cpp:384-445 | When pauses fit, the scheduler sends each loaded message of a recording once, at its distance from the first, and does get there. |
| Replay.SessionTimed | lib/src/ToolsMsgFileMgr.cpp:263-313 | A recorded session is saved with all its messages and timestamps. |
| Replay.RecordedSessionReplays | lib/src/ToolsMsgFileMgr.cpp:263-445 | Record, save, load for sending, run: each message of a session with fitting pauses goes out once, at its original distance from the first. |
| Replay.RecordedSessionContents | lib/src/ToolsMsgFileMgr.cpp:263-445 | And the loaded list has the prototypes and data of the recorded one, in order. |

## Left out

- SendOnTime.RunOnSchedule: and the other theorems for lists on time say nothing about the times of lists that are not; `FollowsAgendaIff` says exactly which those are.
- Copying of message contents and properties to clones: clones share their original's content, so its position in the list stands for it.
- MsgMgr.ToolsMsgMgr.SendMsg: does not report a sent message to the protocol, nor send what the protocol might ask for on that report; no protocol in the repository asks for anything there.
- MsgMgr.EchoSocket.SendDataPostponed: is given a number of blocks after which none waits, since a method must end; `EchoAnswers.ExchangeEndsIff` says when there is one.
- RecvList.HandleInStep: covers orderly arrivals; `ArrivalInStepIff` shows that every other arrival breaks the property.
- Loopback.EchoReturnsWhatWasSent: what is written must be accepted by the frame, filters must undo themselves, the protocol must not send on its own account; `EchoAnswers.SentHears` is for protocols that do.
- EchoAnswers.SentEndsIff: everything written in the course of the exchange must be accepted by the frame, whose answers must be stable, and filters must return what they are given.
- MsgStore.RunNumbers: the counter is unbounded; the code asserts that it does not wrap around.
- IdText.ParseId: blanks around an id text, which the number reader of Qt may skip, make it no id here.
- MsgFile.ObjectKeptIff: what a decoded message encodes to is a parameter; extra information is a map that is copied; the default messages are sorted by id, as the code's binary search expects.
- HexCodec.DecodeMsgData: digits outside ASCII, which the code's digit test also lets through, are not modelled.
- DemoFrame.DemoMeetsAssumptions: the layer classes come from a library that is not part of this model; the decoder follows the declared order, widths, ranges and length offset.
- Callbacks that start or stop sending from inside a callback, other than the viewer's stop at completion, which comes last and changes nothing.
- Two store entries that are the same message object: stored messages are values here.
- Extra properties of data blocks and their merging into messages; wall-clock timestamps given to messages that have none.
- Starting, stopping and clearing the manager and the filters; sockets other than the echo socket; connection reports.
- Selection, display and titles in the viewer; the mode mask is the set of its bits.
- JSON, files and their temporary names; number precision in JSON.
- Field wrappers, plugin loading, configuration, widgets, TCP, UDP, SSL and serial sockets.
- Statements that fail an assertion in a debug build are modelled as a release build runs them.
