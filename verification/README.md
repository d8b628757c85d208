# GreekBot: a verified model

GreekBot is a Discord client together with a moderation bot. This project models its protocol machinery, codecs,
batching algorithms, database ownership and table-driven features in Dafny, and proves what every run of them keeps.

Each module models one part of the system. Code that updates state in place is a class or a method over arrays and is
proved equal to a function on values; the lemmas are about those functions, over all inputs and all runs. Events
that come from outside (network completions, timers, signals, replies of SQLite, the clock, the ids of new messages)
are parameters, and a run is any sequence of them.

- `HttpQueue`: the queue of HTTP requests, with callers that submit again while they are being resumed.
- `GuildMembers`: the chunk protocol of a guild member request, its suspended consumer and the requests that wait for a session.
- `GatewaySession`: the life of the websocket sessions, their replacement, heartbeats, write queues and termination.
- `Base64`, `Calendar`, `IsoTimestamp`: the codecs, with the proleptic Gregorian calendar that the timestamps need.
- `Pagination`, `BulkDelete`, `Report`: message retrieval, message deletion and a long report, in pieces.
- `Database`: who owns a connection, and what a busy database does to a transaction.
- `Infractions`, `Starboard`, `StarboardRank`: the tables, their handlers and their rankings.
- `Levels`, `RankRoles`, `RoleCache`: XP levels, rank roles, and the lazily sorted roles of the guild.
- `Decimal`, `IntSets`, `Wrappers`: decimal digits, the maximum of a set, and optional values, used by the others.

Several properties one would expect do not hold of the code. In these cases the code is modelled as it is, and a lemma
gives the exact condition, often beside a concrete failing input:

- a printed timestamp can be parsed back only for years 0000 to 9999 (`IsoTimestamp.RoundTripIff`);
- the decoder's padding test accepts `?` for `=` (`Base64.AcceptsExactly`, `Base64.QuestionMarkPasses`);
- rank roles are unique and stable only below level 150 (`RankRoles.SettledIffBelow150`, `RankRoles.VeteransPileUp`);
- a stored reaction count is exact only if no removal found it at 1 (`Starboard.CountIsLiveIff`, `Starboard.CountDrifts`);
- two warnings handled in the other order, by however little, can put one infraction behind two timeouts
  (`Infractions.WarnKeepsTidyIff`, `Infractions.SwappedWarnings`);
- a statement retried on a busy database loses the work of its transaction (`Database.ExecKeepsWorkIff`);
- an event for a member request that has failed but whose entry is not erased yet resumes a finished coroutine
  (`GuildMembers.StaleIff`, `GuildMembers.StaleResumption`), until the erasure ends that window
  (`GuildMembers.ErasedForGood`);
- a signal does not stop a connection attempt under way (`GatewaySession.SignalEndsIff`, `GatewaySession.SignalWhileConnecting`).

Where the code and its comments disagree, the model follows the code: the field `level_xp` is documented as the XP needed
to reach the level, but a member who has exactly that much is still one level below (`Levels.AtThreshold`); messages
"not older than 2 weeks" are those at most 13 days old (`BulkDelete.YoungIsThirteenDays`).

## Model

| member | source | states |
|---|---|---|
| HttpQueue.Gateway.Request | Discord/Gateway/GatewayHttp.cpp:112-139 | A request joins the end of the queue and starts an operation only when it is alone; once the session terminates it is turned away |
| HttpQueue.Gateway.HttpStart | Discord/Gateway/GatewayHttp.cpp:37-38 | An operation is started only while none is in flight, and is recorded with the front request it is started for |
| HttpQueue.Gateway.OnConnected | Discord/Gateway/GatewayHttp.cpp:9-25 | With a stream, the timer is cancelled and the request at the front is the one written |
| HttpQueue.Gateway.OnEndOfStream | Discord/Gateway/GatewayHttp.cpp:27-30 | A stream found closed is dropped and the same operation starts over |
| HttpQueue.Gateway.OnTimer | Discord/Gateway/GatewayHttp.cpp:49-55 | The idle timer drops the stream only if no request is queued |
| HttpQueue.Gateway.OnTerminate | Discord/Gateway/GatewayImpl.cpp:83-86 | Termination cancels the timer and leaves queue and operation in flight to the completion |
| HttpQueue.Gateway.Resume | Discord/Gateway/GatewayHttp.cpp:134-137 | A resumed caller sees the exception as it was at that moment, and any list of requests it then submits is queued in order |
| HttpQueue.Gateway.OnComplete | Discord/Gateway/GatewayHttp.cpp:38-78 | The whole state after a completion: the next operation is started before the caller is resumed, the stream is kept only for a kept-alive success |
| HttpQueue.Gateway.Drain | Discord/Gateway/GatewayHttp.cpp:69-77 | On termination the finished caller gets its own outcome, every pending one the reset, in order, and their new requests are refused |
| HttpQueue.CompletedKeepsInv | Discord/Gateway/GatewayHttp.cpp:38-78 | A completion with re-entrant submissions keeps one operation in flight, recorded for the front, iff the queue is non-empty, FIFO order, and each resumption equal to the completion of its own operation |
| HttpQueue.StepKeepsInv | Discord/Gateway/GatewayHttp.cpp:5-79 | Every event keeps the same invariant, including reconnects, idle timers and termination |
| HttpQueue.RunKeepsInv | Discord/Gateway/GatewayHttp.cpp:5-139 | So does every run of submissions, completions, reconnects, timers and termination |
| HttpQueue.ResumedExactlyOnce | Discord/Gateway/GatewayHttp.cpp:36-79 | In every run the i-th accepted caller has either been resumed once, i-th, with the outcome of the operation that was started for it or with the reset, or is still queued at its place |
| HttpQueue.TimerSparesExchange | Discord/Gateway/GatewayHttp.cpp:47-55 | The idle timer never shuts down a stream that an exchange is using |
| HttpQueue.TerminationDrains | Discord/Gateway/GatewayHttp.cpp:62-77 | After termination the operation in flight ends every pending wait exactly once and leaves the queue empty |
| HttpQueue.StaysDrained | Discord/Gateway/GatewayHttp.cpp:114-115 | From then on, whatever happens, the queue stays empty and nobody is accepted or resumed |
| HttpQueue.SubmissionsAccounted | Discord/Gateway/GatewayHttp.cpp:112-117 | In every run the accepted callers are exactly the submissions made before termination, re-entrant ones included and in order, and those turned away exactly the submissions made after it |
| HttpQueue.NobodyTurnedAway | Discord/Gateway/GatewayHttp.cpp:114-117 | In every run without termination nobody is turned away |
| HttpQueue.StreamExactly | Discord/Gateway/GatewayHttp.cpp:9-60 | A stream is there from a connection on until it is found closed, an operation does not keep it, or it expires with an empty queue |
| HttpQueue.TimerExactly | Discord/Gateway/GatewayHttp.cpp:20-49 | The idle timer runs exactly from an operation that kept the stream to the next connection, its expiry or termination |
| HttpQueue.ExchangeExactly | Discord/Gateway/GatewayHttp.cpp:9-35 | A request is being exchanged exactly from a connection to its completion or a closed stream |
| HttpQueue.TransportExactly | Discord/Gateway/GatewayHttp.cpp:38-44 | Each completion is logged once, for the caller at the front |
| HttpQueue.ExceptionExactly | Discord/Gateway/GatewayHttp.cpp:43-76 | Between two completions the exception is the outcome of the last one, or the reset |
| HttpQueue.EventsPossible | Discord/Gateway/GatewayHttp.cpp:5-79 | Requests, timers and termination can come at any time; connections and completions exactly with an operation under way |
| GuildMembers.Gateway.RequestMembers | Discord/Gateway/GatewayGuildMembers.cpp:101-161 | A request for all members is refused iff the privileged intents are not known to be there, which are fetched at most once; any other takes the next number and is sent and suspended at once if there is a session, or waits its turn |
| GuildMembers.Gateway.RgmResume | Discord/Gateway/GatewayGuildMembers.cpp:26-32 | With a session, every waiting request is resumed once, in order, and none is left; ends |
| GuildMembers.NeverEmpties | Discord/Gateway/GatewayGuildMembers.cpp:19-31 | Without a session no number of resumptions would empty the list, so the loop would not end |
| GuildMembers.RegisteredAt | Discord/Gateway/GatewayGuildMembers.cpp:125-131 | The entries after the resumption: a fresh one for exactly the requests that waited, the others unchanged |
| GuildMembers.Gateway.OnChunk | Discord/Gateway/GatewayEvents.cpp:223-241 | A chunk or its parse error reaches exactly the entry of its number and wakes its coroutine; an unknown number changes nothing and is reported |
| GuildMembers.Gateway.OnRateLimited | Discord/Gateway/GatewayEvents.cpp:247-265 | A rate limit fails exactly the request it names |
| GuildMembers.Gateway.RgmReset | Discord/Gateway/GatewayGuildMembers.cpp:34-53 | A session reset reaches every entry once and removes none |
| GuildMembers.Gateway.RgmTimeout | Discord/Gateway/GatewayGuildMembers.cpp:55-74 | Only requests suspended for more than two minutes fail; the others are untouched |
| GuildMembers.Gateway.Read | Discord/Gateway/GatewayGuildMembers.cpp:173-176 | The reader gets the next member of the front chunk, or the coroutine goes back to the strand |
| GuildMembers.Gateway.Return | Discord/Gateway/GatewayGuildMembers.cpp:162-178 | The finished chunk is popped and the loop runs on to the next member, the next wait, the end or a failure |
| GuildMembers.Resume | Discord/Gateway/GatewayGuildMembers.cpp:132-138 | A resumption rethrows an exception without clearing the handle, and otherwise clears it and consumes |
| GuildMembers.RunLoop | Discord/Gateway/GatewayGuildMembers.cpp:162-178 | The loop over the chunks computes the recursive form that the invariants are proved for |
| GuildMembers.StepKeepsInv | Discord/Gateway/GatewayGuildMembers.cpp:115-178 | Any arrival, failure, timeout or reader step keeps what has been yielded equal to whole chunks in order plus the part of the current one |
| GuildMembers.RunKeepsInv | Discord/Gateway/GatewayGuildMembers.cpp:115-178 | So does every run of these events |
| GuildMembers.ArrivedIs | Discord/Gateway/GatewayEvents.cpp:223-241 | No chunk is lost: in every run those that count as arrived are those that the events brought before the erasure, in order |
| GuildMembers.YieldsPrefix | Discord/Gateway/GatewayGuildMembers.cpp:160-178 | In every run the members yielded are a prefix of those of chunks 0, 1, 2, ..., which are numbered so and agree on their count |
| GuildMembers.NoLostWakeup | Discord/Gateway/GatewayGuildMembers.cpp:125-131 | A suspended consumer can be resumed and has left neither a chunk nor an exception behind |
| GuildMembers.ReadingProgresses | Discord/Gateway/GatewayGuildMembers.cpp:173-178 | Each reader step leaves less to read, so reading comes to an end |
| GuildMembers.AllMembersOnce | Discord/Gateway/GatewayGuildMembers.cpp:160-178 | In-order chunks of equal count, in any interleaving with the reader: all members exactly once, then the end |
| GuildMembers.ReadingStops | Discord/Gateway/GatewayGuildMembers.cpp:160-178 | Reading under way ends normally iff all chunks are there in sequence, and waits iff there is no exception and the chunks so far are in sequence |
| GuildMembers.TimesOutIff | Discord/Gateway/GatewayGuildMembers.cpp:55-74 | In every run a heartbeat fails a suspended request iff the event that suspended it last is more than two minutes back |
| GuildMembers.OnlyWaitingTimesOut | Discord/Gateway/GatewayGuildMembers.cpp:64-64 | A heartbeat fails no request that is not suspended |
| GuildMembers.ErrorIs | Discord/Gateway/GatewayGuildMembers.cpp:125-171 | A request fails with the failure that came, the one that was kept, or that of a chunk out of turn, and with no other |
| GuildMembers.ExceptIs | Discord/Gateway/GatewayGuildMembers.cpp:46-70 | The exception kept in an entry is the last failure that reached it |
| GuildMembers.EventsPossible | Discord/Gateway/GatewayGuildMembers.cpp:115-178 | Chunks, failures and heartbeats can come at any time; reader, coroutine and erasure exactly in their turn |
| GuildMembers.StaleIff | Discord/Gateway/GatewayGuildMembers.cpp:132-138 | A finished coroutine is resumed iff a waking event reaches a failed request that still has its handle |
| GuildMembers.HandleKeptIff | Discord/Gateway/GatewayGuildMembers.cpp:132-138 | A failing request keeps its handle iff an exception ended its wait, not a chunk out of turn |
| GuildMembers.StaleResumption | Discord/Gateway/GatewayGuildMembers.cpp:119-138 | A concrete run: two failures before the deferred erase resume a finished coroutine |
| GuildMembers.Gateway.EraseEntry | Discord/Gateway/GatewayGuildMembers.cpp:119-122 | The deferred erasure removes the entry of a finished request, and no other |
| GuildMembers.ErasedForGood | Discord/Gateway/GatewayGuildMembers.cpp:119-122 | After the erasure no run changes the request any more, so a stale resumption is only possible before it |
| GuildMembers.ErasedIff | Discord/Gateway/GatewayGuildMembers.cpp:119-122 | In every run the entry of a request is there until its deferred erasure, and gone from then on |
| GuildMembers.StaleNeedsFailure | Discord/Gateway/GatewayGuildMembers.cpp:132-138 | Without a failure from outside no run resumes a finished coroutine, not even after a chunk out of turn |
| GuildMembers.AbandonEnds | Discord/Gateway/GatewayGuildMembers.cpp:173-178 | A reader who stops is given nothing more, whatever arrives |
| GuildMembers.RequestMembersById | Discord/Gateway/GatewayGuildMembers.cpp:81-98 | Batches of at most 100 ids, all but the last full, whose concatenation is the list; no batch for an empty list |
| GatewaySession.Gateway.Send | Discord/Gateway/GatewayImpl.cpp:33-40 | A message joins the session's queue, and a write of that message is started only if it is alone |
| GatewaySession.Gateway.Restart | Discord/Gateway/GatewayImpl.cpp:42-55 | The first call closes the session with a close frame, clears the name and starts one replacement unless terminating; later calls do nothing |
| GatewaySession.Gateway.OnClose | Discord/Gateway/GatewayImpl.cpp:56-67 | The same without a close frame |
| GatewaySession.Gateway.OnReadHandler | Discord/Gateway/GatewayImpl.cpp:69-205 | The first read names the session before anything else; fatal codes terminate even if the session is closing already; each error and opcode has its effect on the whole state |
| GatewaySession.Gateway.OnWriteHandler | Discord/Gateway/GatewayImpl.cpp:207-226 | A written message is popped and the next write started; a failure restarts; a closing session is left alone |
| GatewaySession.Gateway.OnExpireHandler | Discord/Gateway/GatewayImpl.cpp:228-240 | A heartbeat is sent only if the last one was acknowledged, and otherwise the session is restarted |
| GatewaySession.Gateway.OnConnect | Discord/Gateway/GatewayImpl.cpp:288-303 | An attempt ends as a session or as a countdown |
| GatewaySession.Gateway.OnRetry | Discord/Gateway/GatewayImpl.cpp:305-341 | The countdown ends as a new attempt, or as nothing when terminating |
| GatewaySession.Gateway.OnSignal | Discord/Gateway/GatewayImpl.cpp:364-388 | A signal terminates and restarts the named session, if there is one |
| GatewaySession.StepKeepsInv | Discord/Gateway/GatewayImpl.cpp:33-341 | Every event keeps the session invariant and never increases sessions plus attempts |
| GatewaySession.RunKeepsInv | Discord/Gateway/GatewayImpl.cpp:33-341 | Every run of reads, writes, timers, attempts and signals keeps it |
| GatewaySession.ExactlyOne | Discord/Gateway/GatewayImpl.cpp:43-67 | In every run live sessions, attempts and countdowns are exactly one until termination and at most one after it; a named session is live; no session is replaced twice |
| GatewaySession.NothingNewOnceTerminating | Discord/Gateway/GatewayImpl.cpp:53-54 | After termination no run starts a replacement or increases the count |
| GatewaySession.RetiredOnce | Discord/Gateway/GatewayImpl.cpp:44-44 | Closing twice, in either way, is closing once |
| GatewaySession.ClosedForGood | Discord/Gateway/GatewayImpl.cpp:42-67 | Whatever its handlers still report, a closed session stays closed, unnamed and is not replaced again |
| GatewaySession.DispatchFindsSession | Discord/Gateway/GatewayGuildMembers.cpp:19-22 | When READY or RESUMED is processed the session pointer names the session it came from, as the resumption of waiting requests needs |
| GatewaySession.MessagesInOrder | Discord/Gateway/GatewayImpl.cpp:33-40 | In every run each session's messages are written in the order of submission; at most one write is in flight, and it was started with the message at the front |
| GatewaySession.ZombieIsClosed | Discord/Gateway/GatewayImpl.cpp:229-240 | A session does not outlive two heartbeats without an acknowledgement between them, whatever else happens |
| GatewaySession.HeartbeatIff | Discord/Gateway/GatewayImpl.cpp:193-240 | In every run a heartbeat timer ends an open session iff no HELLO or acknowledgement came since its last heartbeat; otherwise it stays open and the next heartbeat is submitted |
| GatewaySession.EndsExactly | Discord/Gateway/GatewayImpl.cpp:42-240 | Which events end an open session, with or without a close frame, and that each starts a replacement unless terminating |
| GatewaySession.SubmitsExactly | Discord/Gateway/GatewayImpl.cpp:33-240 | Which events submit a message on an open session, and that a completed write is that of the front; a closed session gets none |
| GatewaySession.StartsExactly | Discord/Gateway/GatewayImpl.cpp:69-388 | Which events make a session, an attempt, a countdown or the termination, the last by the six fatal close codes or a signal |
| GatewaySession.BeginsExactly | Discord/Gateway/GatewayImpl.cpp:294-297 | The first read names its session unless it ends it |
| GatewaySession.EventsPossible | Discord/Gateway/GatewayImpl.cpp:33-388 | Which events can happen in a state that a run reaches |
| GatewaySession.SignalEndsIff | Discord/Gateway/GatewayImpl.cpp:378-382 | A signal ends everything at once iff a session is established |
| GatewaySession.SignalWhileConnecting | Discord/Gateway/GatewayImpl.cpp:288-299 | A concrete run: a signal during the attempt leaves a live session behind |
| Base64.EncodedLength | Discord/Utils/Base64.cpp:3-42 | The encoded length is 4 * ceil(n / 3) |
| Base64.Encode | Discord/Utils/Base64.cpp:3-42 | The pointer-advancing encoder writes in bounds and produces the recursive encoding |
| Base64.EncodedSpellsBits | Discord/Utils/Base64.cpp:3-42 | The characters before the padding spell the bits of the data, six by six, filled up with zeros |
| Base64.AlphabetIs | Discord/Utils/Base64.cpp:6-13 | The 64 characters and the padding are those of RFC 4648 |
| Base64.Decode | Discord/Utils/Base64.cpp:44-126 | The decoding loop reads in bounds and computes the recursive decoding, or fails where that fails |
| Base64.TablesInverse | Discord/Utils/Base64.cpp:4-65 | The two character tables are inverse to each other |
| Base64.RoundTrip | Discord/Utils/Base64.cpp:3-126 | Decoding the encoding of any bytes returns them, with the padding and without it |
| Base64.DecodedSpellsBits | Discord/Utils/Base64.cpp:44-126 | The decoded bytes of any accepted text over the alphabet and `=` spell its bits in order, also where the last bits are not zero |
| Base64.DecodedLength | Discord/Utils/Base64.cpp:44-126 | They are three for every four characters before the padding, rounded down |
| Base64.AndIsBitwise | Discord/Utils/Base64.cpp:109-109 | The padding test combines its operands bit by bit |
| Base64.PaddingExact | Discord/Utils/Base64.cpp:109-109 | Over the alphabet and `=` the bitwise test singles out two `=` |
| Base64.AcceptsExactly | Discord/Utils/Base64.cpp:44-126 | On every byte string: decoding succeeds iff all characters before the final quantum are in the alphabet and that quantum is well-formed or passes the bitwise test |
| Base64.AcceptsWellFormed | Discord/Utils/Base64.cpp:44-126 | Over the alphabet and `=` it succeeds iff the text is base64 with optional padding |
| Base64.QuestionMarkPasses | Discord/Utils/Base64.cpp:109-109 | A concrete text outside the alphabet that decodes like a padded one |
| Calendar.NextIsPlusOne | Discord/Utils/Utils.cpp:143-149 | Day numbers follow the calendar day by day, with its month lengths and leap years |
| Calendar.ToFrom | Discord/Utils.h:134-144 | Every day number is that of a calendar date |
| Calendar.FromTo | Discord/Utils/Utils.cpp:143-149 | A calendar date is found again from its day number |
| Calendar.EpochIsZero | Discord/Utils/Utils.cpp:196-196 | Days count from the first of January 1970 |
| Calendar.MonthGaps | Discord/Utils/Utils.cpp:143-149 | How far apart the months begin, in day numbers and by the 4, 100 and 400 year rule written out |
| Calendar.DateIff | Discord/Utils/Utils.cpp:149-149 | A date is valid iff its day comes before the following month begins |
| Calendar.DaysOfMonths | Discord/Utils/Utils.cpp:149-149 | The valid days, by a formula in the number of the month |
| Calendar.CivilDays | Discord/Utils/Utils.cpp:196-196 | The day number of any date in closed form |
| IsoTimestamp.ParseISOTimestamp | Discord/Utils/Utils.cpp:109-235 | On every string all reads are in bounds and the result is that of the grammar's parser |
| IsoTimestamp.ReadDate | Discord/Utils/Utils.cpp:124-149 | The date digits, in either format, land in their places iff the text starts with a date |
| IsoTimestamp.ReadTime | Discord/Utils/Utils.cpp:150-188 | The same for the time |
| IsoTimestamp.SkipFraction | Discord/Utils/Utils.cpp:163-179 | Up to three decimals are kept, further ones skipped, and missing ones are zero |
| IsoTimestamp.ReadZone | Discord/Utils/Utils.cpp:197-231 | The zone is accepted iff it is `Z`, absent, or an offset in the format of the time and in range, and gives its signed minutes |
| IsoTimestamp.AddZone | Discord/Utils/Utils.cpp:197-234 | From the zone on: the time so far less the signed offset, or failure exactly where the zone is not accepted |
| IsoTimestamp.Sound | Discord/Utils/Utils.cpp:109-235 | Whatever is accepted is the spelling of well-formed fields |
| IsoTimestamp.Complete | Discord/Utils/Utils.cpp:109-235 | The spelling of any well-formed fields is accepted and gives them back |
| IsoTimestamp.ParserExact | Discord/Utils/Utils.cpp:109-235 | Acceptance is exactly the grammar, and the value is the instant that the fields name |
| IsoTimestamp.SpellingsAgree | Discord/Utils/Utils.cpp:109-235 | Basic and extended spellings of the same fields name the same instant |
| IsoTimestamp.PlainExactly | Discord/Utils/Utils.cpp:109-235 | Any digits in the shape of a timestamp in UTC or without zone are accepted iff date and time exist and the formats agree, with the value in closed form |
| IsoTimestamp.OffsetExactly | Discord/Utils/Utils.cpp:197-234 | With an offset also iff that is below 24 hours and 60 minutes and in the format of the time, and shifted by it |
| IsoTimestamp.FractionExactly | Discord/Utils/Utils.cpp:163-179 | With a fraction iff all is in the extended format, plus its first three digits as milliseconds |
| IsoTimestamp.ZoneShifts | Discord/Utils/Utils.cpp:229-234 | A zone shifts the instant by exactly its signed offset |
| IsoTimestamp.FormatRenders | Discord/Utils.h:134-144 | For four-digit years the printed form is the extended spelling of the time point's fields |
| IsoTimestamp.FormatWritten | Discord/Utils.h:134-144 | The printed form, digit by digit: the date and time that add up to the time point, three decimals, three zeros and `Z` |
| IsoTimestamp.YearsBeforeZero | Discord/Utils.h:134-144 | A year before 0 is printed as a sign and three digits |
| IsoTimestamp.RoundTripIff | Discord/Utils.h:134-144 | Parsing a printed time point returns it iff its year is 0000 to 9999, and otherwise fails |
| Pagination.PageIgnoresArrivals | Discord/Bot_ChannelMessages.cpp:74-79 | A page before a known message does not depend on newer arrivals |
| Pagination.GetChannelMessages | Discord/Bot_ChannelMessages.cpp:81-110 | For any channel, changing between requests, the generator's loops yield and request what the recursive form says |
| Pagination.GetChannelMessagesBefore | Discord/Bot_ChannelMessages.cpp:112-144 | The same from a given message on, with its decreasing limit and its message counter |
| Pagination.RequestsAreLegal | Discord/Bot_ChannelMessages.cpp:81-144 | Each request asks for 1 to 100 messages, and there are at most ceil(limit / 100) of them |
| Pagination.RequestsFollow | Discord/Bot_ChannelMessages.cpp:119-134 | Each further request is for what is before the last of the messages so far, of which there are 100 for each request before it |
| Pagination.ExactlyTheNewest | Discord/Bot_ChannelMessages.cpp:81-144 | Without deletions: exactly the newest min(limit, size) messages as of the first page (older than the given one), whatever arrives between pages |
| Pagination.NoneTwice | Discord/Bot_ChannelMessages.cpp:81-144 | Whatever arrives or is deleted between pages, the messages come strictly newest first, so none twice, and at most as many as the limit |
| Pagination.NoneSkipped | Discord/Bot_ChannelMessages.cpp:81-144 | A message that is in the channel at every request is yielded, unless the limit is used up by newer ones |
| BulkDelete.IdOrderRefinesTime | Discord/Base/Snowflake.h:49-53 | A greater id never has an earlier timestamp |
| BulkDelete.YoungIsThirteenDays | Discord/Bot_ChannelMessages.cpp:46-46 | The age test holds iff the message is at most 13 days old |
| BulkDelete.TimestampSample | Discord/Base/Snowflake.h:49-53 | The timestamp of a known snowflake |
| BulkDelete.Partition | Discord/Bot_ChannelMessages.cpp:42-52 | The two-ended partition stays in its array, keeps young ids in order in front and the others reversed behind |
| BulkDelete.SortDescending | Discord/Bot_ChannelMessages.cpp:66-67 | The part to delete one by one is sorted, and nothing else moves |
| BulkDelete.DeleteBatch | Discord/Bot_ChannelMessages.cpp:33-70 | One bulk call for all young ids if there are two or more, and single calls for the rest, newest first |
| BulkDelete.DeleteMessages | Discord/Bot_ChannelMessages.cpp:22-72 | The ids over all calls are the ids given, as bags, in ceil(n / 100) batches that each obey the rules |
| BulkDelete.BulkCallsAreLegal | Discord/Bot_ChannelMessages.cpp:53-60 | Every bulk call has 2 to 100 ids of its batch, each at most 13 days old |
| BulkDelete.YoungGoTogether | Discord/Bot_ChannelMessages.cpp:53-64 | Two or more young messages of a batch all go in one bulk call, the first and only one |
| BulkDelete.SinglesAreOrdered | Discord/Bot_ChannelMessages.cpp:65-70 | Single deletions of a batch go from newer to older by id and time, with at most one young message among them |
| Report.AppendSection | GreekBot/Nicknames.cpp:212-235 | A section is its header and the mentions joined by spaces, ended by a newline, and nothing for an empty list |
| Report.Formulate | GreekBot/Nicknames.cpp:212-235 | The report is the three sections in order |
| Report.ReportSamples | GreekBot/Nicknames.cpp:212-235 | The wording of the report on sample lists, and for nobody |
| Decimal.PrintWorth | GreekBot/Nicknames.cpp:219-219 | An id is printed as digits that are worth it, without leading zeros |
| Report.TextDense | GreekBot/Nicknames.cpp:212-235 | For any member lists no 64 characters of the report are without a space |
| Report.RFind | GreekBot/Nicknames.cpp:250-250 | The last occurrence at or before a position, if there is one |
| Report.Cut | GreekBot/Nicknames.cpp:249-250 | The inner loop ends at the last space within the limit |
| Report.CutKeepsWord | GreekBot/Nicknames.cpp:252-256 | A word without spaces survives a cut at a space on one side of it |
| Report.Send | GreekBot/Nicknames.cpp:246-259 | The outer loop ends; every piece fits a message and is as long as it can be; joined by spaces the pieces are the report; no word is split |
| Report.SendReport | GreekBot/Nicknames.cpp:212-259 | The same for the report of any member lists: every mention is whole in some piece |
| Database.Pool.CreateInstance | Database/Database.cpp:19-23 | The pooled connection is moved out, and only without one another is opened |
| Database.Pool.NewTransaction | Database/Database.cpp:199-203 | A new transaction object owns what was pooled or opened, and failure to open changes nothing |
| Database.Pool.MoveConstruct | Database/Database.h:73-73 | Ownership moves and the source object is left null |
| Database.Pool.AssignTransaction | Database/Database.h:77-80 | The target owns the source's connection and its former one is queued for closing; self-assignment changes nothing |
| Database.Pool.CloseTransaction | Database/Database.cpp:187-190 | A held connection is queued for closing once, a null one never |
| Database.Pool.RunHandler | Database/Database.cpp:189-195 | The handler pools the connection and closes the one pooled before, or closes it if it cannot be rolled back |
| Database.Pool.ReleaseConnection | Database/Database.cpp:205-217 | Ownership passes to the caller without an open transaction, or stays on an error |
| Database.StepKeepsPlaces | Database/Database.cpp:187-217 | No operation duplicates or loses a connection; only opening makes one |
| Database.RunKeepsInv | Database/Database.cpp:187-217 | In every run each opened connection is in one place |
| Database.OneOwner | Database/Database.cpp:187-217 | In every run each connection is in exactly one of the pool, a transaction, a queued handler, a caller's hands or the closed ones, once; the pooled one has no open transaction |
| Database.IdleKeepsOne | Database/Database.cpp:187-217 | When everything is gone and every handler has run, all connections but the pooled one are closed |
| Database.ServesTheNext | Database/Database.cpp:187-203 | A closed transaction's connection serves the next transaction object, with no transaction open, no new connection, and the one pooled before closed |
| Database.MoveHandsOver | Database/Database.h:73-73 | After a move closing the new object hands on what closing the source would have, and closing the source nothing |
| Database.AssignHandsOver | Database/Database.h:77-80 | After an assignment closing the target hands on what the source held, closing the source nothing, and what the target held is queued; self-assignment keeps all |
| Database.NewHolds | Database/Database.cpp:199-203 | A new transaction object holds the pooled connection, or one that has never been anywhere |
| Database.ReleasedGoesOn | Database/Database.cpp:205-217 | A released connection is with its caller, without a transaction, and goes to another transaction object or is closed |
| Database.HandlerRunsOnce | Database/Database.cpp:189-195 | A close handler runs once and settles exactly its own connection and the one pooled before |
| Database.OpensExactly | Database/Database.cpp:98-129 | Which connections have an open transaction after an operation: only statements open one, statements and rollbacks end it |
| Database.EventsPossible | Database/Database.cpp:187-217 | Which operations are possible; opening fails only without a pooled connection |
| Database.Connection.BeginImpl | Database/Database.cpp:98-107 | No statement runs on a null connection or within a transaction |
| Database.Connection.Begin | Database/Database.cpp:131-145 | Success on a connection means an open transaction; at most 101 attempts; it succeeds iff one of them does after busy ones that could be rolled back |
| Database.Connection.Commit | Database/Database.cpp:147-158 | Success means no open transaction; it comes iff one of 101 attempts gets through after busy ones, or finds that a busy one has lost the transaction |
| Database.BaseDao.Exec | Database/Database.h:109-127 | The retry loop, for a function of any statements and any replies, computes the attempt-by-attempt form of the lemmas below |
| Database.ExecSucceedsIff | Database/Database.h:114-126 | Exec succeeds iff one of 300 invocations does after busy ones and an open transaction could be rolled back |
| Database.ExecOutcome | Database/Database.h:114-126 | Unless a rollback fails, what Exec reports and leaves on any replies: the last of at most 300 invocations, behind all that the busy ones have done |
| Database.ExecRollbackFails | Database/Database.h:114-126 | A failed rollback is reported; nothing is done for good, and the transaction stays open exactly if the rollback left it |
| Database.ExecEffect | Database/Database.h:114-126 | What a successful Exec leaves: its statements in the open transaction, or after a retry everything outside one, behind what busy invocations left |
| Database.ExecKeepsWorkIff | Database/Database.h:114-126 | A successful Exec adds just its statements to the earlier work iff the first invocation was not busy, or busy ones left behind exactly what the transaction lost |
| Database.StatementKeepsWorkIff | Database/Database.h:114-126 | For functions without effect when busy: iff no busy retry hit a transaction with work in it |
| Database.RetryLeavesTransaction | Database/Database.h:122-123 | After a busy retry the statements have taken effect on their own and cannot be rolled back |
| Infractions.TopTwo | Database/Infractions/query_warn_delta.sql:1-4 | The two greatest timestamps, or none if there are fewer than two |
| Infractions.Store.Register | Database/Infractions/Infractions.cpp:6-15 | An infraction is added unless its key is taken |
| Infractions.Store.GetRecentDeltaTime | Database/Infractions/Infractions.cpp:17-24 | The distance of a user's two newest open infractions |
| Infractions.Store.TimeOut | Database/Infractions/Infractions.cpp:76-84 | The user's open infractions are those after now; no row is added or removed and no other user's is touched |
| Infractions.Store.Delete | Database/Infractions/Infractions.cpp:57-66 | The user's open infractions are the others; every other row stays as it was |
| Infractions.Store.DeleteAll | Database/Infractions/Infractions.cpp:68-74 | No row of the user is left; every row of another user stays as it was |
| Infractions.Store.Remove | GreekBot/GreekBot_Infractions.cpp:340-410 | By the button or menu used, exactly the chosen rows are removed and all others stay as they were |
| Infractions.Store.Warn | GreekBot/GreekBot_Infractions.cpp:157-201 | The table and the timeout length after a warning, and that a taken key changes nothing |
| Infractions.WarnKeepsSpacingIff | GreekBot/GreekBot_Infractions.cpp:157-201 | A warning keeps open infractions three months apart iff it is not late, whatever its timestamp |
| Infractions.WarnInOrder | GreekBot/GreekBot_Infractions.cpp:157-201 | A warning newer than all of its user's infractions either closes all open ones, timing out for it and one of them, or joins them |
| Infractions.PromptKeepsSpacing | GreekBot/GreekBot_Infractions.cpp:157-201 | In particular any warning less than three months older than every open infraction keeps them spaced |
| Infractions.UndoRestoresIff | GreekBot/GreekBot_Infractions.cpp:396-401 | Undoing a new warning restores the table iff it timed out no earlier infraction |
| Infractions.TimeoutLengths | GreekBot/GreekBot_Infractions.cpp:165-173 | A warning in order times out for 7, 5, 3 or 1 days, by whether the last open one is less than 3, 5, 15 days or three months back, and not at all iff none is |
| Infractions.RemovedRows | GreekBot/GreekBot_Infractions.cpp:340-410 | Which rows each button or menu removes |
| Infractions.StepRows | GreekBot/GreekBot_Infractions.cpp:157-201 | What each event of a run does to the rows and the timeouts given; a warning with a taken timestamp does nothing |
| Infractions.WarnedRows | GreekBot/GreekBot_Infractions.cpp:157-201 | A warning adds its row and marks rows of its user alone, up to its time, iff a timeout is due |
| Infractions.WarnKeepsTidyIff | GreekBot/GreekBot_Infractions.cpp:157-201 | A new warning of any timestamp keeps the pairs behind timeouts disjoint and before all open infractions iff it is the newest open one when it times out, and newer than the user's timeouts when it does not |
| Infractions.SwappedWarnings | GreekBot/GreekBot_Infractions.cpp:188-201 | A concrete run of two swapped warnings that puts one infraction behind two timeouts |
| Infractions.SpacedUnlessLate | GreekBot/GreekBot_Infractions.cpp:157-201 | After every run without a late warning all open infractions are three months apart |
| Infractions.TidyIfOrderly | GreekBot/GreekBot_Infractions.cpp:157-201 | After every run of orderly warnings and any removals, the pairs behind timeouts are disjoint |
| Infractions.InfractionSafety | GreekBot/GreekBot_Infractions.cpp:157-201 | After every run in order, with any removals, both hold |
| StarboardRank.Authors | Database/Starboard/query_sb_get_rank.sql:1-7 | Each author with a row above the threshold has one group |
| StarboardRank.AggregateIs | Database/Starboard/query_sb_get_rank.sql:1-7 | COUNT, SUM and MAX are those of the author's rows that pass the threshold |
| StarboardRank.FirstOf | Database/Starboard/query_sb_get_rank.sql:3-3 | Which of two groups comes first, tie by tie |
| StarboardRank.OrderByFacts | Database/Starboard/query_sb_get_top_10.sql:1-6 | The ordered query is a strictly ordered list of the same groups |
| StarboardRank.CountIsIndex | Database/Starboard/query_sb_get_rank.sql:1-7 | The number of groups before one is its position in the ordered list |
| StarboardRank.RankOfOrdered | Database/Starboard/Starboard.cpp:92-125 | The group at a position has that rank by the window function |
| StarboardRank.IndexOfAuthor | Database/Starboard/Starboard.cpp:112-125 | Every ranked author stands in the ordered query at their rank |
| StarboardRank.GetTop10 | Database/Starboard/Starboard.cpp:92-110 | An author is in the top ten iff their window rank is at most 10, with the same rank and statistics |
| Starboard.Board.RegisterReaction | Database/Starboard/Starboard.cpp:14-31 | A row appears or is counted up, and its post and count are returned |
| Starboard.Board.RemoveReaction | Database/Starboard/Starboard.cpp:33-47 | A row is counted down unless that would break the check constraint, which fails without a change |
| Starboard.Board.ProcessReaction | GreekBot/GreekBot_Starboard.cpp:87-113 | Below the threshold the post goes, from it on a missing one is sent, in the table and in the channel |
| Starboard.Board.OnReactionAdd | GreekBot/GreekBot_Starboard.cpp:38-59 | Only reactions of others than the author and the bot count; the whole effect |
| Starboard.Board.OnReactionRemove | GreekBot/GreekBot_Starboard.cpp:61-77 | The whole effect, a refused removal ending the handler |
| Starboard.Board.DeleteAll | Database/Starboard/Starboard.cpp:68-90 | The rows of the messages are removed and exactly their posts returned |
| Starboard.Board.OnMessagesDeleted | GreekBot/GreekBot_Starboard.cpp:79-85 | Rows and posts of the deleted messages go together |
| Starboard.StepConsistent | GreekBot/GreekBot_Starboard.cpp:38-113 | Every completed handler keeps table and channel consistent |
| Starboard.StarboardConsistent | GreekBot/GreekBot_Starboard.cpp:38-113 | After every run a row has a post iff its count is at least 5, counts are positive, and the channel holds exactly the recorded posts, each once |
| Starboard.PostsFromFive | GreekBot/GreekBot_Starboard.cpp:87-113 | In every run a row has a post iff its count is at least 5 |
| Starboard.WhoCounts | GreekBot/GreekBot_Starboard.cpp:38-77 | Whose reactions move a count, by exactly one, and whose change nothing |
| Starboard.RowsStay | GreekBot/GreekBot_Starboard.cpp:38-113 | A row keeps its author, and its post while the count stays at 5 or more; other rows are untouched |
| Starboard.RowsExactly | Database/Starboard/Starboard.cpp:14-90 | Rows appear with a counted reaction and go with their message only |
| Starboard.CountIsLiveIff | Database/query_init.sql:12-17 | A stored count equals the reactions added less those removed iff, since the message was last deleted, no removal found the count at 1 |
| Starboard.CountDrifts | Database/query_init.sql:16-16 | A concrete run in which one reaction counts as two |
| Levels.ThresholdStep | GreekBot/GreekBot_Leaderboard.cpp:8-21 | One turn of the loop adds the difference of the closed form 5n(n+7)(2n+13)/6 |
| Levels.FirstLevels | GreekBot/GreekBot_Leaderboard.cpp:14-18 | The first thresholds and the levels around them |
| Levels.LevelUnique | GreekBot/GreekBot_Leaderboard.cpp:8-21 | A member has exactly one level |
| Levels.LevelMonotone | GreekBot/GreekBot_Leaderboard.cpp:8-21 | More XP never means a lower level |
| Levels.AtThreshold | GreekBot/GreekBot_Leaderboard.cpp:8-21 | Exactly the threshold of a level leaves a member one level below |
| Levels.FitsExactly | GreekBot/GreekBot_Leaderboard.cpp:8-21 | The next threshold fits an int64 iff the XP is at most the largest threshold that does |
| Levels.CalculateLevelInfo | GreekBot/GreekBot_Leaderboard.cpp:8-21 | The loop ends without overflow at the unique level and returns the thresholds around the XP |
| RankRoles.TargetIsRank | GreekBot/GreekBot_Leaderboard.cpp:67-80 | The target is a listed rank role iff the level is 6 to 149, and none iff it is below 6 |
| RankRoles.RoleOfLevel | GreekBot/GreekBot_Leaderboard.cpp:67-80 | The role of every level, by its id |
| RankRoles.RanksAreTargets | GreekBot/LearningGreek.h:38-49 | The listed roles are exactly those of the levels 6 to 149 |
| RankRoles.TableSorted | GreekBot/LearningGreek.h:38-50 | The rank role table is strictly increasing, as the binary search needs |
| RankRoles.BinarySearch | GreekBot/GreekBot_Leaderboard.cpp:85-87 | Finds a role iff it is in the table |
| RankRoles.Partition | GreekBot/GreekBot_Leaderboard.cpp:85-87 | In place, the listed roles go behind the others and none is lost |
| RankRoles.Reconcile | GreekBot/GreekBot_Leaderboard.cpp:66-115 | No request is made iff the roles are settled already; a request holds the other roles and the target |
| RankRoles.SettledExactly | GreekBot/GreekBot_Leaderboard.cpp:89-107 | Below level 150 no request is made iff the member holds the target once and no other listed role |
| RankRoles.ReconciledExactly | GreekBot/GreekBot_Leaderboard.cpp:66-115 | Below level 150 the result has the target once, no other rank role, and the same other roles |
| RankRoles.SettledIffBelow150 | GreekBot/GreekBot_Leaderboard.cpp:66-115 | Applying it again changes nothing iff the level is below 150 |
| RankRoles.VeteransPileUp | GreekBot/LearningGreek.h:38-50 | From level 150 on every message adds one more of the unlisted role |
| RoleCache.Cache.OnGuildCreate | GreekBot/GreekBot.cpp:39-52 | The guild's roles replace the vector and the flag stays truthful |
| RoleCache.Cache.OnGuildRoleCreate | GreekBot/GreekBot.cpp:54-63 | The role is appended and the flag stays truthful |
| RoleCache.Cache.OnGuildRoleUpdate | GreekBot/GreekBot.cpp:65-77 | The first role with that id is replaced or the role appended, and the flag stays truthful |
| RoleCache.Cache.OnGuildRoleDelete | GreekBot/GreekBot.cpp:79-87 | The role is erased and the flag is kept, truthfully |
| RoleCache.Cache.GetRoles | GreekBot/GreekBot.cpp:19-27 | The same roles, sorted by descending position, and unmoved if the flag said so |
| RoleCache.Cache.GetMemberColor | GreekBot/GreekBot.cpp:29-37 | The colour is that of a highest coloured role the member holds, or none, with no order assumed |
| RoleCache.WithoutKeepsOrder | GreekBot/GreekBot.cpp:79-87 | Erasing a role keeps the order, so the flag need not be cleared |
| RoleCache.ColorIgnoresOrder | GreekBot/GreekBot.cpp:29-37 | A member's colour depends on the bag of roles only |
| RoleCache.HighestWins | GreekBot/GreekBot.cpp:29-37 | The colour is that of the highest coloured role held |
| RoleCache.NoneIsDefault | GreekBot/GreekBot.cpp:29-37 | Without a coloured role it is the default |
| RoleCache.RolesAfter | GreekBot/GreekBot.cpp:39-87 | Which roles there are after each event |
| RoleCache.LookupsAreInvisible | GreekBot/GreekBot.cpp:19-87 | Over every run of role events with lookups anywhere, the cache holds the roles of the bare history and shows the same colours |

## Left out

- Sockets, TLS, resolvers, compression, JSON and SQLite itself: they appear as events and replies with any outcome.
- Coroutine frames and object lifetime: a coroutine is the point at which it is suspended.
- Exceptions thrown while an HTTP operation is being started: starting is assumed not to fail, otherwise resumed callers could push to the queue while it is iterated.
- The recovery path after an exception escapes the main loop (`run_context`), which can start a second connection.
- The second attempt of a rate-limited HTTP request, the interpretation of responses, and the request's own fields.
- Gateway URLs, sequence numbers, the choice between identifying and resuming, and the ten ticks of a countdown: they do not decide how many sessions there are.
- Websocket sessions and transaction objects are values in a table of their gateway or pool, not objects of their own, so aliases of them and non-owning references to a connection are not modelled.
- HttpQueue.Gateway.Resume: the code that a resumed caller runs is any list of synchronous requests; other effects of it are not modelled.
- GuildMembers.Gateway.RgmReset: a reader that starts another request synchronously while the entries are iterated is not modelled; nor is in RgmTimeout.
- GuildMembers.Gateway.RequestMembers: the wrap-around of the 64-bit request number, and the READY and USER_UPDATE events that set and reset the cached application, are not modelled.
- Database.BaseDao.Exec: a rollback that fails either leaves the transaction as it was or ends it; nothing in between.
- Closing a connection never fails in the model; unfinalised statements are not modelled.
- Report.Send: header words may be split between pieces at the spaces they contain; only words without spaces are kept whole.
- Starboard.StarboardConsistent: handlers run to completion one after the other, and sending or deleting a post succeeds; so do the infraction handlers.
- Levels.CalculateLevelInfo: XP above the largest threshold that fits an int64 is excluded, as its addition overflows.
- RankRoles.Partition: the library's partition and sort may leave any order; the results are stated for bags of roles.
- Commands, embeds, permissions, percent encoding, random choices and the compromised-account estimate: formatting, single branches or floating point.
