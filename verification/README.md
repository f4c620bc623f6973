# A model of the wake-on-LAN appliance

The firmware keeps a table of servers, pings them, wakes them with magic packets, retries until
they answer, wakes them again when they go down, and runs a weekly timetable of wakes. Two front
ends (a TCP command line and an HTTP form interface) edit the tables; an MQTT client reconnects
with backoff. This project models that logic in Dafny and proves what it keeps, how long it takes
and what its parsers read back.

## How the model is laid out

| file | what it holds |
|---|---|
| `Words.dfy`, `CStrings.dfy`, `Numbers.dfy` | fixed-width arithmetic, C strings in buffers, decimal text |
| `Config.dfy`, `Monitoring.dfy` | the records of `config.h`; what one server's monitor does, as functions of one slot |
| `System.dfy`, `Invariants.dfy`, `Loops.dfy`, `Effects.dfy`, `Edits.dfy` | the appliance as a state machine over an ordered list of records; what every run keeps; the firmware's loops as runs; what each operation sends, reports and changes, stated on the fields and the log |
| `Storms.dfy`, `Attribution.dfy`, `Collisions.dfy`, `Campaign.dfy`, `SlotRuns.dfy`, `Clocks.dfy`, `TrueClock.dfy`, `Detection.dfy`, `Targets.dfy`, `Timetable.dfy` | the theorems about runs and about time |
| `Device.dfy`, `Wol.dfy`, `Tables.dfy`, `Scheduler.dfy` | the fixed-size arrays and the procedures that update them in place, each proved against a step of the state machine |
| `Util.dfy`, `FactoryDefaults.dfy`, `Json.dfy`, `FrontEnds.dfy`, `Url.dfy` | MAC text and command lines, the built-in server list, request bodies, both add commands end to end, webhook URLs |
| `Mqtt.dfy` | the reconnect backoff |

An `Appliance` holds the parallel arrays `servers` and `monitors` and the array `schedules` with
their counts. Its ghost field `st` is the abstract state: one list of (server, monitor) records.
`Valid()` says that the live prefix of the arrays is that list, that no slot above the count is
active and that every monitor above it is zero. Each command, callback and tick keeps `Valid()` and
says what the state machine does meanwhile: one step, or for the loops of `monitor_tick`, `wake_all`
and the scheduler a run of steps (`Loops.TickUpToIsRun`, `Loops.WakeAllIsRun`,
`Scheduler.MatchedIsRun`). Each also promises `Kept`: the whole-state invariant, if it held before,
holds after; a factory reset does so if the names in the compiled-in list differ.

Theorems about what one server experiences are stated over its visits by `monitor_tick`, with the
shared ping counter and the auto-wake setting arbitrary at each visit; `SlotRuns` shows that this is
what a record sees in a run of the whole appliance, however the table shifts.

Sent packets and raised notifications are entries of a log. Time is an unbounded number of
milliseconds, and the 32-bit clock is its remainder. Each record also carries bookkeeping that the
firmware does not hold: its history of log entries and the running number of its last ping.

## Assumptions

- Each callback, each command and each body of the `monitor_tick` loop is one atomic step. The
  build links the threadsafe-background lwIP arch (`CMakeLists.txt:84`), under which callbacks may
  interrupt the main loop; interleavings inside one body are not modelled.
- The theorems about time (`Campaign.PacedRun`, `Campaign.CampaignGivesUp`, `Detection`,
  `Clocks.WrappingClockRefines` and their forms in `SlotRuns`) take an ICMP socket and packet
  buffers as available; the invariants and the packet counts do not. `gap` bounds the time between two visits of a server
  and `lag` the time from a visit's clock reading to the stamp of a ping it sends.
- The `parse_ip` wrapper of the network stack is a parameter: any partial function on text.

## What the code does that a reader may not expect

- `.env.example:6` separates default servers with semicolons; `Makefile:37` turns them into bars,
  and the code reads bars (`src/config.c:117`). The model follows the code.
- A clock reading taken before a ping is stamped, such as the main loop's when a wake command is
  served before this server's turn, makes the unsigned difference huge: the fresh ping times out at
  once and the retry fires with it. `Clocks.TestIsRightIff` gives the exact condition,
  `Clocks.StaleReadingTimesOut` the consequence.
- The one-day carry of the scheduler is right for every time of the week exactly for UTC offsets of
  at most 1440 minutes; the HTTP form accepts any 16-bit value (`Scheduler.OffsetIsExactIff`).
- The JSON getters search for text, not structure. With plain keys and values they can be misled
  exactly for the keys `:`, `,` and a literal between a colon and a comma (`Json.SearchIsExactIff`);
  none of the interface's own keys is of that kind.
- Two pending pings carry the same sequence number exactly if their sends are whole wraps of the
  16-bit counter apart (`Attribution.CollisionIffWrapsApart`), and that can happen: with two servers
  on one address, one wake of the first and 65536 of the second (`Collisions.CollisionHappens`).
- A reply and a removal commute exactly if the reply is not for the removed server, or that server is
  up already and no later record matches the reply too (`Attribution.RemovalCommutesIff`). While
  pending pings are less than 65536 sends old the tables agree in any case
  (`Attribution.RecentRemovals`). After a collision they may not: in one order the removed server
  takes the reply and goes, in the other the second server takes it.
- Removing a server does not renumber schedule targets; `Targets.RemovalKeepsTargetIff` says
  exactly which entries still mean the same servers.
- A rejected MAC may already have overwritten leading octets of a known server:
  `AA:100:0:0:0:0` changes the first octet and is refused. `Util.RejectedKeepsIff` and
  `Tables.RejectedAddKeepsIff` say exactly when a refused text changes nothing.
- Default names are not compared with each other. The table starts well formed exactly if the
  names of the first 32 entries with well-formed MACs differ within their first 31 bytes
  (`FactoryDefaults.LoadIsOkIff`, `FactoryDefaults.PrintedListIsOkIff`).
- The command line lowers the case of every command, so a name with capitals that came in over HTTP
  can be stored but not typed. The two add commands agree on every table exactly for names without
  capitals, or when both refuse the address (`FrontEnds.FrontEndsAgreeIff`).
- The health timer has no guard against its own wrap: a stamp 2^32 ms old or more can look less than
  five minutes old, and the overdue check is then skipped until it no longer does. That is the only
  way the 32-bit clock changes what a timely run does (`Clocks.WrappingClockRefines`,
  `Clocks.LongIdleHidesAge`, and for a record's part of an appliance run
  `TrueClock.RecordOnTrueClock`).
- Schedule entries with impossible times never fire exactly for UTC offsets of at most a day and the
  offsets 16800 and 32160, whose surplus hours vanish in the byte
  (`Scheduler.ImpossibleTimesNeverFireIff`).

## Model

| member | source | states |
|---|---|---|
| Invariants.StepKeeps | src/wol.c:52-265 | every operation keeps the whole-state invariant: at most 32 servers and 16 schedules, all active with terminated and distinct names, campaign counters in range and zero outside a campaign, a server in a campaign not up, pending pings numbered by the counter, up/down/auto-wake notices in calm order |
| Invariants.RunKeeps | src/wol.c:207-265 | the same after any sequence of operations |
| Invariants.BootIsOk | src/config.c:112-149 | the state after power-on meets the invariant when the default names are distinct |
| Invariants.CountersDoNotWrap | src/wol.c:234-244 | under the invariant the 8-bit increments of a retry never wrap |
| Invariants.AddKeeps | src/tcp_cmd.c:105-135 | adding, updating or rejecting a server keeps names distinct and every record in good standing |
| Storms.NoWakeStorm | src/wol.c:216-229 | in every run, at every prefix of every record's history: auto-wakes at most downs, downs at most ups, each auto-wake directly after a down, and an up between any two downs |
| Storms.DownsAreSeparated | src/wol.c:57-68 | between two downs of a calm history lies an up |
| Attribution.PendingAreDistinct | src/wol.c:49-71 | in every run whose pending pings are less than 65536 sends old, two pending servers differ in sequence number, so one reply matches at most one of them even if they share an address |
| Attribution.CollisionIffWrapsApart | src/wol.c:94-125 | two pending pings have equal sequence numbers if and only if their sends are whole wraps apart |
| Collisions.CollisionHappens | src/wol.c:94-125 | a run from boot after which two pending pings carry the same number, one reply matches both records, and answering and removing the first do not commute |
| Attribution.ReplyIsForItsPing | src/wol.c:52-59 | a reply to a send less than a wrap old matches a server if and only if that very send is its pending ping and the address agrees |
| Attribution.LateReplyIgnored | src/wol.c:52-73 | the late reply to a superseded ping leaves the whole state and log unchanged |
| Attribution.ReplySettles | src/wol.c:57-69 | the first matching server comes out up, with no ping pending and no campaign, its history longer by an up notice exactly if it was down, and every other record unchanged |
| Attribution.DuplicateReplyIgnored | src/wol.c:52-73 | in every run whose pending pings are recent, the same reply arriving again changes nothing |
| Attribution.RemovalCommutes | src/tcp_cmd.c:141-150 | unless the reply is for the removed server, answering then removing equals removing then answering, in tables and log |
| Attribution.RemovalOfAnswerer | src/tcp_cmd.c:141-150 | for the removed server itself, if no later record matches the reply too, the tables agree and only its up notice differs |
| Attribution.AnswererDiffers | src/tcp_cmd.c:141-150 | if a later record does match, the two orders leave different tables |
| Attribution.RemovalCommutesIff | src/tcp_cmd.c:141-150 | in every state the two orders give the same tables and log if and only if the reply is not for the removed server, or that server is up already and no later record matches |
| Attribution.RecentRemovals | src/wol.c:49-71 | in every run whose pending pings are recent the two orders give the same tables |
| Attribution.FirstMatchSurvives | src/wol.c:52-55 | the slot a reply matches after a removal is the shifted slot it matched before |
| Campaign.FiringIsExact | src/wol.c:231-255 | during a campaign a visit either leaves counters and packets alone or spends exactly one of the remaining retries, sends one ping unless it gives up, and one magic packet per new attempt |
| Campaign.CampaignIsExact | src/wol.c:181-255 | an unanswered wake spends its 30 retries one per firing and ends, down, after exactly 5 magic packets and 30 pings, whatever happens to the packets and whenever visits come |
| Campaign.PacedVisit | src/wol.c:231-255 | on the wrapping clock a retry fires exactly when ten true seconds have passed since the last ping, also when timeout and retry fall into one visit |
| Campaign.PacedRun | src/wol.c:207-255 | after every paced sequence of visits the campaign is within its time bounds, or has ended within them |
| Campaign.CampaignGivesUp | src/wol.c:232-255 | a paced unanswered campaign does give up, at a visit no sooner than 300 s and no later than 30 times (9.999 s + gap) + 29 times lag after its first ping |
| SlotRuns.RunShowsVisits | src/wol.c:207-264 | in a run of the appliance in which nothing is done to a record, its monitor and history are those of its own visits alone, through every shift of the table and every switch of auto-wake |
| SlotRuns.CampaignInRun | src/wol.c:181-255 | a wake in the middle of a run of the whole appliance: when its campaign is over, the record's history has grown by exactly 5 magic packets and 30 pings |
| SlotRuns.CampaignEndsInRun | src/wol.c:181-255 | such a run that visits the record long enough reaches a point, within the bounds of the campaign, where it is over with exactly 5 magic packets and 30 pings in the history |
| SlotRuns.DetectedInRun | src/wol.c:215-264 | in a run of the whole appliance, an up server that stops answering at time t has its record marked down by t + 300 s + 3 s + 2 * gap + lag, as that visit logs it |
| SlotRuns.DetectedWhateverStampInRun | src/wol.c:215-264 | the bound with one gap more, without a premise on stamps, in a run of the whole appliance |
| Clocks.WrappingClockRefines | src/wol.c:216-263 | every timely run of a slot on the 32-bit clock has, after every event, the monitor, counter and packets of its run on a clock that never wraps, if and only if no visit tests a health stamp whose age of 2^32 ms or more is hidden |
| Clocks.VisitAgreesIff | src/wol.c:215-263 | the same for one visit: timeout and retry tests always agree, and monitor and packets exactly if the health stamp shows its age, or hides all of it while a ping is out |
| Clocks.NarrowIsVisit | src/wol.c:207-264 | on the 32-bit clock the compared machine is the loop body itself |
| Clocks.HealthStaysClear | src/wol.c:257-263 | after a visit that got to the health check the next one is clear, so only the first after a campaign, a new address or a new record can be unclear |
| Clocks.LongIdleHidesAge | src/wol.c:257-263 | a server first given an address just after the clock wraps gets no health ping where the clock that never wraps sends one |
| TrueClock.RunHolds | src/wol.c:49-265 | in a run of the appliance, a record ends with the monitor and history of its own visits, wakes, replies and edits played as one run of a slot |
| TrueClock.NewRecordIsSlot | src/tcp_cmd.c:132-132 | a record as it enters the table meets the premises of the two rows around this one |
| TrueClock.RecordOnTrueClock | src/wol.c:216-263 | so it ends as on a clock that never wraps, if that part is timely and no visit tests a hidden health stamp |
| Clocks.TestIsRightIff | src/wol.c:216-233 | the unsigned comparison is right if and only if the stamp is not in the future, or so far in it that the wrapped difference stays below the limit |
| Clocks.StaleReadingTimesOut | src/wol.c:216-233 | a visit holding a reading older than the stamp times the fresh ping out, and fires a retry exactly when the difference also reaches ten seconds |
| Detection.Detected | src/wol.c:215-264 | an up server that stops answering at any time t, also between visits or right after its last reply, is marked down by t + 300 s + 3 s + 2 * gap + lag, with an auto-wake magic packet in the same visit if enabled; its stamp is taken less than a wrap old |
| Detection.DetectedAfterReply | src/wol.c:57-69 | without that premise when the last reply follows a visit outside a campaign: the same bound counted from the visit |
| Detection.DetectedWhateverStamp | src/wol.c:57-65 | an up server with no ping out, whatever age its health stamp has, as after a reply that ends a campaign: t + 300 s + 3 s + 3 * gap + lag |
| Detection.DetectedAfterCampaign | src/wol.c:57-65 | in particular when the last reply ends a campaign at time t |
| Detection.DetectedAfterVisit | src/wol.c:215-264 | without that premise when no reply follows a visit that leaves the server up: the first bound counted from the visit |
| Detection.VisitStartsWatch | src/wol.c:216-263 | a visit that leaves the server up leaves its health check under five minutes or its pending ping under three seconds old |
| Device.Appliance.constructor | src/config.c:81-86 | power-on gives empty tables |
| Wol.PingSend | src/wol.c:87-127 | in place: the slot after `ping_send`, all other monitors untouched |
| Effects.PingEffect | src/wol.c:87-127 | without an address or socket a ping changes nothing, without a buffer it uses up a number, otherwise the monitor awaits that number with the clock read as its stamp |
| Wol.WakeServerMonitored | src/wol.c:181-195 | in place: the slot after a monitored wake; the log grows by the magic packet and, with an address, one ping |
| Effects.WakeEffect | src/wol.c:181-195 | every wake, with or without an address, logs exactly one magic packet, first; without an address it does nothing else, with one it sends one ping and starts a campaign on a server taken as down |
| Effects.WakeStepEffect | src/wol.c:181-195 | the same for a record in the table: its history and the log grow by these notices, no other record changes |
| Wol.CheckTimeout | src/wol.c:215-229 | in place: the timeout step with its down notice and auto-wake |
| Wol.Retry | src/wol.c:231-255 | in place: the retry step |
| Wol.Health | src/wol.c:257-263 | in place: the health step |
| Wol.TickBody | src/wol.c:208-264 | in place: one loop body on one slot |
| Effects.IdleVisitEffect | src/wol.c:212-263 | outside a campaign a visit that does not wake reports a down notice exactly for an up server with an unanswered ping, sends a ping exactly if five minutes have passed and none is out, and starts no campaign |
| Effects.AutoWakeEffect | src/wol.c:216-229 | an up server with an unanswered ping and auto-wake on: down, auto-wake, magic packet and ping are reported, in this order |
| Effects.NoVisitEffect | src/wol.c:212-213 | a visit leaves an inactive server, or one without an address, entirely alone |
| Wol.MonitorVisit | src/wol.c:208-264 | one loop body is one tick step of the abstract state |
| Wol.MonitorTick | src/wol.c:207-265 | the loop visits every slot once, in order |
| Loops.TickUpToIsRun | src/wol.c:207-265 | the tick loop is the run of one tick step per slot, in order |
| Wol.Wake | src/wol.c:181-195 | a monitored wake is one wake step of the abstract state, with that effect on history and log |
| Wol.WakeAll | src/wol.c:197-205 | the loop wakes every active slot once, in order: each active record, with or without an address, has exactly one magic packet more in its history, every other record is as before |
| Effects.WakeAllEffect | src/wol.c:197-205 | the same of the abstract loop |
| Loops.WakeUpToIsEach | src/wol.c:197-205 | waking all is waking the active slots one by one in table order |
| Loops.WakeAllIsRun | src/wol.c:197-205 | and so the run of one wake step per active slot |
| Wol.AnswerSlot | src/wol.c:57-68 | in place: the matching branch of the reply callback |
| Wol.PingReceived | src/wol.c:49-74 | the callback answers the first slot that matches and no other, and reports whether there is one |
| Effects.ReplyEffect | src/wol.c:52-73 | a reply is taken by the first record waiting for it, whose stamps stay and which raises an up notice exactly if it was down, and by nobody if none waits |
| Monitoring.TickFrame | src/wol.c:207-265 | what a loop body logs and decides does not depend on what was logged before |
| Tables.FindServer | src/tcp_cmd.c:105-106 | the lookup loop returns the first active record of the name, or the count |
| Tables.AddServer | src/tcp_cmd.c:97-135 | add or update as one list operation, with the outcome of each error path; an accepted new server is one last record with the given name, MAC and address |
| Tables.UpdateServer | src/tcp_cmd.c:105-116 | updating in place is the list update, including the octets a rejected MAC overwrites |
| Tables.RejectedAddKeepsIff | src/tcp_cmd.c:105-128 | an add command with a rejected MAC leaves the table as it was if and only if the name is unknown or the text stores nothing new |
| Tables.RejectedAddChanges | src/tcp_cmd.c:105-110 | for a known server it may not: one octet of its MAC changes |
| Tables.AppendServer | src/tcp_cmd.c:124-133 | a new last record: active, with the given name, MAC and address or none, a cleared monitor and no history; nothing left of what a rejected one put in the slot |
| Edits.AddsNew | src/tcp_cmd.c:118-135 | the abstract step for an unknown name with room and an accepted MAC, on the fields of the new record |
| Edits.AddsKnown | src/tcp_cmd.c:105-116 | for a known name: the first record of it gets the scanned octets, and the address if the MAC is accepted and one is given; nothing else changes |
| Edits.AddRefuses | src/tcp_cmd.c:118-128 | for an unknown name with a full table or a rejected MAC nothing changes |
| Tables.RemoveServer | src/tcp_cmd.c:138-160 | removal takes exactly the first active record of that name out of the list, and without one changes nothing |
| Tables.ShiftDown | src/tcp_cmd.c:144-147 | the shifting loop moves servers and monitors together |
| Tables.DropSlot | src/http_server.c:352-361 | shift, clear the vacated slot and decrement is one deletion from the list |
| Tables.WakeNamed | src/tcp_cmd.c:36-62 | the wake command wakes the first active server of the name, with a magic packet whether or not it has an address, and without one does nothing |
| Tables.SetServerIp | src/tcp_cmd.c:163-190 | setting an address changes only that field of the first active record of that name |
| Tables.ClearServerIp | src/tcp_cmd.c:193-210 | clearing an address zeroes it and the whole monitor of that record, and nothing else |
| Tables.ParseDays | src/tcp_cmd.c:274-293 | the mask holds exactly the days whose letters occur, and any other letter rejects |
| Tables.MaskIsUnique | src/tcp_cmd.c:274-293 | a set of day letters has one mask |
| Tables.DayIsBit | src/tcp_cmd.c:281-288 | day d is bit d of a mask, so the form's raw numbers mean what the letters mean |
| Tables.TcpScheduleAdd | src/tcp_cmd.c:260-322 | the first error found, in the order of the code, with nothing changed; or one last entry with the days of the letters, the time, and the index of the first active server of the target name, negative for all |
| Tables.HttpScheduleAdd | src/http_server.c:402-441 | the same for the form, whose numbers are narrowed without a range test |
| Tables.TcpScheduledIs | src/tcp_cmd.c:260-322 | the abstract step of the command line, on the fields of the new entry |
| Tables.HttpScheduledIs | src/http_server.c:402-441 | the abstract step of the form, on the fields of the new entry |
| Targets.SlotsAre | src/scheduler.c:94-101 | the slots an entry wakes are the active ones, all of them or its target alone |
| Targets.NewEntryWakes | src/tcp_cmd.c:294-318 | a new entry for a named server wakes that name and no other, one for all wakes every server |
| Tables.SchedulesAgree | src/http_server.c:402-441 | for numbers in range one front end accepts an entry exactly if the other does, and they leave the same state |
| Tables.SchedulesAgreeIff | src/http_server.c:402-441 | over all numbers the two front ends leave the same state if and only if hour and minute are in range or the form refuses too |
| Tables.ShiftSchedules | src/tcp_cmd.c:358-360 | the shifting loop over the timetable |
| Tables.TcpScheduleRemove | src/tcp_cmd.c:352-365 | the entry at the index is gone, later ones one place lower, the vacated slot cleared |
| Tables.HttpScheduleRemove | src/http_server.c:443-455 | the same from the form, which leaves the vacated slot |
| Tables.TcpTimezone | src/tcp_cmd.c:368-377 | an offset within -720..840 is stored, any other rejected |
| Tables.HttpTimezone | src/http_server.c:476-486 | the form stores the offset narrowed to 16 bits |
| Tables.Autowake | src/http_server.c:391-400 | the setting changes and nothing else does |
| Targets.KeepsMeaningIff | src/scheduler.c:94-101 | for any table of distinct names, when an entry survives the removal of a server with its meaning |
| Targets.RemovalKeepsTargetIff | src/tcp_cmd.c:141-150 | in every reachable state, an entry wakes after a removal what it woke before, less the removed server, if and only if it is for all servers, below the removed slot, outside the table, or for the removed last slot |
| Scheduler.LocalTimeIsExactIff | src/scheduler.c:64-80 | the conversion yields the true local day, hour and minute if and only if UTC time plus offset is within one day of carry |
| Scheduler.OffsetIsExactIff | src/scheduler.c:64-80 | an offset is right at all times of the week if and only if it is at most 1440 minutes |
| Scheduler.MatchesIffDue | src/scheduler.c:85-91 | an entry matches a local time if and only if its set of week minutes contains it |
| Scheduler.MatchedIsDue | src/scheduler.c:82-102 | the matching loop performs exactly the wakes of the entries due at that week minute, in order |
| Scheduler.MatchedIsRun | src/scheduler.c:82-102 | the matching loop is a run of wake steps |
| Scheduler.DueIsRun | src/scheduler.c:82-102 | so are the wakes due at a week minute |
| Scheduler.ImpossibleTimesNeverFire | src/scheduler.c:90-91 | for UTC offsets of at most a day, an entry with an hour or minute out of range never fires |
| Scheduler.ImpossibleTimesNeverFireIff | src/scheduler.c:64-91 | no such entry ever fires if and only if the offset is at most a day, 16800 or 32160 minutes |
| Scheduler.SchedulerTick | src/scheduler.c:52-103 | a closed gate does nothing; an open one is stamped and, with an offset of at most a day, wakes exactly what the timetable has for the current week minute |
| Scheduler.ToLocal | src/scheduler.c:64-80 | step by step: the conversion whose exactness the two rows on offsets are about |
| Scheduler.FireMatching | src/scheduler.c:82-102 | the loop in place performs the wakes of the matching entries |
| Scheduler.FireEntry | src/scheduler.c:94-101 | one entry wakes all active servers, its active target, or nobody |
| Scheduler.NoMinuteTwice | src/scheduler.c:56-58 | however ticks fall and the clock wraps, no minute passes the gate twice |
| Scheduler.FewMinutesSkipped | src/scheduler.c:56-58 | over n consecutive passes with ticks at most gap apart, at most ceil((n-1) * gap / 60000) minutes go without one |
| Timetable.RunIsFirings | src/scheduler.c:52-103 | a run of scheduler ticks, the RTC in step with the millisecond clock, does exactly its firings in order and stamps the gate at its checks |
| Timetable.FiresExactly | src/scheduler.c:52-102 | over any run of ticks, with an offset of at most a day, an entry fires exactly at the checks whose local minute of the week it contains |
| Timetable.OncePerMinute | src/scheduler.c:52-102 | over any run of ticks no entry fires twice in one minute |
| Util.ParseMacInto | src/util.c:10-22 | in place: nothing, a prefix of the octets or all six are written, and success exactly for all six |
| Util.StoreOctets | src/util.c:17-20 | octets are stored up to the first above 255 |
| Util.RejectedKeepsIff | src/util.c:10-22 | a rejected text leaves the octets as they were if and only if it does not scan, or every field before the first above 255 equals the stored octet |
| Util.TooLargeOverwrites | src/util.c:17-20 | the text AA:100:0:0:0:0 is rejected and has overwritten the first octet |
| Util.MacText | src/util.c:24-27 | the printed form has 17 characters, hexadecimal digits and colons |
| Util.MacTextIs | src/util.c:24-27 | the printed form character by character: octets in order, high digit first, upper case, colons between |
| Util.ParsePairs | src/util.c:10-27 | every MAC reads back from its printed form in either case |
| Util.Trim | src/util.c:44-52 | in place: trailing blanks and line ends cut, the rest in lower case |
| Util.TrimmedIs | src/util.c:44-52 | trimming keeps the text up to its last character that is no line feed, carriage return or blank, with A-Z in lower case |
| Util.ScanJoined | src/tcp_cmd.c:91-91 | words that fit their fields are scanned back exactly |
| Util.MacSurvivesCommandLine | src/tcp_cmd.c:87-96 | a printed MAC typed into an add command survives trimming, its field width and the scan |
| FrontEnds.TcpAdd | src/tcp_cmd.c:87-135 | the add command from its argument text to the new state |
| FrontEnds.HttpAdd | src/http_server.c:297-343 | the add request from its body to the new state |
| FrontEnds.TcpUnderstands | src/tcp_cmd.c:87-96 | a typed add command yields its name in lower case, its MAC and its address |
| FrontEnds.HttpUnderstands | src/http_server.c:298-305 | a posted add object, in any chunks, yields its name, MAC and address |
| FrontEnds.FrontEndsAgree | src/http_server.c:297-343 | both add commands perform the same list operation with the same six octets, up to the case of the name, and leave the same state for names without capitals |
| FrontEnds.FrontEndsAgreeIff | src/http_server.c:297-343 | the two add commands agree on every table if and only if the name has no capitals or both refuse the address |
| FrontEnds.BothAppend | src/http_server.c:297-343 | for a name the table does not know, with room, the typed line and the posted object each leave one last record more with that name, MAC and address |
| FrontEnds.BothEdit | src/http_server.c:313-325 | for a known name its first record gets the MAC, and the address if one is given |
| FrontEnds.BothRefuse | src/http_server.c:307-311 | an address the parser refuses changes nothing |
| FactoryDefaults.Strtok | src/config.c:117-148 | in place: the next token and where to continue, in terms of the text between bars |
| FactoryDefaults.CutEntry | src/config.c:119-130 | in place: a token cut at its first equals sign and comma, later tokens untouched |
| FactoryDefaults.FillSlot | src/config.c:132-146 | a slot counts only if its MAC is accepted, then holds that MAC, 31 bytes of the name and the address if the parser accepts it, and shows nothing a rejected entry left in it |
| FactoryDefaults.LoadTokens | src/config.c:117-149 | the loop builds exactly the table the functional reading of the text gives |
| FactoryDefaults.LoadDefaults | src/config.c:112-150 | everything cleared, then the first 511 bytes of the list loaded |
| FactoryDefaults.FactoryReset | src/tcp_cmd.c:492-496 | the list loaded, settings and timetable as after power-on, every monitor cleared; keeps the invariant if the names in the list differ |
| FactoryDefaults.LoadIsFirstAccepted | src/config.c:117-149 | the table is exactly the first 32 well-formed entries between bars, in order |
| FactoryDefaults.LoadIsOkIff | src/config.c:117-149 | the loaded table is fit to start from if and only if, read off the text, the names of the first 32 entries with well-formed MACs differ within 31 bytes |
| FactoryDefaults.PrintedListLoads | src/config.c:112-149 | any printed list within 511 bytes loads as the first 32 of the servers its well-formed entries mean, names cut to 31 bytes |
| FactoryDefaults.PrintedListStores | src/config.c:112-149 | on the fields of the loaded records: one for each of the first 32 entries with a well-formed MAC, with its MAC, its name cut to 31 bytes, and its address if it gives a non-empty one the parser accepts, else 0 |
| FactoryDefaults.PrintedListIsOkIff | src/config.c:112-149 | the same for a printed list, on its entries |
| FactoryDefaults.LongNamesCollide | src/config.c:133-133 | two entries whose names differ only after byte 31 make the list fail |
| Json.Locate | src/http_server.c:32-38 | the search and the skipping of blanks common to the getters |
| Json.CopyText | src/http_server.c:40-45 | the copy loop stores the text up to a quote, the end or the limit |
| Json.JsonGetString | src/http_server.c:32-47 | in place: what is stored and whether success is reported |
| Json.JsonGetInt | src/http_server.c:50-63 | the integer getter |
| Json.JsonGetBool | src/http_server.c:65-75 | the boolean getter |
| Json.PostBody.Receive | src/http_server.c:242-256 | a chunk is appended as far as it fits, the body stays terminated |
| Json.ReceivedIsClipped | src/http_server.c:242-256 | however a body is split into chunks, its first 511 bytes arrive |
| Json.SearchIsExact | src/http_server.c:32-38 | in a flat object the search finds exactly the field with the key, inside no other field, or nothing |
| Json.SearchIsExactIff | src/http_server.c:32-38 | this holds for all flat objects if and only if the key is not the text between two quotes |
| Json.GettersReadBack | src/http_server.c:32-75 | each getter returns the printed field's value, strings cut to the buffer, and a getter of the wrong kind nothing |
| Json.BlanksMakeNoDifference | src/http_server.c:38-38 | any number of blanks between a key's colon and its value makes no difference to any getter |
| Json.AbsentIsNotFound | src/http_server.c:32-75 | an absent key is found nowhere |
| Json.ChunkedGettersReadBack | src/http_server.c:242-256 | the same from the body as it arrives in chunks |
| Numbers.AtoiReadsInt | src/http_server.c:58-58 | the number getter's conversion returns every printed integer |
| Url.ParseUrl | src/webhook.c:23-59 | in place: success, host, port and path |
| Url.FillHost | src/webhook.c:36-50 | the host is what precedes the port's colon or the slash, cut to 63 bytes |
| Url.SplitReadsBack | src/webhook.c:23-59 | splitting a printed URL gives back host, port and path, with or without scheme, with defaults 80 and /, colons in the path allowed |
| Url.SplitCuts | src/webhook.c:23-59 | of any printed URL, however long: the host cut to 63 bytes, the path to 127 |
| Url.RefusedIff | src/webhook.c:29-58 | a URL is refused if and only if it asks for TLS or has no host |
| Url.TlsIsRefused | src/webhook.c:29-31 | an https URL leaves no host and no path, whatever follows |
| Mqtt.MqttClient.Tick | src/mqtt_client.c:214-236 | a tick reconnects if and only if enabled, not connected, resolved, not pending and the wrapped age at least the delay, which it then doubles up to 60000; it publishes if and only if enabled, connected and a minute old |
| Mqtt.MqttClient.Start | src/mqtt_client.c:136-171 | initialisation, unless disabled or without a host, disconnects, takes over how the host resolved and resets the delay to 5000 |
| Mqtt.MqttClient.ConnectionChanged | src/mqtt_client.c:29-44 | an accepted connection resets the delay to 5000, a refused one leaves it |
| Mqtt.MqttClient.DnsAnswered | src/mqtt_client.c:121-134 | an answer ends the wait and resolves the host if it has an address |
| Mqtt.DelayIsClosedForm | src/mqtt_client.c:225-228 | in every run the delay is min(5000 * 2^k, 60000) after k reconnects since the last reset |
| Mqtt.ReconnectsAreBacked | src/mqtt_client.c:219-229 | consecutive reconnects are at least the current delay apart, however the clock wraps |
| Mqtt.NthReconnectIsLate | src/mqtt_client.c:219-229 | the n-th reconnect after a reset comes at least the sum of the delays after the first |
| Mqtt.FirstReconnectComes | src/mqtt_client.c:219-229 | while only time is missing and ticks are at most gap apart, the first reconnect comes within 5000 + gap ms of the first tick, whatever the stamp |
| Mqtt.NthReconnectIsPrompt | src/mqtt_client.c:219-229 | and reconnect n no later than the first plus the sum of the delays plus n * gap |
| Mqtt.NthReconnectComes | src/mqtt_client.c:219-229 | and it does come once the ticks reach that far |

## Left out

- Filtering of raw ICMP packets before the reply callback's loop, the bytes of echo requests and magic packets, and the address a packet is sent to: the log records whose packet it is.
- The address wrappers `parse_ip` and `ip_to_str`: calls into the network stack; the first is a parameter.
- Interrupts inside one loop body: see the atomicity assumption.
- Saving to and loading from flash: hardware plumbing without torn-write protection.
- The choice of a command by its leading words, response texts, list, status and JSON output: formatting without state.
- The `%d:%d` scan of a schedule's time and the integer arguments of `schedule remove` and `timezone`: they enter as numbers, or as none for an unreadable time.
- Reading the fields of HTTP requests other than server add: the getters are modelled, the branches take their arguments.
- Settings of MQTT and webhooks, MQTT messages, webhook requests beyond the URL: calls into libraries.
- Discovery, WiFi, mDNS, NTP, setting the RTC, server start-up and the delay of 100 ms between wakes: I/O and glue.
- Numbers.AtoiReadsInt: the C library leaves a number outside `int` undefined; the model returns it exactly.
- FrontEnds.FrontEndsAgree: address texts of digits and dots, which the command line's lower-casing does not alter; names without quotes and backslashes, which a serializer would escape.
- Detection.Detected: assumes an ICMP socket and packet buffers, and no reply, wake or edit of the server from t on.
- Clocks.WrappingClockRefines: takes the visits of a slot as at most `gap` apart and never holding a clock reading older than the last stamp, as premises of the statement; so does `TrueClock.RecordOnTrueClock`.
- Timetable.FiresExactly: an RTC that is set while the scheduler runs, or that cannot be read at a check, is outside the run; the timetable does not change during it.
