# Scoreboard OCR — a Dafny model of its digit logic

Scoreboard reads a sports scoreboard through a webcam and republishes what it
reads. Two worker threads turn camera frames into numbers: the game-clock
worker (`GCOCRWorker`) reads four clock digits and two three-digit scores
through the `ssocr` seven-segment recogniser; the shot-clock worker
(`SCOCRWorker`) matches two digit regions against reference bitmaps. A
WebSocket server broadcasts the results to connected clients, and the
control window keeps coordinate fields and team/player selectors.

This project models the sequential logic between those devices:

- `Decimal` — decimal digit strings: `int()` of a digit string (`Value`) and
  `str()` of a natural number (`Show`), with their round trip.
- `DigitReading` — `cleanInt`: keep the decimal digits of the recogniser's
  output, pad with `"00"`, keep the last `numDigits` characters, read as a number.
- `ConsistencyFilter` — the per-frame filter of `GCOCRWorker`: a 3-slot FIFO
  per clock digit and a 7-slot FIFO per score, the countdown fast path, the
  majority vote `sorted(fifo, key=fifo.count)[-1]` (modelled literally as a
  stable sort by count), and the class `DigitFilter` holding the FIFOs.
- `ClockAssembly` — the `M:SS` / `MM:SS` text built from the four filtered digits.
- `TemplateMatch` — the shot-clock reader: exact bitmap comparison against
  the reference library, last match wins, no match keeps the previous digit.
- `Broadcast` — the WebSocket factory's client list (`register`,
  `unregister`) and the fan-out of a message to every client.
- `WindowHelpers` — `int('0' + text)` on coordinate fields, the derived
  width and height of a region, the list of unique teams and the list of a
  team's players read from the athlete table.
- `Sequences` and `Options` — Python list operations used above (`in`,
  `append` if absent, `remove`, first-seen de-duplication) and an option type.

Notable behaviours of the code that the model keeps:

- The fast path compares the newest reading with the raw reading before it
  in the FIFO (`FIFO[1]`), which may differ from the digit output last frame.
- Every reading is pushed into its FIFO, including on the fast path.
- The FIFOs start filled with `0`, and those zeros take part in the vote.
- `cleanInt` maps recogniser output without digits to `0`; no separate
  "unrecognised" value exists.
- The shot-clock classifier does not stop at a match, so the last matching
  digit wins.
- The clock text is always `minutes:seconds`.

## Model

| member | source | states |
|---|---|---|
| Decimal.Value | application.py:808-809 | `int()` of a digit string is below 10 to the power of its length |
| Decimal.Show | application.py:930-933 | `str(n)` is a non-empty digit string, without a leading zero unless it is `"0"`, and reads back as `n` |
| Decimal.ValueConcat | application.py:930 | reading a concatenation equals the first part shifted by the length of the second plus the second |
| Decimal.ValueSuffix | application.py:808-809 | the last `n` digits of a string read as its value modulo 10^n |
| Decimal.LeadingZero | application.py:930-931 | a prefixed `'0'` does not change the value read |
| DigitReading.DigitsOf | application.py:809 | removing every non-digit leaves only digits, leaves a digit string unchanged, and leaves nothing when there are no digits |
| DigitReading.DigitsOfChar | application.py:809 | a single character is kept exactly when it is a digit |
| DigitReading.DigitsOfConcat | application.py:809 | the digits of a concatenation are the digits of each part, in order |
| DigitReading.CleanInt | application.py:808-809 | with `numDigits >= 1` the result is below 10^numDigits; `CleanIntSuffix` and `CleanIntNoDigits` fix its value |
| DigitReading.CleanIntLastDigits | application.py:808-809 | for `numDigits >= 1`, `cleanInt` is the value of the digits found modulo 10^numDigits, hence below 10^numDigits |
| DigitReading.CleanIntSuffix | application.py:808-809 | `cleanInt` reads exactly the last `numDigits` digits found, or all of them when there are fewer |
| DigitReading.CleanIntAllDigits | application.py:808-809 | with `numDigits == 0` the whole digit string is read |
| DigitReading.CleanIntNoDigits | application.py:808-809 | output without any digit reads as 0 |
| DigitReading.CleanDigitRange | application.py:874-877 | a clock reading is a single digit 0-9 |
| DigitReading.CleanScoreRange | application.py:878-879 | a score reading is below 1000 |
| ConsistencyFilter.AllowedNextIsCountdown | application.py:774-779 | the allowed-next table maps each digit to the digit before it, wrapping 0 to 9 (0 to 5 for the tens of seconds) |
| ConsistencyFilter.Shift | application.py:884-895 | append then `pop(0)` keeps the length, drops the oldest reading and puts the new one last |
| ConsistencyFilter.AllowedNextDigits | application.py:774-779 | each table has ten entries, one per previous digit, and every entry is a digit |
| ConsistencyFilter.Occurrences | application.py:921-922 | `w.count(x)` is positive exactly when `x` occurs in `w` |
| ConsistencyFilter.BelowLast | application.py:921-922 | in a list ordered by count, the elements before the last together with a rarer reading all have counts at most the last one's |
| ConsistencyFilter.InsertByCount | application.py:921-922 | inserting into the sort by count keeps the length and the elements, and keeps a list ordered by count ordered |
| ConsistencyFilter.SortedByCount | application.py:921-922 | sorting by count gives a permutation of the window ordered by non-decreasing count |
| ConsistencyFilter.Vote | application.py:921-922 | the vote is one of the readings in the window |
| ConsistencyFilter.LastMostFrequent | application.py:921-922 | the chosen position has the highest count and no later position has as high a count |
| ConsistencyFilter.SortedByCountLast | application.py:921-922 | the last element of the stable sort by count is the latest reading of highest count |
| ConsistencyFilter.VoteIsLastMostFrequent | application.py:921-922 | the vote is the reading at the last position of maximal count |
| ConsistencyFilter.VoteIsLatestMode | application.py:921-922 | the vote occurs at least as often as any reading and, among ties, appears latest |
| ConsistencyFilter.VoteOfThree | application.py:907 | on a window `[a, b, c]` the vote is `a` when `a == b != c`, otherwise `c` |
| ConsistencyFilter.ClockOutput | application.py:905-919 | the output digit is one of the readings in the window |
| ConsistencyFilter.ClockOutputRule | application.py:905-919 | the output is the newest reading unless two agreeing older readings outvote one that is neither them nor their countdown successor |
| ConsistencyFilter.NoLagOnCountdown | application.py:905-919 | a reading that is the countdown successor of the previous reading is output in the same frame |
| ConsistencyFilter.IsolatedMisreadSuppressed | application.py:905-919 | a single wrong reading between agreeing readings that is neither the agreeing reading nor its countdown successor is never output (a misread equal to the countdown successor passes the fast path, as `NoLagOnCountdown` shows) |
| ConsistencyFilter.VoteBelow | application.py:921-922 | the vote of readings below a bound is below that bound |
| ConsistencyFilter.ClockOutputBelow | application.py:905-919 | a clock output is a digit 0-9 |
| ConsistencyFilter.DigitFilter.constructor | application.py:780-789 | four 3-slot clock FIFOs and two 7-slot score FIFOs, all zeros |
| ConsistencyFilter.DigitFilter.PushClock | application.py:884-891 | only the named clock FIFO shifts by the reading; the window shapes are kept |
| ConsistencyFilter.DigitFilter.PushScore | application.py:892-895 | only the named score FIFO shifts by the reading; the window shapes are kept |
| ConsistencyFilter.DigitFilter.Slide | application.py:874-895 | each FIFO shifts by the `cleanInt` of its raw reading (1 digit for the clock, 3 for scores) |
| ConsistencyFilter.DigitFilter.Step | application.py:874-933 | one frame: the FIFOs shift as in `Slide` and the output is `Filtered` of the new windows |
| ConsistencyFilter.Filtered | application.py:905-933 | filtered clock digits are below 10, scores below 1000, and the clock text is assembled from the filtered digits |
| ClockAssembly.JoinedNumber | application.py:930 | the minutes text is a non-empty digit string |
| ClockAssembly.SecondsText | application.py:931-932 | the seconds text is a digit string of at least two characters |
| ClockAssembly.NoColon | application.py:933 | a digit string holds no colon |
| ClockAssembly.ClockText | application.py:930-933 | the clock text has exactly one colon, at least one digit before it and two digits after it |
| ClockAssembly.JoinWithColon | application.py:933 | minutes and seconds digit strings joined by `":"` hold exactly that colon, with digits around it |
| ClockAssembly.TwoDigitNumber | application.py:930 | two digits joined read as `10a + b` without a leading zero |
| ClockAssembly.TwoDigitSeconds | application.py:931-932 | the seconds text is exactly the two seconds digits |
| ClockAssembly.ClockTextOfDigits | application.py:930-933 | the clock text is `str(10*c1 + c2)`, a colon and the digits `c3 c4` |
| TemplateMatch.LastMatch | application.py:1048-1053 | no matching variant keeps the previous digit; otherwise the largest matching digit index wins |
| TemplateMatch.TemplateRoundTrip | application.py:972-984 | a reference variant is read as its own digit when no later digit has the same bitmap |
| TemplateMatch.ReadingInRange | application.py:972-984 | against the reference library a reading is the previous one or a digit 0-9 |
| TemplateMatch.ShotClockReader.constructor | application.py:964-965 | both digits start unread |
| TemplateMatch.ShotClockReader.Compare | application.py:1048-1053 | each digit becomes the last match of its bitmap over the whole library, or stays as it was |
| Broadcast.Deliveries | application.py:723-726 | one delivery per client, in client order, each carrying the message |
| Broadcast.DeliveredOnceEach | application.py:723-726 | with a duplicate-free client list each registered client gets the message exactly once and others never |
| Broadcast.RegisterIdempotent | application.py:713-716 | registering a client twice leaves the list as registering it once |
| Broadcast.UnregisterIdempotent | application.py:718-721 | on a duplicate-free list (the hub's invariant), unregistering a client twice leaves the list as unregistering it once |
| Broadcast.BroadcastHub.constructor | application.py:704 | the client list starts empty |
| Broadcast.BroadcastHub.Register | application.py:713-716 | the client is present afterwards, appended only when absent; the list stays duplicate-free |
| Broadcast.BroadcastHub.Unregister | application.py:718-721 | the first occurrence is removed; the client is absent afterwards and every other client stays |
| Broadcast.BroadcastHub.Broadcast | application.py:723-726 | the clients are unchanged and one delivery per client is added in order |
| Sequences.AppendIfAbsent | application.py:713-716 | the element is present afterwards, the old list is a prefix, nothing else is added, and distinctness is kept |
| Sequences.FirstIndex | application.py:274-276 | `index` returns the first position holding the element |
| Sequences.RemoveFirst | application.py:718-721 | `remove` deletes the first occurrence and nothing else; without an occurrence the list is unchanged |
| Sequences.RemoveFirstKeepsDistinct | application.py:718-721 | removal keeps a list duplicate-free |
| Sequences.RemoveFirstMembers | application.py:718-721 | after removal from a duplicate-free list exactly the other elements remain |
| Sequences.Dedup | application.py:273-279 | the unique list is duplicate-free and holds exactly the elements of the input |
| Sequences.DedupFirstSeenOrder | application.py:273-279 | the unique list is in order of first appearance |
| WindowHelpers.TrimTrailing | application.py:444 | trailing whitespace is removed and nothing else |
| WindowHelpers.TrimDigitsThenSpaces | application.py:444 | digits followed by whitespace trim back to the digits |
| WindowHelpers.ParseField | application.py:444-447 | a field that reads holds only digits and whitespace; `ParseFieldAccepts` and `ParseFieldRejects` give the exact accepted form and value |
| WindowHelpers.TrimmedToDigits | application.py:444 | text that trims to digits holds only digits and whitespace |
| WindowHelpers.ParseFieldAccepts | application.py:444-447 | a field of digits then whitespace reads as the value of its digits |
| WindowHelpers.ParseFieldRejects | application.py:444-447 | a field that reads is digits followed by whitespace |
| WindowHelpers.ParseFieldEmpty | application.py:444 | an empty field reads as 0 |
| WindowHelpers.ParseFieldShow | application.py:444-449 | a field holding `str(n)` reads back as `n` |
| WindowHelpers.RegionSize | application.py:444-449 | a size exists exactly when all four corner fields read |
| WindowHelpers.RegionSizeOfNumbers | application.py:444-449 | width and height are the corner differences; empty corners give 0 x 0 |
| WindowHelpers.ReadablePrefix | application.py:274-279 | the loop gets through every row before the first unreadable one |
| WindowHelpers.Teams | application.py:274-279 | the team cells of the rows, one per row in order |
| WindowHelpers.UniqueTeams | application.py:273-279 | the team list is the first-seen de-duplication of the team cells of the readable rows; it is complete exactly when every row is readable |
| WindowHelpers.TeamsStep | application.py:274-279 | one more row appends its team when it is new |
| WindowHelpers.PlayersOf | application.py:302-304 | at most one player per row |
| WindowHelpers.PlayersOfRow | application.py:302-304 | one row adds its player cell exactly when its team cell is the chosen team |
| WindowHelpers.PlayersOfConcat | application.py:302-304 | rows are taken in order: the players of two blocks of rows are those of the first followed by those of the second, repeats kept |
| WindowHelpers.PlayersOfMembers | application.py:302-304 | a name is listed exactly when some row of the chosen team holds it |
| WindowHelpers.PopulatePlayers | application.py:300-304 | the player list is the player cells of the chosen team's readable rows, in order; it is complete exactly when every row is readable |

## Left out

- The Qt user interface (widgets, signals, settings file) beyond the values the helpers compute.
- Camera capture and OpenCV image processing (cropping, resizing, grey-scale, threshold); the
  shot-clock bitmaps are taken as given 7x5 matrices.
- The `ssocr` subprocess: its output is a parameter (`RawFrame`) of the filter.
- The colon brightness mean emitted with each frame (floating-point image statistics).
- Twisted reactor, `tick`, `sendMessage`, `callFromThread`, the HTTP server and the JSON packet
  built from the readings; a delivery is recorded as a value instead of sent.
- The `utf8` encoding of broadcast messages.
- The thread loops, `waitKey` delays and the kill/stop paths of the workers.
- Reading the athlete CSV file: rows arrive as a sequence of cell lists after the header row.
- `previousDigit` (initialised but never read).
- `onMessage` echo of client messages.
- The order in which `widthHeightAutoFiller` walks the coordinate dictionaries, and the fields
  already updated before a `ValueError` stops it; the model computes one region at a time.
- WindowHelpers.ParseField: only ASCII digits and ASCII whitespace are modelled; `int()` also
  accepts other Unicode decimal digits and whitespace.
- DigitReading.CleanInt: `re.sub("[^0-9]", ...)` is modelled on ASCII digits only.
- TemplateMatch.LastMatch: bitmaps of a shape other than the references' are not modelled; in
  numpy such a comparison either broadcasts or yields a scalar whose `.all()` raises, and the
  `except` at application.py:1062-1063 then reports an error and ends the worker's loop. The model
  treats every such comparison as a mismatch.
