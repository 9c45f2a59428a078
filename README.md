# elog-cwp alarm poller, modelled in Dafny

elog-cwp polls CloudWatch for alarms in state `ALARM` at a fixed interval and
forwards state transitions to an eLog webhook. On every tick it fetches the
current alarms as a map from identifier to `Alarm`. It then compares that map
with the map of the previous tick (the *history*):

- an alarm that has disappeared is posted as cleared, with its state forced to `"OK"`;
- an alarm that is new is posted as triggered;
- the history is then replaced by the current map.

An alarm's identifier is the 32-bit FNV-1a hash of its ARN followed by the
Unix seconds of its last state change, written in decimal.

The model, one module per component:

| module | file | what it models |
|---|---|---|
| `Wrappers` | wrappers.dfy | `Option` and `Result` (a Go value-or-error return) |
| `Strconv` | strconv.dfy | Go's `strconv.FormatInt`/`Itoa` and `ParseInt(s, 10, 64)`, with their round trip |
| `Utf8` | utf8.dfy | the bytes of a Go string (`[]byte(s)`), UTF-8 |
| `Fnv` | fnv.dfy | FNV-1a 32 as a byte loop over `bv32`, and its specification |
| `Strings` | strings.dfy | `strings.ReplaceAll(s, old, "")`: left-to-right, non-overlapping removal |
| `LastWins` | lastwins.dfy | a map built by inserting list elements in order, later keys overwriting earlier ones |
| `CloudWatch` | cw.dfy | cw.go: `Alarm`, `hash`, name cleanup, `getActiveAlerts`, `getAlarmMap`, the pure part of `postToElog` |
| `Config` | config.dfy | main.go: `checkEnv` on the `cfg` object, and the `CWPOLL_LIMIT` value |
| `Poller` | poller.dfy | main.go: the ticker goroutine, a `Poller` class with `history` and a ghost log of posts |

Inputs that come from outside the program are parameters:

- the environment is a `map<string, string>`;
- the answer of `DescribeAlarms` (with each alarm's tag lookup) is a `Result<seq<MetricAlarm>>`;
- the result of `getAlarmMap` for each tick is a `Result<AlarmMap>`;
- the sequence of ticks is a `seq` of those results.

A call of `postToElog` only appends a `Post` (kind, alarm, URL, key and the
event built) to the ghost log `sent`. Its error is only logged in the source,
so it cannot change what a tick does.

Three behaviours of the code are worth spelling out:

- A failed fetch `return`s from the goroutine (main.go:88), so polling stops for good. The evidently intended skip of one tick is modelled separately (see Findings).
- The status switch maps `"ALARM"` to `"active"` and `"OK"` to `"resolved"`. Any state other than `"ALARM"` and `"OK"`, `"resolved"` included, becomes `"unknown"`.
- `checkEnv` checks the ELOG variables after it has already set `prepend` and `downgrade`. `CheckEnv` states those partial updates.

## Model

| member | source | states |
|---|---|---|
| `Strconv.Digits` | cw.go:115 | the decimal rendering is a non-empty digit string with no leading zero except "0" itself |
| `Strconv.FormatInt` | cw.go:89 | the rendering is non-empty, starts with '-' exactly for a negative number, and is otherwise all digits |
| `Strconv.ParseInt` | main.go:67 | a syntax error yields 0; a range error yields MaxInt64, or MinInt64 after a '-'; success yields the signed value of the digits after an optional sign; digits after an optional sign never give a syntax error |
| `Strconv.ParseIntForms` | main.go:67 | a '+' sign and leading zeros are accepted: "+007" is 7 and "-0" is 0 |
| `Strconv.ParseFormatInt` | main.go:67 | `ParseInt(FormatInt(n))` gives back `n` with no error, for every int64 `n` |
| `Strconv.FormatIntInjective` | cw.go:89 | two different int64 values never have the same decimal rendering |
| `Utf8.DecodeEncodeChar` | cw.go:114 | decoding a character's UTF-8 bytes gives back the character |
| `Utf8.Encode` | cw.go:114 | `[]byte(s)` has between one and four bytes per character |
| `Utf8.EncodeAppend` | cw.go:114 | the bytes of `a + b` are the bytes of `a` followed by those of `b` |
| `Utf8.EncodeAscii` | cw.go:114 | an ASCII string such as a decimal number is encoded one byte per character |
| `Fnv.Hash32a` | cw.go:113-115 | the hasher loop computes FNV-1a 32 (offset basis 2166136261, prime 16777619, XOR then multiply mod 2^32) |
| `Fnv.FeedAppend` | cw.go:114 | hashing `a + b` equals hashing `a` and then continuing with `b` |
| `Fnv.TestVectors` | cw.go:113-115 | the published FNV-1a 32 values of "", "a" and "foobar" |
| `Strings.RemoveAll` | cw.go:82 | `strings.ReplaceAll(s, pat, "")` never lengthens the string |
| `Strings.RemoveAllFree` | cw.go:82 | a string without the pattern is left unchanged |
| `Strings.RemoveAllSplit` | cw.go:82 | for a pattern that cannot overlap itself, a pattern-free prefix is kept, the first match is removed and the scan resumes after it |
| `CloudWatch.CleanName` | cw.go:82 | the cleaned name is never longer than the reported one; the removal is `Strings.RemoveAll` |
| `CloudWatch.CleanNameKeeps` | cw.go:82 | a name without "red/" is kept as it is |
| `CloudWatch.CleanNameStrips` | cw.go:82 | "red/" + s becomes s when s holds no "red/" |
| `CloudWatch.CleanNameSinglePass` | cw.go:82 | removal is one left-to-right pass: "redred//" becomes "red/" |
| `CloudWatch.HashOf` | cw.go:112-116 | `hash(s)` is a non-empty digit string |
| `CloudWatch.HashIsDecimal` | cw.go:112-116 | the identifier is a non-empty digit string that parses back to the 32-bit FNV-1a value, below 2^32 |
| `CloudWatch.Hash` | cw.go:112-116 | the running-hasher `hash` returns that decimal string of the FNV-1a value of the string's bytes |
| `CloudWatch.AlarmId` | cw.go:89 | the identifier, the hash of the ARN followed by the decimal Unix seconds, is a non-empty digit string |
| `CloudWatch.AlarmIdOnlyFromArnAndTime` | cw.go:83-89 | alarms with the same ARN and timestamp get the same identifier |
| `CloudWatch.AlarmIdInputSeparatesTimes` | cw.go:89 | for one ARN, different timestamps give different hash inputs |
| `CloudWatch.AlarmIdConcatenationAmbiguous` | cw.go:89 | with no separator, ARN "x1" at 23 and ARN "x" at 123 get the same identifier |
| `CloudWatch.TagMap` | cw.go:77-80 | the tag map holds exactly the listed keys, each with its last listed value |
| `CloudWatch.TagsOfLookup` | cw.go:72-80 | after a failed tag lookup the tag map is empty; otherwise its keys are exactly the listed tag keys |
| `CloudWatch.AlarmOfFields` | cw.go:77-91 | the record `AlarmOf` makes of one reported alarm: its identifier is `AlarmId` of ARN and timestamp and is decimal, its name is never longer than the reported one and is unchanged without "red/", its tag keys are the listed ones (none after a failed lookup), and description and state are copied |
| `CloudWatch.RecordOf` | cw.go:67-92 | the loop body of `getActiveAlerts` builds exactly the record `AlarmOf` of the reported alarm |
| `CloudWatch.GetActiveAlerts` | cw.go:62-94 | a `DescribeAlarms` error is returned as is; otherwise one record per alarm, in order, with cleaned name, hashed identifier and tags (empty after a failed lookup) |
| `CloudWatch.GetAlarmMap` | cw.go:97-109 | on error the empty map and the error; otherwise the keys are exactly the listed identifiers, each key maps to the last alarm with that identifier, and every key equals its alarm's identifier |
| `CloudWatch.BuiltMapKeyed` | cw.go:97-109 | the map built from the listed alarms has exactly their identifiers as keys, stores every alarm under its own identifier, and keeps the last alarm listed for each identifier |
| `LastWins.BuildKeys` | cw.go:105-107 | the keys of the built map are the keys of the list elements |
| `LastWins.BuildLast` | cw.go:105-107 | a key maps to the value of the last element carrying it |
| `LastWins.BuildHasLast` | cw.go:105-107 | every key of the built map comes from some last element |
| `CloudWatch.Status` | cw.go:120-128 | "ALARM" becomes "active", "OK" becomes "resolved", and every other state becomes "unknown", each in both directions |
| `CloudWatch.ResolvedIsUnknown` | cw.go:120-128 | the state "resolved" itself becomes "unknown" |
| `CloudWatch.MakeEvent` | cw.go:135-145 | fingerprint is the identifier, msg is prefix + description, resource is the name, source is "CloudWatchPoller", site and env come from the tags, tags are the alarm's tags |
| `CloudWatch.DowngradeOnlySetsPriority` | cw.go:130-133 | with downgrade on, the event equals the one without downgrade except that its priority is "P4" |
| `CloudWatch.PriorityFromTag` | cw.go:130 | with downgrade off, the priority is the "priority" tag, or "" when it is absent |
| `CloudWatch.ClearingOnlySetsStatus` | main.go:101-102 | forcing the state to "OK" changes only the event's status, to "resolved" |
| `CloudWatch.EventKeepsAlarmData` | cw.go:135-145 | two alarms with the same event agree on identifier, name, tags and description |
| `Config.FirstEmpty` | main.go:150-188 | finds the first requirement of a list whose variable is empty (every earlier one being set), or none exactly when all are set |
| `Config.ExitFor` | main.go:150-188 | every exit `checkEnv` takes has status 1 |
| `Config.ExitForInOrder` | main.go:150-188 | the exit decision follows the order of the checks and prints the source's message for each variable |
| `Config.ExitIffRequiredMissing` | main.go:150-188 | the process exits exactly when one of the five required variables is empty, and then prints the message of the first empty one, every earlier one being set |
| `Config.FirstMissingReported` | main.go:151-154 | a missing AWS_REGION is reported first, whatever else is missing |
| `Config.Config.constructor` | main.go:30 | `cfg` starts as the Go zero value |
| `Config.Config.CheckEnv` | main.go:150-196 | the exit decision, and the new value of every field: the "1" flags, url and key copied, prepend only when set, and the fields left as they were after an early exit |
| `Config.Limit` | main.go:65-73 | as written: 100 when CWPOLL_LIMIT is empty, 0 on a syntax error, and the int64 bound on the value's side on a range error |
| `Config.LimitCorrected` | main.go:65-73 | corrected: the limit is 100 or a value that parses without error, and it is 100 when CWPOLL_LIMIT is empty or does not parse |
| `Config.LimitOfDecimal` | main.go:65-73 | a CWPOLL_LIMIT written as a decimal int64 becomes that limit |
| `Config.LimitDropsFallback` | main.go:68-72 | as written, an unparsable CWPOLL_LIMIT gives limit 0, not 100 |
| `Config.LimitCorrectedFallsBack` | main.go:65-73 | corrected, the limit is 100 when CWPOLL_LIMIT is empty or does not parse, and the parsed value otherwise |
| `Poller.SendsCount` | main.go:92-124 | a post sequence that sends each alarm of a set exactly once has one post per alarm |
| `Poller.DiffCounts` | main.go:92-124 | there are as many clears as history keys missing from current, and as many triggers as current keys missing from history |
| `Poller.StillActiveNotPosted` | main.go:94-96 | an identifier that is a key of both maps is never posted |
| `Poller.QuietIffSameKeys` | main.go:94-96 | a tick posts nothing if and only if the two key sets are equal |
| `Poller.RepeatedSnapshotQuiet` | main.go:126 | a tick that fetches the same map as the previous one posts nothing |
| `Poller.ClearedAreResolved` | main.go:101 | every cleared alarm has state "OK" and its event has status "resolved" |
| `Poller.DiffExample` | main.go:92-124 | history {A, B} and current {B, C}: A is cleared, C is triggered, B is not posted |
| `Poller.Poller.constructor` | main.go:34 | the history starts empty and nothing has been posted |
| `Poller.Poller.PostToElog` | main.go:102 | a call of `postToElog` appends one post to the log |
| `Poller.Poller.PostCleared` | main.go:92-107 | the first loop posts each vanished history alarm exactly once, with state "OK" |
| `Poller.Poller.PostTriggered` | main.go:110-124 | the second loop posts each new current alarm exactly once, unchanged |
| `Poller.Poller.Tick` | main.go:81-126 | on a fetch error: no post, history kept, the goroutine stops. Otherwise: the log grows by all clears then all triggers, one clear per history key missing from the fetched map and one trigger per fetched key missing from the history, and the history becomes the fetched map exactly |
| `Poller.FirstErr` | main.go:82-89 | the index of the first failed fetch; every earlier fetch succeeded |
| `Poller.HistoryAfter` | main.go:81-126 | after a run of ticks the history is the map of the last successful fetch, or the starting history when every fetch failed |
| `Poller.Poller.Run` | main.go:75-138 | as written, ticks are taken up to and including the first failed fetch and none after it; the history is that of the last successful one |
| `Poller.Poller.RunCorrected` | main.go:75-138 | with the failed tick skipped instead, every tick is taken and the history is that of the last successful fetch |

## Findings

| source | as written | input that shows it | evidently intended | confidence | as-written member | corrected member |
|---|---|---|---|---|---|---|
| main.go:65-73 | on a `ParseInt` error the fallback `limit = 100` is overwritten by `limit = nl` | CWPOLL_LIMIT="abc" gives limit 0 (and an out-of-range value is clamped to the int64 bound) | limit 100 when the value does not parse | high; not executed | `Config.LimitDropsFallback` | `Config.LimitCorrectedFallsBack` |
| main.go:82-89 | a fetch error `return`s from the goroutine, which ends all polling, and the session it has just re-created is never used | ticks [error, Ok(m)]: only the first is taken and the history never becomes m | skip the failed tick and keep polling (`continue`) | medium; not executed | `Poller.Poller.Run` | `Poller.Poller.RunCorrected` |

## Left out

- The AWS SDK calls (`cloudwatch.New`, `DescribeAlarms`, `ListTagsForResource`, `session.NewSession`) are foreign network calls. Their answers are inputs, and a failed tag lookup gives empty tags.
- Re-creating the session on a "no such host" error (main.go:85-87) is left out. It only touches the AWS client.
- JSON marshalling, the HTTP POST, its headers and the "200 OK" check (cw.go:147-171) are I/O. A post is a ghost log entry, and its error does not affect the tick.
- The ticker, the `done` channel, the goroutine and signal handling (main.go:39-42, 55-56, 75-80, 140-146) are concurrency and OS signals. A run is a finite sequence of ticks.
- `time.ParseDuration` and the 60 s default (main.go:44-53) are left out. They belong to a library parser that the model does not include.
- CWPOLL_PREFIX (main.go:60-63) is left out. It is only passed to `DescribeAlarms`.
- Logging and debug printing (main.go:100, 117, 128-134) are left out. They produce output only.
- The Event fields that the poller never sets (uuid, triggered, cleared, severity, kb, ticket, comment, ack, ackby, graphurl) keep Go's zero values. They are not part of the `Event` datatype.
- cw.go:82-90 dereferences every field of a reported alarm without a nil check. A missing field (for example no description) would be a panic, which is not modelled.
- Go's `int` is taken to be 64 bits, so `strconv.Itoa(int(h.Sum32()))` is never negative.
- Strings are sequences of Unicode scalar values, and their bytes are their UTF-8 encoding. Go strings holding invalid UTF-8 are not modelled.
- Poller.Poller.Run: states only that the log of posts grows; what each tick posts is stated by `Poller.Poller.Tick`.
- Poller.Poller.RunCorrected: states only that the log of posts grows; what each tick posts is stated by `Poller.Poller.Tick`.
- Poller.Poller.Tick: requires the fetched map to have every key equal to its alarm's identifier, which `CloudWatch.GetAlarmMap` guarantees for every map it returns.
- cw_test.go needs live AWS credentials or a local webhook and asserts only that no error occurs, so no property is drawn from it. Its alarm with state "resolved" is covered by `CloudWatch.ResolvedIsUnknown`.
