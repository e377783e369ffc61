# kube-iptables-tailer drop pipeline, modelled in Dafny

kube-iptables-tailer runs on each Kubernetes node. It tails the iptables log file and
turns each logged packet drop into Kubernetes events on the pods involved. This
project models that pipeline and proves properties of it:

- **Tailer** (`DropWatcher`, watcher.dfy). A `Watcher` class keeps the read offset and
  the fingerprint of the watched file, which is its first 64 bytes. Each check does
  three things:
  - it resets to offset 0 when the fingerprint changed;
  - it emits the lines from the saved offset on, as `bufio.ScanLines` splits them;
  - it advances the offset by exactly what the splitter consumed.

  `Watcher.Check` is proved equal to the function `Checked`. The lemmas then cover:
  - idempotence;
  - appended content;
  - rotation;
  - no line lost or duplicated across checks.
- **Parser** (`DropParser`, parser.dfy). The parser works in four steps:
  - it keeps only lines that hold the marker token;
  - it splits them on whitespace, as `strings.Fields` does, and requires at least four tokens;
  - it builds a `PacketDrop` from tokens 0 and 1 and the `SRC=`/`DST=` tokens;
  - it forwards the drop only if it has not expired.

  The loops of the source are methods proved against specification functions.
  The lemmas cover each rejection rule, a parse round trip, and the stream that
  `RunParsing` emits.
- **Locator** (`EventLocator`, locator.dfy). This part covers:
  - the pod-IP index and `LocatePod`;
  - the identity a drop's endpoint is shown under: by pod-identifier mode, by node name, or by DNS;
  - the event message text.
- **Poster** (`EventPoster`, poster.dfy). A `Poster` class holds the post-time map.
  It also holds the drop counter and the events posted, as ghost fields. The poster:
  - ignores expired drops and recent repeats;
  - handles a drop by looking up both pods, then posting zero, one or two events;
  - counts the drop and records the post time;
  - in its run loop, retries each drop in channel order.

  `Poster.Handle` is proved equal to the function `Handled`. Lemmas give the effects
  of a handled drop, the lookup and submission failure paths, deduplication, and
  the order of the run loop.

Shared pieces:
- wrappers.dfy holds `Option`/`Result`.
- text.dfy models Go's `strings.Fields`, `strings.Split` on one separator, `strings.HasPrefix` and byte search.
- envar.dfy holds the configuration with its documented defaults:
  - expiration: 10 minutes;
  - repeat interval: 2 minutes;
  - pod identifier: `namespace`;
  - event reason: `PacketDrop`.

Things outside the model are parameters:
- Times are integer nanoseconds. The current time is a parameter.
- Parsing the log-time layout is an abstract partial function `string -> Option<int>`.
- The pod index, the DNS resolver and, for each pod, whether its object reference can be built are plain values.
- A channel is the sequence of values sent on it.

## Model

| member | source | states |
|---|---|---|
| DropParser.IsExpired | drop/parser.go:28-38 | a drop is expired when its log time cannot be parsed, or when `now` is more than the expiration window past its log time (strictly greater); so a drop whose log time is not before `now` is never expired under a non-negative window |
| DropParser.ExpiryIsMonotone | drop/parser.go:28-38 | a drop that is expired at some time stays expired at every later time |
| DropParser.ExpiryBoundary | drop/parser.go:34-37 | expiry is strict: a drop is fresh exactly at the expiration window and expired one nanosecond after it |
| DropParser.UnparsableTimeIsExpired | drop/parser.go:29-33 | a drop whose log time cannot be parsed counts as expired |
| Text.Fields | drop/parser.go:78 | `strings.Fields`: the maximal runs of non-white-space characters, in order, each a non-empty word with no white space; inverted by `Text.FieldsOfUnwords` |
| Text.SplitOn | drop/parser.go:129 | `strings.Split` on one separator: at least one piece, no piece containing the separator; inverted by `Text.JoinOfSplit` |
| DropParser.IsRequiredPacketDropLog | drop/parser.go:77-84 | a line is required iff the marker is exactly one of its whitespace-separated tokens |
| DropParser.GetPacketDropLogFields | drop/parser.go:116-123 | a line is accepted iff it has at least four tokens, and then its tokens are returned; otherwise the "Invalid packet drop" error |
| DropParser.GetFieldValue | drop/parser.go:126-138 | the scanning loop returns the value of the first token that starts with the field name, or the "Missing value" or "Missing field" error |
| DropParser.FieldValueIsTextAfterFirstEquals | drop/parser.go:126-138 | the value is the text between the first and second `=` of the first token with the prefix; a missing token is "Missing field=", a token without `=` is "Missing value: field=" |
| DropParser.GetPacketDrop | drop/parser.go:87-113 | building a drop fails on a short line or on a missing SRC or DST value, and otherwise gives tokens 0 and 1 and the two values |
| DropParser.Parse | drop/parser.go:57-74 | one line yields no error and nothing sent when unmarked, the parse error when invalid, nothing sent when expired, and exactly the drop otherwise |
| DropParser.UnmarkedLogIgnored | drop/parser.go:58-61 | a line without the marker token gives no error and sends nothing |
| DropParser.ShortLogRejected | drop/parser.go:116-123 | a marked line with fewer than four tokens is rejected with "Invalid packet drop: log=" and the line, and nothing is sent |
| DropParser.MissingAddressRejected | drop/parser.go:98-105 | a marked line with no SRC token fails with "Missing field=SRC"; one with a SRC value but no DST token fails with "Missing field=DST" |
| DropParser.ParsedDropComesFromTokens | drop/parser.go:95-111 | a sent drop has token 0 as log time, token 1 as host name, the SRC and DST field values as addresses, and is not expired |
| DropParser.ParseOfTokens | drop/parser.go:57-74 | conversely, a marked line of four or more tokens whose SRC and DST fields have values parses to the drop of tokens 0 and 1 and those values, sent exactly when it is not expired |
| DropParser.FieldValueOfAssignment | drop/parser.go:126-138 | when the first token starting with the field name is "name=value", with no `=` in either part, the field's value is exactly `value` |
| DropParser.ParseRoundTrip | drop/parser.go:87-113 | a line "time host marker SRC=s DST=d" of plain words, fresh at `now`, parses to exactly the drop (time, host, s, d) |
| DropParser.RunParsing | drop/parser.go:46-54 | the loop over the lines sends exactly the parsed stream: every line is parsed, and a bad line never stops the loop |
| DropParser.ParsedStreamAppend | drop/parser.go:47-53 | the stream of a concatenation of two batches is the first batch's stream followed by the second's |
| DropParser.UnsentLogSkipped | drop/parser.go:48-52 | a line that does not parse to a fresh drop contributes nothing and the lines after it are still parsed |
| DropParser.ParsedStreamSound | drop/parser.go:57-71 | every drop sent comes from a line that parses to exactly that fresh drop |
| Text.FieldsOfUnwords | drop/parser.go:117 | splitting words joined by single spaces on whitespace gives back exactly those words |
| Text.SplitOfAssignment | drop/parser.go:129 | splitting "name=value" on `=`, with no `=` in either part, gives exactly [name, value] |
| Text.JoinOfSplit | drop/parser.go:129 | the pieces of a split, joined again with the separator, give back the original token |
| DropWatcher.ScanLines | drop/watcher.go:64-70 | the splitter consumes at most its input, yields a token iff it consumes something, yields a line at end of input when input remains, and never puts a newline in a line |
| DropWatcher.ScanLinesAtFirstNewline | drop/watcher.go:64-70 | with a newline in the data, the splitter consumes up to and including the first newline and yields the text before it minus one trailing `\r`, at end of input or not |
| DropWatcher.ScanLinesWithoutNewline | drop/watcher.go:64-70 | without a newline, non-empty data is consumed whole at end of input and yielded minus one trailing `\r`; before the end nothing is consumed or yielded |
| DropWatcher.UnterminatedLastLineRead | drop/watcher.go:64-76 | content written line by line and then an unterminated final piece reads as those lines followed by the piece, minus one trailing `\r` |
| DropWatcher.CarriageReturnDropped | drop/watcher.go:64-76 | a line ended by `\r\n` is read as the line alone |
| DropWatcher.LinesOfUnlines | drop/watcher.go:73-76 | the lines read from a file written line by line are exactly the lines written |
| DropWatcher.LinesAppend | drop/watcher.go:73-76 | reading content that ends on a line boundary, then what follows, gives the lines of the whole in order |
| DropWatcher.Watcher.InitWatcher | drop/watcher.go:24-27 | a new watcher has the given file name and interval, offset 0 and an empty fingerprint |
| DropWatcher.Watcher.Reset | drop/watcher.go:101-104 | reset sets the offset to 0 and the fingerprint to the one given, and nothing else |
| DropWatcher.Watcher.CheckRotation | drop/watcher.go:81-98 | fewer than 64 bytes is the "insufficient content" error with the state kept; a different first 64 bytes resets the state; the same ones keep it |
| DropWatcher.Watcher.Check | drop/watcher.go:53-78 | a check leaves the state, the lines sent and the error exactly as the specification function `Checked` gives them |
| DropWatcher.Watcher.CheckFile | drop/watcher.go:39-50 | a file that cannot be opened changes nothing and sends nothing; an opened one is checked |
| DropWatcher.ShortContentKeepsState | drop/watcher.go:86-88 | content shorter than 64 bytes is an error, emits nothing and keeps offset and fingerprint |
| DropWatcher.NewFingerprintRereadsAll | drop/watcher.go:92-96 | a new fingerprint, the initial empty one included, makes the check emit every line of the file and end at its length |
| DropWatcher.SameFingerprintResumes | drop/watcher.go:61-69 | an unchanged fingerprint resumes at the saved offset and ends at the content length; an offset past the end emits nothing |
| DropWatcher.CheckReachesEnd | drop/watcher.go:65-69 | after a successful check the offset is at least the content length, and equal to it when the old offset was not past the end |
| DropWatcher.CheckIsIdempotent | drop/watcher.go:61-76 | a second check of unchanged content emits nothing and changes nothing |
| DropWatcher.CheckEmitsAppended | drop/watcher.go:61-76 | after a check, content appended to the file is emitted, and nothing else |
| DropWatcher.RotatedFileReadInFull | drop/watcher.go:93-96 | a file whose first 64 bytes changed is read again from offset 0 and emitted in full |
| DropWatcher.TwoChecksEmitEveryLineOnce | drop/watcher.go:53-78 | a fresh read and a read after appending, with the first read ending on a newline, together emit every line of the final file exactly once and in order |
| DropWatcher.TruncatedSameFingerprintEmitsNothing | drop/watcher.go:61-63 | an offset past the end of a shrunk file with the same fingerprint emits nothing and keeps the state |
| EventLocator.DirectionName | event/locator.go:34-43 | SEND for send, RECEIVE for receive, and the empty string for any other value only |
| EventLocator.LocatePod | event/locator.go:110-121 | an index error is the "Error looking up pod: ip=" error; no pod under the IP gives none; otherwise the first pod filed under the IP |
| EventLocator.PodIPIndexKeys | event/locator.go:88-99 | a pod's index keys are exactly its pod IP |
| EventLocator.IndexedUnderPodIPOnly | event/locator.go:88-99 | each pod is filed under its pod IP and under no other key |
| EventLocator.FiledUnderStartsWithFirst | event/locator.go:114-116 | the pods filed under an IP are empty iff no pod has it, and otherwise start with the first pod that has it |
| EventLocator.LocatePodInStore | event/locator.go:110-121 | over the pod-IP index of a pod list, locating an IP never fails and gives exactly the first pod of the list with that IP, or none; the list order stands for the order the index yields |
| EventLocator.GetHostName | event/locator.go:176-186 | the first resolved name when the lookup succeeds with names; the IP itself when it fails or finds none |
| EventLocator.GetNamespaceOrHostName | event/locator.go:130-153 | a pod on its own network is named by the pod-identifier mode (name, label value or else name, namespace otherwise); a host-network pod with a node name by its node name; anything else by its DNS name or IP; a pod on its own network is always named by its name, namespace or one of its label values |
| EventLocator.PodIdentityByMode | event/locator.go:131-147 | a pod on its own network is named by its name in "name" mode, by its label value or else its name in "label" mode, and by its namespace in any other mode |
| EventLocator.DefaultIdentityIsNamespace | event/locator.go:143-146 | with the default settings, a pod on its own network is shown by its namespace |
| EventLocator.HostNetworkPodIsItsNode | event/locator.go:148-150 | a host-network pod with a node name is shown by its node name |
| EventLocator.UnknownEndpointResolvedByDns | event/locator.go:148-152 | no pod, or a host-network pod without a node name, is shown by its DNS name |
| EventLocator.IdentityHasKnownSource | event/locator.go:130-153 | every identity is the pod's name, namespace, a label value, the node name, a resolved name or the IP |
| EventLocator.GetPacketDropMessage | event/locator.go:156-173 | the message is "Packet dropped", the direction phrase and the name, followed by " (ip)" exactly when the name differs from the IP and the IP is not empty |
| EventLocator.MessageDeterminesName | event/locator.go:156-173 | for a fixed IP and direction, two messages are equal only when the names are |
| EventLocator.BareIpMessage | event/locator.go:167-171 | when the name is the IP itself, the IP is not repeated in parentheses |
| EventPoster.ShouldIgnore | event/poster.go:122-140 | a drop is ignored when expired, or when its pair has a post time and its log time is at most the repeat interval after it; post times keyed by (source IP, destination IP); an expired drop is always ignored, and a drop of a never-posted pair exactly when expired |
| EventPoster.ShouldIgnoreAsWritten | event/poster.go:122-140 | the same rule with post times keyed by the source and destination addresses concatenated, as the code is written; an expired drop is always ignored, and a drop whose key has no post time exactly when expired |
| EventPoster.IgnoreRule | event/poster.go:122-140 | an expired drop is ignored; a fresh one is ignored iff its pair was posted and its log time is at most one repeat interval after that post, earlier log times included |
| EventPoster.FreshUnpostedDropNotIgnored | event/poster.go:139 | a fresh drop whose pair was never posted is not ignored |
| EventPoster.Increment | metrics/metrics.go:53-59 | the counter of the label pair goes up by exactly one, and no other counter changes |
| EventPoster.Poster.InitPoster | event/poster.go:51-57 | a new poster has an empty post-time map, no counts and no events |
| EventPoster.Poster.SubmitEvent | event/poster.go:143-153 | a failed reference returns the error and posts nothing; otherwise one Warning event with the configured reason and the message is posted to the pod |
| EventPoster.Poster.Handle | event/poster.go:87-119 | handling leaves the state and returns the error exactly as the specification function `Handled` gives them |
| EventPoster.Notified | event/poster.go:103-114 | notifying an endpoint appends exactly its event, or none for an endpoint that is not a pod on its own network; a failure is the reference error of a notifiable pod |
| EventPoster.Poster.Post | event/poster.go:100-118 | the part of handling after both lookups leaves the state and returns the error exactly as the specification function `Posted` gives them |
| EventPoster.PostedEffects | event/poster.go:100-118 | once both endpoints are located, success posts the send and receive events the endpoints call for, counts the name pair once and records `now` for the pair; a failed submission leaves counts and post times as they were, with at most one event posted |
| EventPoster.Poster.HandleWithRetry | event/poster.go:66-79 | the retry attempts handling until an attempt succeeds or the budget is spent |
| EventPoster.Poster.Run | event/poster.go:64-83 | the drops are handled strictly in channel order, each retried on its own budget |
| EventPoster.IgnoredDropChangesNothing | event/poster.go:88-90 | an ignored drop is a success with no event, count or post time changed |
| EventPoster.LookupFailureChangesNothing | event/poster.go:91-98 | a failed pod lookup is returned, the source's first, with nothing changed |
| EventPoster.HandledDropEffects | event/poster.go:100-118 | a handled drop posts a send event to a source pod on its own network and then a receive event to such a destination pod, raises exactly its (source name, destination name) counter by one, and records `now` for its own pair only |
| EventPoster.FailedHandlingSkipsBookkeeping | event/poster.go:103-114 | a failed handling leaves counts and post times as they were, with at most the source's event posted |
| EventPoster.HandlingAppendsAtMostTwoEvents | event/poster.go:103-114 | handling only appends events, at most two |
| EventPoster.RepeatWithinIntervalSuppressed | event/poster.go:117-136 | after a drop is posted at `now`, a drop of the same pair logged at most one repeat interval after `now` is ignored |
| EventPoster.OtherPairsUnaffected | event/poster.go:117 | handling a drop never changes whether a drop of another (source, destination) pair is ignored |
| EventPoster.ConcatKeyConflatesPairs | event/poster.go:130-131 | under the concatenated key, a post for 1.1.1.1 to 12.2.2.2 suppresses a drop from 1.1.1.11 to 2.2.2.2; under the pair key it does not |
| EventPoster.RetryStopsAtSuccess | event/poster.go:76 | once an attempt succeeds no later attempt is made, so extra budget changes nothing |
| EventPoster.RunOutcomeAppend | event/poster.go:64-83 | the run loop over two batches of drops equals the run over the first batch, then the run over the second |

## Left out

- File I/O, channels, goroutines and the timed loop of `Watcher.Run` (drop/watcher.go:30-36): the file's content is a string parameter, and a channel is the sequence a method returns.
- `DropWatcher.Watcher.Check` models the rule that a final unterminated line is emitted, and that the offset moves past it, as drop/watcher.go:64-76 and its test at drop/watcher_test.go:63-74 show.
- `bufio.Scanner`'s 64 KB token limit and its read buffering: the model splits the whole unread content at once.
- A failed read other than a short one (drop/watcher.go:89-91), a failed seek, and the failure to close the file: reading the content is not modelled as fallible beyond the whole file being unavailable.
- Bytes versus characters: the file content and the log lines are `string`s. The tailer treats one character as one byte. The tokenizer treats one character as one decoded rune, so UTF-8 decoding and invalid encodings are not modelled.
- `time.Parse` of the log-time layout and `time.Now`: the former is an abstract partial function, the latter a parameter. Time differences are exact integers, without the saturation of `time.Sub`.
- DropParser.IsExpired and EventPoster.IgnoredAgainst compare whole nanoseconds against the window, not float minutes as the source does. Float rounding is not modelled.
- Reading the environment (`util/envar.go`): every setting is a field of `Envar.Settings`. "label" mode's required variable is a plain field, so its fatal exit when unset is not modelled.
- EventLocator.LocatePodInStore, EventLocator.FiledUnder: the pods filed under a key are a sequence. The informer keeps them in a set, so when several pods share an IP the order `ByIndex` lists them in, and so the pod `LocatePod` returns, is not fixed; the sequence stands for whichever order the index yields.
- The Kubernetes informer, list-watch and cache sync, and the object-type check of the indexer (`NewApiServerPodLocator`, `getPodLocator`, `PodLocator.Run`, the cast at event/locator.go:90-96): the index is a map from index name to key to pods.
- The kube client, the event recorder and broadcaster, and `reference.GetReference`. A submission fails only when the pod's object reference cannot be built (event/poster.go:144-147); `Env.referenceError` gives that error per pod.
- EventPoster.Poster.SubmitEvent: `recorder.Event` (event/poster.go:149) returns nothing and posts asynchronously, so whether the API server accepts the event is never seen by `handle` and never causes a retry. The model does not capture that acceptance; `referenceError` is an arbitrary function, so its failures over-approximate the source, and every proof holds for every such function.
- The real DNS resolver: a map from IP to either names or an error.
- EventPoster.Poster.HandleWithRetry: the exponential backoff's timing, randomisation and maximum elapsed time are not modelled. The retry budget of a drop is a given non-empty list of attempts, each with its own environment.
- EventPoster.Poster.Handle, EventPoster.Poster.Run: these, `Handled`, `Posted`, `Poster.Post`, `RunOutcome` and the lemmas about them read and write post times under the corrected (source IP, destination IP) pair key, not under the concatenated `SrcIP+DstIP` key of event/poster.go:117,130. With that key, a post for 1.1.1.1 to 12.2.2.2 makes the source ignore a fresh drop from 1.1.1.11 to 2.2.2.2 within the interval, which the model posts; the as-written key is modelled by `EventPoster.ShouldIgnoreAsWritten` and exhibited by `EventPoster.ConcatKeyConflatesPairs` (see Findings).
- EventPoster.Poster.Handle: `time.Now()` at the post-time update is the same `now` as in the expiry check, not a second reading of the clock.
- The Prometheus registry and HTTP handler (metrics/metrics.go): the counter is a ghost map from (source, destination) labels to counts.
- glog logging, main.go wiring and the systemd journal reader.

## Findings

| source | as written | input that shows it | evidently intended | confidence | as-written member | corrected member |
|---|---|---|---|---|---|---|
| event/poster.go:117,130 | post times are keyed by the source address and the destination address concatenated without a separator | a post for 1.1.1.1 to 12.2.2.2 has the key "1.1.1.112.2.2.2", so within the repeat interval a drop from 1.1.1.11 to 2.2.2.2 is ignored | one post-time entry per (source, destination) pair | not executed | EventPoster.ShouldIgnoreAsWritten, EventPoster.ConcatKeyConflatesPairs | EventPoster.ShouldIgnore, EventPoster.OtherPairsUnaffected |
