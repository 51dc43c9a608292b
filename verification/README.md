# Undertow: a verified model of its packet pipeline

Undertow reads packets, decodes them on a pool of workers and hands them to one aggregator, which keeps statistics,
runs detectors and publishes snapshots; a replay engine plays recorded packets back; and two parsers fingerprint TLS
ClientHello records. This project models these five cores in Dafny and proves what they keep true over every input,
every run and every interleaving. `dafny verify dfyconfig.toml` checks it.

## How it is organised

- **TLS fingerprints.** `Wire` (bytes, 16-bit words, GREASE), `Printing`, `Sorting`, `ClientHello` (what both parsers
  see of a record, and a serializer for an abstract hello), `JA3`, `JA4`; `Fingerprints` (round trips, agreement),
  `Canonicity` (when the order of the extensions shows), `Damage` (refused, cut and inconsistent records) and
  `TrailingBytes` (which payloads panic, and what memory after the record can do). Each parser is written out with its own guards, loops and offsets, and proved equal to
  specification functions about which the theorems are stated.
- **Statistics and detectors.** `Packets`, `Totals`, `Sequences`, `Ring`, `Anomaly` and `Baseline` (the classes and their
  laws), `Growth` (steady growth under the default constants), `StatsModel` (the aggregator's state as a value, and index agreement over runs), `Stats` (the classes with the
  source's maps of records and rings, refining that value), `Detections` (laws of the detectors over whole runs) and
  `Alerts` (the event log of every run, stated outright).
- **The pipeline.** `Pipeline`: capture, workers, closer and aggregator as one labelled step system. A run is any
  sequence of labels, so every interleaving, cancellation point and timer tick is covered.
- **Replay.** `Replay`: the engine as a class, and its playback loop as a step system among the commands.

A payload is a backing array `mem` and a length `n`, because a Go slice expression is checked against the capacity, not
the length: `Panicked` is the outcome when it leaves the array. Hash functions, the square root, the entropy of a name
and `DecodePacket` are parameters. Instants are integers in nanoseconds.

## Where the code and its own words disagree

The model follows the code in each case.

- The payload in both parser tests declares a 50-byte record but holds 47 bytes after the header, so both parsers reject
  it, while the tests expect a fingerprint (`Fingerprints.SyntheticTestPayloadRejected`).
- The replay test reads the output channel until it is closed, but the playback loop closes it only after cancellation
  (`Replay.RunIsSafe`).
- After the last packet has been taken the cursor is one past the end and `StepSec` indexes with it
  (`Replay.StepAfterTheEndCrashes`, `Replay.CrashExactly`).
- Trailing bytes matter exactly when an odd-length list ends where memory ends: the parser then panics without them and
  reads one of them otherwise (`TrailingBytes.Ja3PanicsExactly`, `TrailingBytes.Ja4PanicsExactly`,
  `TrailingBytes.Ja3TrailingBytesExactly`, `TrailingBytes.Ja4TrailingBytesExactly`). `TrailingBytes.OneByteGroupPanics`
  is a 59-byte record on which JA3 alone panics, and `TrailingBytes.NextByteShows` the same record with one byte more.
- The baseline readings are named per second, but `TickSecond` feeds it cumulative totals. That is why a host must have
  sent or received something since the last tick to alert (`Detections.IdleHostsStaySilent`), and why steady traffic,
  however heavy, raises nothing (`Detections.SteadyHostsStaySilent`). The ports reading is the constant 1, so the ports
  mean only fades toward 1 (`Detections.RecordsCountTicks`).
- A comment says a scan is more than N ports; the code alerts at N, and at one port for thresholds below one.
- The GREASE mask accepts all 256 values with both low nibbles equal to 0xA, more than section 2 of RFC 8701 reserves.
- JA4 hashes all extensions that are not GREASE, SNI and ALPN included, and although it sorts them their order can show:
  exactly when two extensions disagree about the protocol name, or two lists of signature algorithms do not commute
  (`Canonicity.CanonicalExactly`, `Canonicity.StringsCanonicalExactly`). Distinct types rule that out, and so do repeated
  ones of any other type.
- With no workers the pool closes its output at once and accepted packets are lost (`Pipeline.NoWorkersLosePackets`); the
  accounting of finished runs therefore asks for one worker.

## Model

| member | source | states |
|---|---|---|
| Wire.GreaseNibbles | internal/tls/ja3.go:28-31 | a value is filtered exactly when the low nibbles of both its bytes are 0xA |
| Wire.NonGreaseFilters | internal/tls/ja3.go:85-90 | filtering drops exactly those values and keeps the others in their places |
| Wire.InterpretedKindsAreNotGrease | internal/decode/ja4.go:139-174 | none of the extension types a parser looks into is filtered as GREASE |
| Wire.WordsRoundTrip | internal/tls/ja3.go:85-90 | an encoded list of 16-bit words is read back whatever follows it in memory |
| Wire.ReadWords | internal/decode/ja4.go:93-99 | the list loop fails exactly when a pair leaves the backing array, and otherwise keeps the words that are not GREASE, in order |
| Printing.DecReads | internal/tls/ja3.go:88 | a number printed in decimal has no leading zero and reads back as itself |
| Printing.DecimalExactly | internal/tls/ja3.go:88 | the printed text is the only numeral of the number: digits, no leading zero, its value |
| Printing.Hex4Reads | internal/decode/ja4.go:208 | a word is printed as four lower-case hexadecimal digits that read back as itself |
| Printing.HexExactly | internal/decode/ja4.go:208 | no other text is that |
| Printing.Count2Reads | internal/decode/ja4.go:196-202 | a count is printed as two digits, a zero in front below ten, that read back as the count capped at 99 |
| Printing.CountExactly | internal/decode/ja4.go:196-202 | no other text is that |
| Printing.JoinSplits | internal/tls/ja3.go:157-163 | splitting a joined list at the separator its items avoid gives the items back |
| Printing.DecListReads | internal/tls/ja3.go:157-163 | between the dashes are the numerals of the list in order, from which it reads back, the empty list included |
| Printing.HexListReads | internal/decode/ja4.go:206-210 | between the commas are the four hexadecimal digits of each word in order, from which the list reads back |
| Sorting.SortSlice | internal/aggregator/stats.go:285-287 | in-place sorting by a key: ascending, and a permutation |
| Sorting.SortUint16s | internal/decode/ja4.go:251-255 | the array becomes the unique ascending permutation of its contents |
| Sorting.SortedDependsOnContentsOnly | internal/decode/ja4.go:204-213 | the sorted list depends on the contents alone, not on their order |
| ClientHello.WalkRoundTrip | internal/tls/ja3.go:114-153 | walking encoded extensions yields each of them with its body, in order |
| ClientHello.FramingRoundTrip | internal/tls/ja3.go:36-153 | every hello that fits its length fields is framed back, whatever bytes follow the record |
| JA3.ReadCurves | internal/tls/ja3.go:129-140 | the groups of extension 10 without GREASE, or a slice out of range exactly when its list does not fit in memory |
| JA3.ReadPoints | internal/tls/ja3.go:142-150 | the point formats of extension 11 when their list fits the body |
| JA3.ReadExtension | internal/tls/ja3.go:114-152 | one turn of the walk adds what the entry holds to all three lists, and ends the walk exactly at a body cut short |
| JA3.WalkExtensions | internal/tls/ja3.go:100-154 | the loop terminates with the lists of all entries in wire order, or reports the slice out of range |
| JA3.ReadPrefix | internal/tls/ja3.go:36-112 | the checks and offsets from the record header to the extension block reject, panic or yield version, ciphers and block exactly as the framing of the record says |
| JA3.ReadFields | internal/tls/ja3.go:36-154 | prefix and walk together yield the fields of the framing, or its rejection or panic |
| JA3.ParseClientHello | internal/tls/ja3.go:35-163 | accepts, rejects or panics, and prints, as the fingerprint of the payload says |
| JA3.RawReads | internal/tls/ja3.go:156-163 | the raw string has five parts between commas: the numeral of the version and the dash-joined numerals of ciphers, extensions, groups and point formats, in this order and without leading zeros |
| JA3.RawFaithful | internal/tls/ja3.go:156-163 | two raw strings are equal exactly when the version and all four lists are |
| JA3.RawExample | internal/tls/ja3_test.go:34-36 | the raw string the test expects, of the fields it has in mind |
| JA3.RawOfLists | internal/tls/ja3.go:156-163 | the raw string of a hello with two ciphers, two extensions, a group and two point formats, character by character |
| JA4.ReadAlpn | internal/decode/ja4.go:144-158 | the first and last character of the first protocol, doubled when it has one, and no change when the list is malformed |
| JA4.ReadVersions | internal/decode/ja4.go:160-171 | whether the supported versions hold 0x0304, or a slice out of range exactly when the list does not fit in memory |
| JA4.ReadSigAlgs | internal/decode/ja4.go:173-184 | the signature algorithms without GREASE in order, or a slice out of range |
| JA4.ReadExtension | internal/decode/ja4.go:124-187 | one turn of the walk updates all running variables as the entry says, and ends the walk at a body cut short |
| JA4.WalkExtensions | internal/decode/ja4.go:109-188 | the loop terminates with the variables that all entries yield, or reports the slice out of range |
| JA4.ReadVersion | internal/decode/ja4.go:59-71 | the switch yields the name of the version in the handshake |
| JA4.ReadPrefix | internal/decode/ja4.go:40-122 | this parser's own checks and its offsets into the handshake reject, panic or yield version name, ciphers and block exactly as the framing of the record says |
| JA4.ReadFields | internal/decode/ja4.go:40-188 | prefix and walk together yield the fields of the framing, or its rejection or panic |
| JA4.Format | internal/decode/ja4.go:190-227 | sorting in place, printing and hashing give the specified string |
| JA4.CalculateJA4 | internal/decode/ja4.go:39-227 | accepts, rejects or panics, and prints, as the fields of the payload say |
| JA4.TruncatedSHA256 | internal/decode/ja4.go:257-263 | twelve zeros for the empty text, otherwise the first twelve characters of the digest |
| JA4.RawIgnoresOrder | internal/decode/ja4.go:204-225 | permuting ciphers and extensions leaves the string unchanged |
| JA4.VersionNames | internal/decode/ja4.go:59-71 | the named versions are TLS 1.0 to 1.3, one code apart, and any other prints as 1.2 |
| JA4.CipherTextReads | internal/decode/ja4.go:204-210 | the hashed cipher text is the sorted ciphers as hexadecimal words between commas |
| JA4.CipherTextFaithful | internal/decode/ja4.go:204-210 | the hashed cipher text determines the ciphers up to order, and only that |
| JA4.ExtensionTextReads | internal/decode/ja4.go:212-225 | the hashed extension text is the sorted extensions, and if there are signature algorithms an underscore and these in order |
| JA4.ExtensionTextFaithful | internal/decode/ja4.go:212-225 | the hashed extension text determines the extensions up to order and the signature algorithms in order, empty lists included |
| JA4.HeadParts | internal/decode/ja4.go:190-202 | ten characters: protocol, version, d or i, both counts as two digits capped at 99, protocol name |
| JA4.HeadExample | internal/decode/ja4.go:190-202 | the heads of two hellos, character by character, with counts below ten and above 99 |
| JA4.RawParts | internal/decode/ja4.go:190-227 | the string has 36 characters and shows head and both digests at fixed places |
| JA4.RawFaithful | internal/decode/ja4.go:190-227 | where the hash does not collide on the texts at hand, two strings are equal exactly when version, server name flag, protocol name and signature algorithms are, and ciphers and extensions up to order |
| JA4.PayloadsFaithful | internal/decode/ja4.go:39-227 | the same for any two payloads the parser accepts, with nothing asked of their fields |
| Fingerprints.Ja3RoundTrip | internal/tls/ja3.go:35-163 | parsing any serialized hello recovers version, ciphers, extensions, groups and point formats, filtered and in order |
| Fingerprints.Ja4RoundTrip | internal/decode/ja4.go:39-202 | parsing any serialized hello recovers SNI flag, ALPN characters, version, lists and signature algorithms |
| Canonicity.CanonicalExactly | internal/decode/ja4.go:93-188 | every order of a hello's extensions and ciphers, with any GREASE between, gives the same fields exactly when all extensions that name a protocol show the same two characters and any two lists of signature algorithms commute |
| Canonicity.OrderFreeStrings | internal/decode/ja4.go:93-227 | under that condition all those records print the same JA4 string, whatever their random, session, compression list and trailing bytes |
| Canonicity.OrderShowsInString | internal/decode/ja4.go:144-184 | without it some order of the same extensions prints another string, where the hash tells the texts of the orders apart |
| Canonicity.StringsCanonicalExactly | internal/decode/ja4.go:39-227 | so the string of a hello is the same for all its orders exactly under that condition |
| Canonicity.Ja4Canonical | internal/decode/ja4.go:93-227 | with distinct extension types, permuting ciphers or extensions and inserting GREASE anywhere leaves the JA4 string unchanged |
| Canonicity.RepeatedAlpnShowsOrder | internal/decode/ja4.go:144-158 | exchanging two ALPN extensions that name different first characters changes the string of the parsed record, for every hash |
| Canonicity.LastProtocolShows | internal/decode/ja4.go:113-158 | the protocol shown is that of the last extension that names one, and 00 without any |
| Canonicity.RepeatedOthersAreOrderFree | internal/decode/ja4.go:139-184 | repeating any type but ALPN and signature algorithms keeps the condition |
| Fingerprints.Ja3IgnoresGrease | internal/tls/ja3.go:84-163 | inserting GREASE ciphers or extensions anywhere leaves the JA3 string unchanged |
| Fingerprints.ParsersAgree | internal/decode/ja4.go:40-213 | every payload is rejected by both parsers or by neither, panics included, and when both accept it JA4 sorts exactly the ciphers and extensions JA3 keeps in order |
| Fingerprints.FingerprintPayload | internal/decode/decode.go:125-145 | a decoded payload gets both fingerprints or none, and decoding panics exactly on an odd list that ends memory: the ciphers, or in the last extension the groups, versions or signature algorithms |
| Fingerprints.SyntheticTestPayloadRejected | internal/tls/ja3_test.go:7-28 | a 52-byte payload that declares a 50-byte record is rejected by both parsers |
| Damage.RefusedExactly | internal/tls/ja3.go:36-96 | both parsers refuse exactly the payloads that are no such record, are shorter than they declare, or end before session id, cipher list or compression length do |
| Damage.CutRoundTrip | internal/decode/ja4.go:115-188 | a record whose extension block is cut inside an extension, declares more than the record holds or is followed by surplus bytes gives the fingerprint of its whole extensions plus the type of the one cut short, whatever its handshake length |
| Damage.LostRoundTrip | internal/decode/ja4.go:102-117 | a record that ends within its compression list or before the length of its block gives the fingerprint of a hello without extensions |
| Damage.WordListsRead | internal/tls/ja3.go:129-140 | groups and signature algorithms are read exactly when their list fits the body, bytes left over and odd lengths included, and from no other type |
| Damage.VersionsRead | internal/decode/ja4.go:160-171 | the same for supported versions |
| Damage.PointsRead | internal/tls/ja3.go:142-150 | the same for point formats |
| Damage.ProtocolRead | internal/decode/ja4.go:144-158 | the first protocol is read exactly when it and the whole list fit the body and it is not empty |
| Damage.ShortBodies | internal/decode/ja4.go:139-184 | a server name counts whatever its body, and a body too short for a length contributes nothing |
| TrailingBytes.Ja3IgnoresTrailingBytes | internal/tls/ja3.go:45-50 | when the record alone does not panic, bytes after it change nothing in JA3 |
| TrailingBytes.Ja4IgnoresTrailingBytes | internal/decode/ja4.go:49-54 | the same for JA4 |
| TrailingBytes.SpareByteNoPanic | internal/tls/ja3.go:85-90 | one byte of memory after the record rules out a panic in both parsers |
| TrailingBytes.Ja3PanicsExactly | internal/tls/ja3.go:76-140 | JA3 panics exactly when an odd cipher list, or an odd group list in the last extension, ends where memory ends |
| TrailingBytes.Ja4PanicsExactly | internal/decode/ja4.go:84-184 | JA4 panics exactly when an odd cipher list, or an odd list of versions or signature algorithms in the last extension, ends where memory ends |
| TrailingBytes.PanicsApart | internal/decode/decode.go:125-145 | both panic exactly on the cipher list, each alone exactly on its own list in the last extension |
| TrailingBytes.Ja3TrailingBytesExactly | internal/tls/ja3.go:45-154 | trailing bytes never matter to JA3 exactly when no odd cipher list, and no odd group list in the last extension, ends the record |
| TrailingBytes.Ja4TrailingBytesExactly | internal/decode/ja4.go:49-188 | the same for JA4, with the versions and the signature algorithms |
| TrailingBytes.OneByteCipherPanics | internal/tls/ja3.go:84-90 | a record whose cipher list is one byte makes both parsers panic |
| TrailingBytes.OneByteGroupPanics | internal/tls/ja3.go:129-140 | a record that ends in a group list of one byte makes JA3 panic, and JA4 not |
| TrailingBytes.NextByteShows | internal/tls/ja3.go:129-140 | with one byte after that record JA3 prints it as the low byte of a group |
| Ring.RingBuffer.constructor | internal/aggregator/stats.go:54-60 | a new ring is empty |
| Ring.RingBuffer.Push | internal/aggregator/stats.go:62-72 | the contents become the last items of the old contents and the new one, nothing at capacity 0 |
| Ring.RingBuffer.Slice | internal/aggregator/stats.go:74-88 | the contents, oldest first, in a new array |
| Ring.LastIsEnd | internal/aggregator/stats.go:62-72 | what a ring keeps is the end of the history, as long as its capacity allows |
| Ring.LastOfPush | internal/aggregator/stats.go:62-72 | keeping the last items push by push is keeping the last items of the whole history |
| Anomaly.DropExpired | internal/anomaly/detect.go:90-97 | the compaction leaves at the front of the array exactly the entries after the window start, in order |
| Anomaly.Append | internal/anomaly/detect.go:98 | the kept entries and the new one, in the same array or in a new one |
| Anomaly.Detector.SlideHost | internal/anomaly/detect.go:88-98 | the host's slice holds its window, in its own array or a new one, and every other host's slice holds what it held |
| Anomaly.Detector.Track | internal/anomaly/detect.go:88-99 | the slice is stored, no array belongs to two hosts, and all other histories are unchanged |
| Anomaly.DistinctPorts | internal/anomaly/detect.go:101-105 | the set of ports in the window |
| Anomaly.WindowIsSurviving | internal/anomaly/detect.go:86-118 | the stored window is, in order, the checks since the last alert that every later check's window contains, timestamps out of order included |
| Anomaly.SurvivingInOrder | internal/anomaly/detect.go:86-99 | with non-decreasing timestamps that is the plain filter on the latest window |
| Anomaly.ScanLaws | internal/anomaly/detect.go:98-118 | fewer distinct ports than an alert needs are stored, each alert reports exactly that many and uses up that many checks |
| Anomaly.AlertsExactly | internal/anomaly/detect.go:85-118 | a check raises an alert, and resets the window, exactly when the checks since the last alert that every later window contains name at least the threshold of ports |
| Anomaly.Detector.constructor | internal/anomaly/detect.go:43-50 | nothing is tracked or flagged |
| Anomaly.Detector.CheckPortScan | internal/anomaly/detect.go:85-119 | the host's window and alert are those of the specification, and no other host's window changes |
| Anomaly.Detector.CheckLargeTransfer | internal/anomaly/detect.go:121-134 | an event and a flag exactly for an unflagged flow at the threshold; it carries the packet's time and source, the flow and its bytes |
| Anomaly.Detector.CheckSuspiciousDns | internal/anomaly/detect.go:136-171 | the name without its final dot is reported with every reason there is: entropy above the threshold, more than 50 characters, five dots or more |
| Anomaly.Detector.Check | internal/anomaly/detect.go:52-83 | the three checks in order, none without a source address |
| Baseline.NoRepeatedAlert | internal/baseline/baseline.go:94-130 | with SigmaK squared times Alpha at least 1 - Alpha, a reading that does not exceed the previous one raises no alert, whatever mean and variance were |
| Baseline.RepeatExactly | internal/baseline/baseline.go:94-130 | that guarantee holds for all means, variances and readings exactly under this condition |
| Baseline.DefaultsNeverRepeat | internal/baseline/baseline.go:39-44 | the defaults meet it, with equality |
| Baseline.VarianceLaw | internal/baseline/baseline.go:122-130 | from a fresh host the mean is the moving average of the readings and the variance that of their squares minus its square |
| Baseline.SeriesMoments | internal/baseline/baseline.go:122-130 | the same from any loaded mean and variance |
| Baseline.ExceedsExactly | internal/baseline/baseline.go:94-115 | the test passes exactly when the variance exceeds the square of the floor and the reading is above the mean by more than SigmaK deviations, stated with no root |
| Baseline.SeriesBounds | internal/baseline/baseline.go:122-130 | readings in [lo, hi] keep the mean in it and the variance between 0 and (hi - mean)(mean - lo) |
| Baseline.ConstantNeverAlerts | internal/baseline/baseline.go:94-130 | after constant readings no next reading raises an alert |
| Baseline.Deviates | internal/baseline/baseline.go:94-108 | the test of one series, a negative variance never passing it |
| Baseline.HostMetrics.constructor | internal/baseline/baseline.go:80-86 | a new record starts at the readings with variance 0 |
| Baseline.HostMetrics.Absorb | internal/baseline/baseline.go:118-134 | both series, the ports mean and the sample count are updated as specified |
| Growth.SteadySeries | internal/baseline/baseline.go:122-130 | after any number of readings that grow by the same amount, gap and variance are fixed multiples of that amount and of its square |
| Growth.SteadyGrowthExactly | internal/baseline/baseline.go:94-130 | under steady growth and the default constants the next reading exceeds the test exactly after one to four readings, if the growth is positive and the deviation above its floor |
| Baseline.Manager.constructor | internal/baseline/baseline.go:56-62 | no hosts |
| Baseline.Manager.Record | internal/baseline/baseline.go:78-88 | the stored record, or a new one at the readings |
| Baseline.Manager.Evaluate | internal/baseline/baseline.go:90-116 | the events of the record, none before warm-up |
| Baseline.Manager.ObserveHost | internal/baseline/baseline.go:71-134 | the new state of all hosts and the events are those of the specification, the alerts coming before the reading is absorbed |
| StatsModel.IndexesAreFolds | internal/aggregator/stats.go:149-219 | in every reachable state counters, indexes and detector are functions of the packets alone, the recent ring holds the last packets and the anomaly ring the last events |
| StatsModel.CountsAgree | internal/aggregator/stats.go:160-161 | protocol counts are the packets per protocol and sum to the number of packets |
| StatsModel.TalkersAgree | internal/aggregator/stats.go:163-186 | every talker's counters are the sums over its packets, and a host is a talker exactly when a packet touched it |
| StatsModel.TalkerTotalsAgree | internal/aggregator/stats.go:163-186 | all sent bytes are those of packets with a source, all received bytes those with a destination |
| StatsModel.FlowsAgree | internal/aggregator/stats.go:188-207 | every flow's counters are the sums over the packets with its key |
| StatsModel.LastSeenAgrees | internal/aggregator/stats.go:171-205 | talkers and flows were last seen with their last packet to arrive, whatever the timestamps before it |
| StatsModel.SentBytesAreFlowBytes | internal/aggregator/stats.go:163-207 | a talker's sent bytes are those of its outgoing flows plus those it sent to no address |
| StatsModel.ThroughputAgrees | internal/aggregator/stats.go:226-227 | rolled seconds and the current one sum to the total, and the visible history to that minus the evicted seconds |
| Detections.HostsScanApart | internal/anomaly/detect.go:61-66 | each host's window and alerts depend on its own checks only |
| Detections.ScanAlertRate | internal/anomaly/detect.go:86-119 | over any packets every alert reports exactly the threshold, and alerts times threshold never exceed the host's checks |
| Detections.WindowRefines | internal/anomaly/detect.go:86-99 | over any packets a host's stored window is what survives of its checks since the last alert |
| Detections.TransferAtCrossing | internal/anomaly/detect.go:121-134 | a flow is flagged exactly when it has reached the threshold, and its event comes with the crossing packet |
| Detections.TransferExactlyOnce | internal/anomaly/detect.go:121-134 | a flow raises one event if it ever reaches the threshold and none otherwise |
| Detections.RunKeepsNonNegative | internal/baseline/baseline.go:122-130 | no run of packets and ticks makes a variance negative |
| Detections.ObserveAllAt | internal/aggregator/stats.go:230-239 | whatever order a tick visits the hosts in, each is observed once on its own record |
| Detections.AlertsNeedRise | internal/aggregator/stats.go:223-240 | an event at a tick needs the host's total of the tick before to be strictly exceeded |
| Detections.IdleHostsStaySilent | internal/aggregator/stats.go:223-240 | over every run a host touched by no packet between two ticks raises no event at the second |
| Detections.DefaultsKeepIdleHostsSilent | internal/baseline/baseline.go:39-44 | in particular at the default constants |
| Detections.HostsObservedApart | internal/aggregator/stats.go:230-239 | over every run a host's record is what its own observations make of the loaded one, whatever other hosts do |
| Detections.RecordIsSeries | internal/baseline/baseline.go:78-130 | a host that was not loaded keeps mean and variance of exactly the totals the ticks have seen |
| Detections.RecordsCountTicks | internal/aggregator/stats.go:230-234 | a record exists for exactly the hosts loaded or observed, its sample count has grown by the ticks that observed it, and its ports mean has faded toward 1 by that many steps |
| Detections.NoAlertBeforeSamples | internal/baseline/baseline.go:90-93 | a host alerts only after more than ten samples, the loaded ones and earlier ticks together |
| Detections.SteadyHostsStaySilent | internal/aggregator/stats.go:223-240 | over every run, at the default smoothing and multiplier, a host that was not loaded and whose total has changed by the same amount at every tick raises no event on it |
| Detections.RunAlerts | internal/aggregator/stats.go:212-218 | the event log of every run holds one transfer per flow that reached the threshold, and scan alerts bounded by the checks |
| Alerts.DnsExactly | internal/anomaly/detect.go:136-171 | SUSPICIOUS_DNS is raised exactly for a query whose name has high entropy, more than 50 characters or five dots, with all of these that hold |
| Alerts.AnswerExactly | internal/anomaly/detect.go:53-83 | over any packets the detector answers the last one with exactly a scan alert, a transfer and a suspicious name, each under its own condition on the packets and with the packet's time and source |
| Alerts.ReadingsAgree | internal/aggregator/stats.go:231-233 | the readings of a host are the packets and the bytes sent and received so far |
| Alerts.TotalsAreSeen | internal/aggregator/stats.go:223-240 | over every run the readings a host was observed with are those totals at the ticks that visited it |
| Alerts.DeviationsExactly | internal/baseline/baseline.go:90-116 | at a tick of any run BEHAVIORAL_DEVIATION on packets or on bytes is raised for a host exactly when it is visited, has more than ten samples and is warmed up, and that total lies above the moving average of the totals before it by more than SigmaK deviations, the deviation being above 1 or 1024 |
| Alerts.TickExactly | internal/aggregator/stats.go:229-239 | a tick raises exactly the deviations of the hosts it visits, in its order |
| Alerts.LogExactly | internal/aggregator/stats.go:212-240 | the event log of every run is exactly the answers to its packets and ticks, one after the other |
| Alerts.LogTransfers | internal/anomaly/detect.go:121-134 | every LARGE_TRANSFER in the log of a run carries the time, source and flow of one of its packets and the bytes the flow had carried by then |
| Stats.TalkerStat.Send | internal/aggregator/stats.go:171-173 | packets, bytes and time of the sending side, nothing else |
| Stats.TalkerStat.Receive | internal/aggregator/stats.go:183-185 | packets, bytes and time of the receiving side, nothing else |
| Stats.FlowStat.Send | internal/aggregator/stats.go:203-205 | packets, bytes and time of the flow |
| Stats.TalkerTable.Find | internal/aggregator/stats.go:165-170 | the record of the address, created at zero, other records untouched |
| Stats.TalkerTable.Credit | internal/aggregator/stats.go:163-186 | both directions of a packet, also when source and destination are one record |
| Stats.FlowTable.Carry | internal/aggregator/stats.go:188-207 | the flow of the packet updated and shown to the detector, other flows untouched |
| Stats.Indexes.Update | internal/aggregator/stats.go:149-207 | counters and all indexes after a packet |
| Stats.Indexes.Roll | internal/aggregator/stats.go:226-227 | the bytes of the second just finished, and the next one starts at zero |
| Stats.Rings.AddAnomalies | internal/aggregator/stats.go:214-217 | the anomaly ring holds the last of its old contents and the events, other rings untouched |
| Stats.CountTable.Increment | internal/aggregator/stats.go:160-161 | the protocol's count is one more, the others stay |
| Stats.CountTable.Copy | internal/aggregator/stats.go:273-277 | the same counts in a new table |
| Stats.SortTalkers | internal/aggregator/stats.go:280-287 | every talker once, by descending total, in a new array |
| Stats.FlowTable.Rows | internal/aggregator/stats.go:289-293 | every flow once, as a copy of its record |
| Stats.Indexes.Copies | internal/aggregator/stats.go:273-293 | counts, talkers and flows of the state, all in new memory |
| Stats.StatsManager.constructor | internal/aggregator/stats.go:125-140 | components that share no memory make a valid manager with nothing published |
| Stats.StatsManager.Absorb | internal/aggregator/stats.go:147-219 | the whole state becomes that of the specification, touching only the manager's own memory |
| Stats.StatsManager.AddPacket | internal/aggregator/stats.go:147-219 | the same, and the published snapshot keeps its contents and shares no memory with the new state |
| Stats.StatsManager.TickSecond | internal/aggregator/stats.go:221-240 | the same for a tick, every talker observed once |
| Stats.StatsManager.EvaluateBaselines | internal/aggregator/stats.go:229-239 | observing every talker once in the map's order, and recording all events |
| Stats.StatsManager.TakeSnapshot | internal/aggregator/stats.go:264-308 | a snapshot that shows exactly the state, all of it in new memory |
| Stats.StatsManager.PublishSnapshot | internal/aggregator/stats.go:263-311 | the published snapshot shows exactly the state, shares no memory with it, and the state stays |
| Stats.StatsManager.GetSnapshot | internal/aggregator/stats.go:313-320 | the latest snapshot, or an empty one in new memory |
| Stats.NewManager | internal/aggregator/stats.go:118-140 | the initial state in new memory |
| Stats.NewStatsManager | internal/aggregator/stats.go:118-145 | the initial state, and a snapshot of it already published |
| Stats.Perform | internal/aggregator/stats.go:147-311 | a packet, a tick or a publication does what the specification says, and any snapshot apart from the state keeps its contents and stays apart |
| Stats.PerformAll | internal/aggregator/stats.go:147-311 | over any sequence of calls the manager runs the specification on exactly the packets added, and a snapshot taken before still holds what it held |
| Pipeline.NeverPanics | internal/decode/pool.go:28-59 | in no interleaving is a closed channel sent on or closed twice |
| Pipeline.PossibleExactly | internal/decode/pool.go:35-58 | in every reachable state each step is possible exactly when its channel or the context is ready |
| Pipeline.CaptureNeverBlocks | internal/capture/capture.go:61-68 | in every reachable state in which capture has a packet it can go on; a full channel drops exactly that packet, and otherwise it is queued last |
| Pipeline.FloodDrops | internal/capture/capture.go:48-68 | packets read while no worker takes any fill the channel with the first of them, and the rest are dropped in order |
| Pipeline.OneTooMany | internal/capture/capture.go:61-68 | one packet more than the channel holds costs exactly one drop |
| Pipeline.CancelledWorkersLeave | internal/decode/pool.go:36-49 | after cancellation every worker can leave at its next step, throwing away the packet it holds |
| Pipeline.RunConserves | internal/capture/capture.go:48-69 | in every reachable state each packet read is in hand, dropped or accepted, and each accepted one queued, held, decoded and queued, aggregated or discarded, as multisets |
| Pipeline.SnapshotsNeverOvercount | internal/aggregator/aggregator.go:51-56 | no snapshot of any run counts more packets than were read |
| Pipeline.SnapshotsGrow | internal/aggregator/aggregator.go:51-56 | later snapshots never count less |
| Pipeline.TimersPublish | internal/aggregator/aggregator.go:51-56 | while the aggregator loops a second reaches its manager, and either timer publishes the totals of all aggregated packets and the drops so far; while it drains neither runs |
| Pipeline.ReturnPublishes | internal/aggregator/aggregator.go:33-48 | the aggregator returns exactly once its input is closed and empty, and publishes those totals |
| Pipeline.NoDropsWithinCapacity | internal/capture/capture.go:61-68 | nothing is dropped while no more packets have been read than the channel holds |
| Pipeline.FinishedRunAccounts | internal/aggregator/aggregator.go:44-48 | an uncancelled finished run with a worker reports every packet read, as aggregated or dropped, and exactly the accepted bytes |
| Pipeline.ReturnedRunAccounts | internal/aggregator/aggregator.go:35-48 | cancelled or not, the last snapshot misses of the accepted packets exactly those left in the input or discarded |
| Pipeline.NoWorkersLosePackets | internal/decode/pool.go:54-58 | without workers an accepted packet is in no snapshot |
| Pipeline.StepsDecrease | internal/decode/pool.go:35-58 | once capture has exited every step but a timer decreases queued and held packets and live goroutines, weighted |
| Pipeline.NotStuck | internal/aggregator/aggregator.go:33-57 | some step other than a timer is possible until the aggregator has returned |
| Pipeline.PipelineFinishes | internal/aggregator/aggregator.go:33-57 | from every such state at most that many steps lead to the return |
| Pipeline.RunsFinish | internal/aggregator/aggregator.go:28-57 | from every reachable state, whatever capture is doing, the pipeline can end with no cancellation and no timer |
| Pipeline.RunsAreBounded | internal/decode/pool.go:35-58 | the timers aside no run from there is longer |
| Pipeline.OneWorkerKeepsOrder | internal/decode/pool.go:35-49 | with one worker the aggregator sees a prefix of the accepted packets, in order |
| Pipeline.TwoWorkersReorder | internal/decode/pool.go:31-52 | with two workers the second packet may overtake the first |
| Replay.SeekLands | internal/replay/replay.go:146-155 | a step forward lands on the first packet at or after its target or the last one, a step back on the latest at or before it or the first, and nowhere else |
| Replay.ThereAndBack | internal/replay/replay.go:146-155 | n seconds forward and back end between the two positions, or at or before the first when clamped; and when exactly at the first |
| Replay.BackAndThere | internal/replay/replay.go:146-155 | the same for back and forward |
| Replay.DisorderOvershoots | internal/replay/replay.go:146-155 | in a recording out of order the way back can stop past the start |
| Replay.FiveCycles | internal/replay/replay.go:118-135 | a press doubles the speed, from 8 back to 0.5, and five restore it exactly when it is one of the five on the dial |
| Replay.Delay | internal/replay/replay.go:215-222 | every pause is between zero and two seconds |
| Replay.DelayWithinGap | internal/replay/replay.go:215-222 | the pause is the gap divided by the speed, rounded down, unless capped |
| Replay.DelayWaits | internal/replay/replay.go:214-222 | in terms of the gap alone, and nothing before an earlier packet |
| Replay.PlaybackTime | internal/replay/replay.go:212-224 | playing a recording pauses at most its length over the speed, and at most two seconds a packet |
| Replay.ApplyLaws | internal/replay/replay.go:101-172 | a command panics exactly when it steps from past the end; otherwise cursor and speed stay in range and only seeks move the cursor |
| Replay.CommandMeans | internal/replay/replay.go:101-172 | each command does to the deck what it means: the pause flag flips, a positive speed is stored, the dial turns, a step in seconds lands where its target time says, a jump goes to an end, and nothing else changes |
| Replay.DoMeans | internal/replay/replay.go:101-172 | the same in a run, where a command leaves the loop alone |
| Replay.ReplayEngine.constructor | internal/replay/replay.go:63-72 | starts at the first packet, playing, at speed 1 |
| Replay.NewReplayEngine | internal/replay/replay.go:57-74 | an empty recording is refused |
| Replay.ReplayEngine.Status | internal/replay/replay.go:77-99 | the fields, and the time of the packet at the cursor or of the last one, within the recording |
| Replay.ReplayEngine.TogglePause | internal/replay/replay.go:101-107 | the pause flag flips and nothing else changes |
| Replay.ReplayEngine.SetSpeed | internal/replay/replay.go:109-116 | only a positive speed is taken |
| Replay.ReplayEngine.CycleSpeed | internal/replay/replay.go:118-135 | the next speed on the dial, or 1 |
| Replay.ReplayEngine.StepSec | internal/replay/replay.go:137-156 | forward, the cursor lands on the first packet at or after its time plus the seconds, or the last; otherwise on the latest at or before it, or the first; the index is out of range exactly past the end |
| Replay.ReplayEngine.JumpStart | internal/replay/replay.go:158-163 | the first packet |
| Replay.ReplayEngine.JumpEnd | internal/replay/replay.go:165-172 | the last packet |
| Replay.ReplayEngine.TakeNext | internal/replay/replay.go:185-203 | nothing when paused or finished, else the packet at the cursor, which moves by one |
| Replay.ReplayEngine.Pace | internal/replay/replay.go:212-224 | the sleep after a packet, zero after the last |
| Replay.RunIsSafe | internal/replay/replay.go:175-226 | in every interleaving cursor, speed and sleeps stay in range, and the channel is closed only after a cancellation |
| Replay.HappensExactly | internal/replay/replay.go:175-226 | in every reachable state exactly the events the loop's position and the context allow can happen |
| Replay.CancelledLoopStops | internal/replay/replay.go:178-210 | once cancelled the loop stops at its next check or blocked send, and closes the channel |
| Replay.LoopPaces | internal/replay/replay.go:185-225 | the loop sends the packet at the cursor and sleeps for the gap to the next at the speed at which it was taken, not at all after the last |
| Replay.PausedTakesNothing | internal/replay/replay.go:192-196 | while playback is paused no packet is taken, whatever else happens |
| Replay.PlaysAPrefix | internal/replay/replay.go:178-210 | without seeks the packets sent are a prefix of the recording, each once and in order, whatever is paused or sped up |
| Replay.PlaysSegments | internal/replay/replay.go:178-210 | with seeks they are a concatenation of stretches of the recording, at most one more than the seeks |
| Replay.PlaysToTheEnd | internal/replay/replay.go:178-225 | left alone and unpaused, the loop plays the rest in order, four steps a packet |
| Replay.StepAfterTheEndCrashes | internal/replay/replay.go:146-202 | every recording can be played to its end with the channel still open, and a step from there is out of range |
| Replay.CrashExactly | internal/replay/replay.go:146-202 | a run crashes exactly by a step in seconds with the cursor past the last packet |

## Left out

- JA3.ParseClientHello: returns the raw string only; the MD5 digest and the table of client labels are not part of this model.
- JA4.CalculateJA4: returns the fingerprint string only; the embedded database behind its label and malware flag is not part of this model. Text is a sequence of code points, so a byte above 127 in an ALPN name is one character.
- JA4.RawFaithful: SHA-256 is any function to 64 characters, so equality of digests is asked to mean equality of the two texts at hand.
- Sorting.SortSlice: is an insertion sort, since the algorithm behind the library's sort is not part of the repository; only order and permutation are used.
- Baseline.NoRepeatedAlert: real numbers are exact and the square root is a non-negative root; floating-point rounding is not modelled.
- Baseline.Manager.constructor: loading and saving the baseline file is left out; the run theorems start from any loaded hosts with non-negative variances.
- Detections.SteadyHostsStaySilent: of hosts that were not loaded; a loaded record can hold any mean and variance.
- Canonicity.OrderShowsInString: asks that the truncated digests of the orders of this one hello tell their texts apart; a string shorter than what it stands for cannot do without.
- Detections.IdleHostsStaySilent: holds for Alpha in [0, 1] and a SigmaK large enough for it, the defaults included, and for readings without rounding.
- Stats.StatsManager.AddPacket: counters are unbounded where the source's 64-bit ones wrap around; packet lengths are not negative.
- Stats.StatsManager.PublishSnapshot: the atomic pointer is a field and the drop counter a parameter; the story tracker the snapshot shares by pointer and the webhook sender are left out. The start time is the configuration's. Readers are taken not to write to a snapshot.
- Stats.NewStatsManager: starts without the hosts of a saved baseline file; the run theorems start from any loaded hosts.
- Anomaly.Detector.Check: the Shannon entropy is an arbitrary function of the name, and a name is as long as it has characters. Event texts are reduced to the numbers that vary: ports, bytes and the reasons of a suspicious name; those of deviations are left out. The transfer threshold is the 64-bit product, wrap-around included.
- Anomaly.Append: a full array grows to any larger one, since the growth policy of the runtime is not part of the repository.
- Replay.NewReplayEngine: gets the recording; the error of opening and reading the file is left out.
- Pipeline.NeverPanics: goroutines, channels, the wait group and the closer are steps on values; `DecodePacket` is an arbitrary total function, the recorder is left out, and a tick may observe hosts in any order.
- Pipeline.NotStuck: channel buffers hold at least one item; unbuffered channels are not modelled.
- Replay.RunIsSafe: sending completes at any later step instead of waiting for a reader, and the short sleeps while paused or finished are idle steps.
- Replay.Delay: durations are unbounded integers, so overflow of `time.Duration` and of its conversion from a float is not modelled.
- Reading pcap files, packet decoding, process lookup, filters, threat feeds, topology, reports, the terminal interface and the remote API: input, output and rendering with no state to keep.
- Host stories, session diffs and entropy: text formatting and library functions that would only add easy members.
