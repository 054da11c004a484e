# Verified model of a GPS tracking backend

This project models, in Dafny, the algorithmic and protocol cores of a NestJS backend that receives positions from
vehicle trackers over TCP, detects trips, stops, alerts and geofence crossings, looks up addresses, and handles logins
and device subscriptions. Database collections and in-memory maps are sequences and maps; emitted events and writes are
a trace in the state. Nothing here was executed; every statement is checked by the Dafny verifier.

How the files hang together:

| files | part of the backend |
|---|---|
| `Segmentation`, `TripSegments`, `Trips`, `TripDistance`, `TripFacts`, `TripReadings` | batch trip detection: the one segmentation of a track, and what the stored trips mean |
| `LiveTrips`, `LiveSimulation`, `LiveInStep`, `LiveEqualsBatch`, `LiveFacts` | online trip detection over three maps, as a simulation of the batch rule, and exactly when the two keep step |
| `Polynomials`, `Crc` | table-driven CRC against schoolbook division of polynomials over two elements |
| `Gt06`, `Gt06Theorems`, `Gt06Login` | the GT06 framer as a stream homomorphism, round trips, login and acknowledgement packets |
| `TcpStream`, `TcpBinary`, `TcpText`, `TcpStars`, `TcpTextTheorem`, `TcpTextCases` | reassembly of one socket's stream, binary and text |
| `TcpRegistry` | the two maps between sockets and devices |
| `Geocoder`, `GeocoderProtocol`, `GeocoderCache` | cache, single flight, queue and rate limiter of reverse geocoding |
| `Sessions`, `SessionRecords`, `SessionRuns`, `LatestSession`, `SessionEnds` | session versions and lineage; stored refresh tokens, runs that go wrong, whose session the live one is, and how sessions end |
| `JwtGuard`, `GuardedRefresh` | the guard's shared refresh, alone and in front of the sessions |
| `Months`, `Coupons`, `Ledger`, `LedgerTheorems`, `LedgerEffects`, `CouponLoss`, `CouponRace` | end dates, coupon counting, subscriptions and payment records, and what a failed call costs |
| `Alerts`, `Polygons`, `Geofences` | engine and overspeed alerts, ray casting, enter and exit alerts |
| `Stops`, `Reports` | stops, idle time and engine hours |

Two shapes recur. Code that updates fields is a class whose methods are proved to make the step of a specification on
values, so that theorems can be stated about the specification. Code with awaits is a step system: each stretch between
two awaits is one event, and theorems hold for every interleaving (`IsRun`, `Run`, `EveryRun`).

## Where the code departs from what it says

Each of these is a theorem about the code as it stands, with the exact condition where one is named.

- A GT06 short frame is sliced one byte early: `Gt06Theorems.ShortIsMisread`, and `ShortRoundTripExactly` says which
  packets survive; of logins, exactly those with eight bytes of data are lost (`Gt06Login.ShortLoginExactly`). The
  acknowledgement that the same service builds has the layout it fails to read (`AckIsMisread`).
- Batch and online detection treat a speed of exactly 2, a stop with the ignition off and a stop right after the
  opening point differently (`LiveEqualsBatch.DisagreeOn...`). They have the same trip open and complete the same
  buffers throughout a stream exactly when every input is in step (`LiveInStep.SameTraceExactly`).
- HQ packets survive reassembly exactly when no delivery without a complete packet leaves a long or `;`-terminated
  tail, and none begins with a line ending that carries a packet (`TcpTextTheorem.SpacedHqExactly`); so a line ending
  that TCP cuts in two costs the packet behind it (`TcpTextCases.CutLineEndingLosesPacket`).
- A GT06 frame of more than 10241 bytes is lost when it is cut behind them (`TcpBinary.LongerFrameIsLost`).
- Online, a trip that last moved at time 0 is stuck until the device moves again (`LiveFacts.ZeroTimeStalls`).
- A device that reconnects before its old socket closes goes offline: `TcpRegistry.OverlappingReconnectGoesOffline`. A
  device with a logged-in socket goes offline exactly when another socket of it closes (`OnlineBrokenExactly`), and the
  two maps stop being inverse exactly at a colliding login (`InverseBrokenExactlyByCollision`).
- The rate limiter spaces grants, not fetches: a clock that moves between the two lets the next fetch start early
  (`GeocoderProtocol.SpacingExactlyWhenPrompt`; `FetchesCanComeTooClose` is such a run).
- "Only one active session at a time" fails of stored refresh tokens exactly when two calls of a user overlap between
  revoking and storing, and a stored token is traded in twice exactly when two refreshes hold it between finding and
  saving (`SessionRecords.OverlapBreaksExactly`, `SharedRecordSpendsTwiceExactly`). Both happen in runs from nothing
  (`SessionRuns.OverlappingLoginsLeaveTwoLiveRecords`, `OneTokenTradedTwice`). Behind the guard, the second can
  happen exactly when one record is held for tokens of two values at once (`GuardedRefresh.GuardedSavesExactly`;
  `UnlikeTokensSpendTwice` is such a run). Access tokens are safe all the same.
- A refresh that found its record before a login can clear the record of that login
  (`LatestSession.OvertakenLoginLosesItsRecord`), and a login that fails after its version bump strands the earlier
  session (`FailedLoginStrandsSession`). Calls and live records stay with the latest login exactly as long as no
  version is bumped while another call of the user is under way, no token of an earlier login finds a record, and the
  last call that would revoke an outdated record does not fail (`AlwaysFreshExactly`); then the live record is of the
  latest login (`LiveRecordOfLatestLogin`).
- A later subscription start can give an earlier end: `Months.LaterStartEarlierEndExactly`.
- A user whose ACTIVE subscription has lapsed passes the guard of `subscribe` but is refused by the unique index
  (`LedgerTheorems.SubscribeSucceedsExactly`, reached in `LapsedUserMeetsDuplicateKey`).
- A coupon loses a use in `subscribe` without any payment exactly when the insert of the call meets an ACTIVE
  subscription of the user, or the call breaks off after the increment (`CouponRace.UseLostExactlyAtInsert`). For one
  undisturbed call that is exactly the lapsed user (`CouponLoss.UseLostExactly`); two overlapping calls of a user
  without any subscription do it as well (`CouponRace.OverlappingSubscribesLoseUse`).
- A subscription for two months or more is charged more than the checkout quotes, unless there is nothing to pay, and a
  yearly plan for its default duration twelve times as much: `LedgerTheorems.ChargeExceedsQuoteExactly`,
  `YearlyDefaultIsTwelveQuotes`.
- The job that looks for silent engines repeats ENGINE_OFF exactly when something else turns the engine off during its
  read (`Alerts.EveryRunAlternates`, `OvertakenJobRepeatsOff`).
- A fence that vanishes while a device is inside, others being left, gives no EXIT, and ENTER is repeated exactly when
  the device comes back into such a fence (`Geofences.AlertsAlternateExactly`, `VanishedFenceEntersTwice`).

## Model

| member | source | states |
|---|---|---|
| Segmentation.SegmentationUnique | src/modules/trips/trips.service.ts:464-520 | a track has exactly one segmentation into ordered, disjoint segments that start moving, cover every moving point, hold no long stop and end at one |
| Segmentation.SegmentsAreSegmentation | src/modules/trips/trips.service.ts:476-509 | the scanning computation yields such a segmentation |
| Segmentation.SegmentationIsSegments | src/modules/trips/trips.service.ts:476-509 | any such segmentation is the one the scan yields |
| TripSegments.IdleFold | src/modules/trips/trips.service.ts:476-509 | seeing one point at a time with no trip open gives the candidate trips of the segmentation |
| TripSegments.OpenFold | src/modules/trips/trips.service.ts:481-507 | inside a trip it closes that trip at the next stop of five minutes since the last moving point, and goes on |
| Trips.CalculateTotalDistance | src/modules/trips/trips.service.ts:565-580 | the loop computes the path distance, for any distance function, which `TripReadings.PathOneMore` and `PathFromFront` tie to the distances between consecutive points |
| Trips.DetectTrips | src/modules/trips/trips.service.ts:464-520 | the loop returns exactly the batch trips, which `TripReadings.TripsReportSegments` reads off the points of each segment |
| Trips.BatchTripsOfAnySegmentation | src/modules/trips/trips.service.ts:464-520 | whatever segmentation one writes down, the detected trips are its valid segments |
| Trips.SinglePointInvalid | src/modules/trips/trips.service.ts:511-517 | a trip of one point is never valid, so leaving it out at the end of the loop loses nothing |
| TripDistance.TripsLengthBounded | src/modules/trips/trips.service.ts:529 | unrounded trip distances sum to at most the distance of all points, for any non-negative distance |
| TripDistance.RecordedDistanceBounded | src/modules/trips/trips.service.ts:543 | the rounded ones exceed it by at most 5 m a trip |
| TripFacts.DetectedTripsInOrder | src/modules/trips/trips.service.ts:522-554 | detected trips of a sorted track follow one another without overlap |
| TripFacts.SpeedsOfTrip | src/modules/trips/trips.service.ts:527-550 | the maximum speed bounds every point and is attained, and the average does not exceed it beyond rounding |
| TripReadings.PathOneMore | src/modules/trips/trips.service.ts:570-577 | one more point adds its distance from the point before it, for any metric |
| TripReadings.PathFromFront | src/modules/trips/trips.service.ts:565-580 | summing the legs from the front gives the same |
| TripReadings.BatchStopExactly | src/modules/trips/trips.service.ts:488-495 | in batch a trip ends exactly at a point below 2 km/h that comes 300000 ms or more after the last faster one |
| TripReadings.LiveStopExactly | src/modules/trips/trips.service.ts:103-109 | online it ends at one of at most 2 km/h, then or as soon as the ignition is off |
| TripReadings.TripExactly | src/modules/trips/trips.service.ts:556-563 | points make a trip if and only if they are 95 m or more and 59.5 s or more long, rounding included |
| TripReadings.TripsReportSegments | src/modules/trips/trips.service.ts:464-554 | whatever segmentation is written down, the detected trips are its long segments in order, each with the times, places, count, distance, duration and average of its points |
| TripReadings.OneKilometre | src/modules/trips/trips.service.ts:464-554 | two points a kilometre apart by a metric that depends on them make one trip of one kilometre, with all its fields |
| LiveTrips.TripsService.constructor | src/modules/trips/trips.service.ts:57-61 | the three maps start empty |
| LiveTrips.TripsService.HandleLocationForTripDetection | src/modules/trips/trips.service.ts:74-140 | the handler makes the location step of the online detector, trips saved included |
| LiveTrips.TripsService.HandleDeviceHeartbeatForTripDetection | src/modules/trips/trips.service.ts:142-184 | the handler makes the heartbeat step |
| LiveTrips.ConsistentPreserved | src/modules/trips/trips.service.ts:57-61 | every event keeps: the maps have the same keys, a buffer begins with the start point, the last moving time is that of its last moving point |
| LiveSimulation.OnlineIsSegmentation | src/modules/trips/trips.service.ts:74-184 | for every interleaved run with heartbeats and no time of 0 from the device, what is saved for a device plus its flushed buffer are the trips of the live rule on the points that count |
| LiveSimulation.OtherDevice | src/modules/trips/trips.service.ts:74-184 | an event of one device changes nothing for another |
| LiveInStep.HandlersMakeLiveMoments | src/modules/trips/trips.service.ts:74-184 | one input changes a device's open trip and saved trips as the online moment says, lost points and ending heartbeats included |
| LiveInStep.SameMomentExactly | src/modules/trips/trips.service.ts:88-135 | an input has the same effect online and in batch if and only if it is in step, a condition on it and the open trip before it |
| LiveInStep.SameTraceExactly | src/modules/trips/trips.service.ts:74-184 | over any stream, heartbeats included, the two have the same open trips and completed buffers throughout if and only if every input is in step |
| LiveInStep.InStepEqualsBatch | src/modules/trips/trips.service.ts:74-184 | for a known device without a time of 0, whatever other devices send, online plus flush equals batch when every input of it is in step |
| LiveEqualsBatch.OnlineEqualsBatch | src/modules/trips/trips.service.ts:74-140 | a corollary for whole streams without heartbeats: no speed is exactly 2, no stop has the ignition off, and no opening point is followed by a stopped one |
| LiveEqualsBatch.DisagreeOnSpeedTwo | src/modules/trips/trips.service.ts:88 | a speed of exactly 2 makes a trip in batch and none online |
| LiveEqualsBatch.DisagreeOnIgnitionOff | src/modules/trips/trips.service.ts:106-109 | a stop with the ignition off ends the trip online only |
| LiveEqualsBatch.DisagreeOnStopAfterOpening | src/modules/trips/trips.service.ts:103 | a stop right after the opening point is lost online |
| LiveFacts.OnlyKnownSaved | src/modules/trips/trips.service.ts:114-124 | in every run only valid trips of devices on record are saved, and none is changed later |
| LiveFacts.BeatEndsExactly | src/modules/trips/trips.service.ts:152-159 | a heartbeat ends a trip if and only if it has two points and last moved 300000 ms or more ago |
| LiveFacts.ZeroTimeStalls | src/modules/trips/trips.service.ts:103 | a trip that last moved at time 0 is neither ended nor extended until the device moves |
| Polynomials.FeedIsRemainder | src/common/utils/crc.util.ts:14-22 | the shift register computes the remainder of schoolbook division by x^16 + x^12 + x^5 + 1 (section 2 of ITU-T V.41) |
| Polynomials.FeedLinear | src/common/utils/crc.util.ts:28-37 | the register is linear in its start and its message |
| Polynomials.BurstIsSeen | src/common/utils/crc.util.ts:28-37 | a burst of at most 16 bits never leaves the register at zero |
| Crc.GenerateCrcTable | src/common/utils/crc.util.ts:9-26 | entry i is eight steps of the bit-serial register on byte i |
| Crc.TableStep | src/common/utils/crc.util.ts:31-34 | one table look-up does the work of eight bit-serial steps |
| Crc.CalculateCrc | src/common/utils/crc.util.ts:28-37 | the table-driven loop ends with the bit-serial register of the message, for every byte string |
| Crc.CrcIsRemainder | src/common/utils/crc.util.ts:28-37 | that register is the polynomial remainder of the message with its first 16 bits inverted |
| Crc.CrcAffine | src/common/utils/crc.util.ts:28-37 | CRCs of equally long messages differ by a linear map of the difference |
| Crc.BurstChangesCrc | src/common/utils/crc.util.ts:28-37 | an error burst of at most 16 bits changes the CRC |
| Polynomials.ParityFeed | src/common/utils/crc.util.ts:28-37 | feeding a message adds its parity to the register's, since the generator has an even number of terms |
| Crc.OddErrorChangesCrc | src/common/utils/crc.util.ts:28-37 | any odd number of flipped bits, anywhere in the message, changes the CRC |
| Crc.ValidateCrc | src/common/utils/crc.util.ts:39-42 | accepts exactly the CRC of the message |
| Crc.AppendCrc | src/common/utils/crc.util.ts:44-50 | the message followed by its CRC, high byte first; the CRC of the result is 0 |
| Crc.AppendedCrcIsZero | src/common/utils/crc.util.ts:44-50 | appending a message's own CRC always brings the register to zero |
| Gt06.ParsePackets | src/modules/gps-ingest/gt06-parser.service.ts:16-62 | the offset loop terminates and returns the packets and byte count of the framing specification |
| Gt06Theorems.ParseAppend | src/modules/gps-ingest/gt06-parser.service.ts:16-62 | parsing a then its rest with b gives the packets and byte counts of parsing a + b |
| Gt06Theorems.ParseLeavesIncomplete | src/modules/gps-ingest/gt06-parser.service.ts:24-31 | what parsing leaves is the start of a frame, and parsing it again consumes nothing |
| Gt06Theorems.ParseFrames | src/modules/gps-ingest/gt06-parser.service.ts:16-62 | a stream of whole frames is consumed entirely, frame by frame |
| Gt06Theorems.WhichFramesGivePackets | src/modules/gps-ingest/gt06-parser.service.ts:64-131 | long frames always give a packet, short ones from packet length 2 on |
| Gt06Theorems.JunkIsSkipped | src/modules/gps-ingest/gt06-parser.service.ts:16-62 | whatever bytes that start no frame come first, the frames behind them are found and everything is consumed |
| Gt06Theorems.LongRoundTrip | src/modules/gps-ingest/gt06-parser.service.ts:103-131 | a long packet is parsed back exactly |
| Gt06Theorems.LongStreamRoundTrip | src/modules/gps-ingest/gt06-parser.service.ts:16-62 | so is any list of long packets |
| Gt06Theorems.ShortIsMisread | src/modules/gps-ingest/gt06-parser.service.ts:64-101 | every field of a short packet behind the protocol number is read one byte early |
| Gt06Theorems.ShortRoundTripExactly | src/modules/gps-ingest/gt06-parser.service.ts:72-77 | a short packet survives if and only if it has no data and all its bytes from the protocol number on are alike |
| Gt06Theorems.NoShortRoundTrip | src/modules/gps-ingest/gt06-parser.service.ts:269-276 | none with the protocol's stop bytes does |
| Gt06Login.ParseLoginPacket | src/modules/gps-ingest/gt06-parser.service.ts:133-158 | the nibble loop yields the hexadecimal digits without leading zeros, padded to 15 |
| Gt06Login.LoginRoundTrip | src/modules/gps-ingest/gt06-parser.service.ts:133-158 | sixteen digits packed into eight bytes are read back, without a leading filler zero, so every 15-digit IMEI is |
| Gt06Login.HexDigitsExactly | src/modules/gps-ingest/gt06-parser.service.ts:133-160 | the two hexadecimal digits of each byte, in lower case, give the byte back |
| Gt06Login.ShortLoginFails | src/modules/gps-ingest/gt06-parser.service.ts:72-73 | a login of exactly eight data bytes in a short frame is not recognised, because a byte is missing |
| Gt06Login.ShortLoginExactly | src/modules/gps-ingest/gt06-parser.service.ts:72-73 | the IMEI read from a short frame is that of its data if and only if the data are not exactly eight bytes |
| Gt06Login.BuildAckPacket | src/modules/gps-ingest/gt06-parser.service.ts:268-295 | ten bytes with length, protocol, serial number, the CRC of those four bytes, and the stop bytes |
| Gt06Login.AckIsFrame | src/modules/gps-ingest/gt06-parser.service.ts:269-294 | an acknowledgement is one whole short frame |
| Gt06Login.AckIsMisread | src/modules/gps-ingest/gt06-parser.service.ts:269-294 | an acknowledgement is the encoding of a short packet, which the same service would not read back |
| TcpStream.DeviceConnection.HandleData | src/modules/gps-ingest/tcp-server.service.ts:124-196 | one delivery makes the specified pass, whose effect on packets, gaps, lines and frames is the subject of `TcpText`, `TcpTextCases` and `TcpBinary` |
| TcpStream.KeptBufferBounded | src/modules/gps-ingest/tcp-server.service.ts:170-191 | whatever arrives, at most 10240 bytes stay buffered |
| TcpBinary.ParsePrefix | src/modules/gps-ingest/gt06-parser.service.ts:29-31 | any prefix of a stream of frames parses to the first frames and leaves less than one |
| TcpBinary.Reassembly | src/modules/gps-ingest/tcp-server.service.ts:178-191 | behind any buffered part of a frame, any chunks deliver the packets of the frames in order and leave nothing |
| TcpBinary.ChunkingIndependent | src/modules/gps-ingest/tcp-server.service.ts:124-206 | for frames of at most 10241 bytes every split into chunks delivers the same packets as one delivery and ends with an empty buffer |
| TcpBinary.LongerFrameIsLost | src/modules/gps-ingest/tcp-server.service.ts:188-191 | a longer frame is lost when it is cut behind 10241 bytes |
| TcpText.PassWithPackets | src/modules/gps-ingest/tcp-server.service.ts:141-149 | a buffer with whole packets: each is handed over, the blanks and line endings around them are not, and the start of the next packet is kept without those in front of it |
| TcpText.PassWithoutPackets | src/modules/gps-ingest/tcp-server.service.ts:150-167 | one without: blank lines go, a short tail stays as it is, and one of more than 20 characters or with a final semicolon is handed over |
| TcpStars.DeliveryUses | src/modules/gps-ingest/tcp-server.service.ts:124-191 | whatever the buffer holds, a delivery hands over no more texts with a '*' than stars it uses up |
| TcpTextTheorem.SpacedHqExactly | src/modules/gps-ingest/tcp-server.service.ts:133-175 | for any stream of HQ packets with blanks and line endings around them and any split, exactly the original packets arrive in order if and only if every delivery finds something fine: a complete packet, a line end, or a short tail, and no packet behind a leading line ending |
| TcpTextTheorem.FineCutsDeliver | src/modules/gps-ingest/tcp-server.service.ts:141-149 | the if half, from any state between deliveries; only blanks are left at the end |
| TcpTextTheorem.StrayCutsDoNot | src/modules/gps-ingest/tcp-server.service.ts:162-166 | the only-if half |
| TcpTextCases.HqExactly | src/modules/gps-ingest/tcp-server.service.ts:133-175 | without gaps: if and only if every delivery without a complete packet leaves at most 20 characters not ending in a semicolon, and then nothing is left |
| TcpTextCases.WholePacketsArrive | src/modules/gps-ingest/tcp-server.service.ts:147-149 | packets that come one by one, each with its line ending or blanks, all arrive and leave the buffer empty |
| TcpTextCases.CutLineEndingLosesPacket | src/modules/gps-ingest/tcp-server.service.ts:198-206 | a line ending cut in two costs the packet behind it, whatever the packets are |
| TcpTextCases.LinesArrive | src/modules/gps-ingest/tcp-server.service.ts:152-161 | lines without '#' are handed over in order without their ends, and what follows the last line feed stays |
| TcpRegistry.TcpServer.constructor | src/modules/gps-ingest/tcp-server.service.ts:32-33 | no socket and no device at first |
| TcpRegistry.TcpServer.HandleConnection | src/modules/gps-ingest/tcp-server.service.ts:92-101 | a new socket has an empty IMEI |
| TcpRegistry.TcpServer.HandleLoginPacket | src/modules/gps-ingest/tcp-server.service.ts:416-434 | a login sets the IMEI and both maps and emits one connect event |
| TcpRegistry.TcpServer.HandleHqRegistration | src/modules/gps-ingest/tcp-server.service.ts:240-250 | the first HQ packet does, later ones do not |
| TcpRegistry.TcpServer.HandleDisconnect | src/modules/gps-ingest/tcp-server.service.ts:519-535 | closing removes the IMEI from both maps, whichever socket it names, and emits one disconnect event |
| TcpRegistry.TcpServer.IsDeviceOnline | src/modules/gps-ingest/tcp-server.service.ts:537-539 | an online device has a logged-in socket unless a socket changed its IMEI, and while the two maps are inverse a device is online if and only if a socket is logged in as it |
| TcpRegistry.TcpServer.SendCommand | src/modules/gps-ingest/tcp-server.service.ts:554-565 | false for an unknown device or a write that throws; otherwise the command goes to an open socket logged in as the device unless a socket changed its IMEI, and while the maps are inverse to its only one |
| TcpRegistry.SocketsKnownPreserved | src/modules/gps-ingest/tcp-server.service.ts:240-250 | a socketToImei entry always names an open socket with that IMEI, and every logged-in socket has one |
| TcpRegistry.MapsBackPreserved | src/modules/gps-ingest/tcp-server.service.ts:416-434 | unless a socket logs in under a second IMEI, every connections entry maps back |
| TcpRegistry.CommandReachesDevice | src/modules/gps-ingest/tcp-server.service.ts:554-560 | then a command goes only to an open socket logged in as its device |
| TcpRegistry.InverseBrokenExactlyByCollision | src/modules/gps-ingest/tcp-server.service.ts:519-535 | the two maps stay inverse if and only if no login takes an IMEI another socket holds or changes a socket's IMEI |
| TcpRegistry.OnlineBrokenExactly | src/modules/gps-ingest/tcp-server.service.ts:523-528 | every logged-in socket's device stays online if and only if no socket closes under another one of its device |
| TcpRegistry.EveryRunKeepsInverse | src/modules/gps-ingest/tcp-server.service.ts:416-434 | in a run without colliding logins the two maps stay inverse |
| TcpRegistry.DisconnectsOncePreserved | src/modules/gps-ingest/tcp-server.service.ts:525-534 | a socket that logged in emits exactly one disconnect event, when it closes |
| TcpRegistry.EveryRunAnnounces | src/modules/gps-ingest/tcp-server.service.ts:525-534 | in every run a disconnect event names the IMEI under which its socket was last announced |
| TcpRegistry.EveryRun | src/modules/gps-ingest/tcp-server.service.ts:92-122 | all of this in every run: the first two invariants always, each of the others in runs without the events that break it |
| TcpRegistry.OverlappingReconnectGoesOffline | src/modules/gps-ingest/tcp-server.service.ts:527 | the run in which the old socket's close takes the reconnected device offline |
| Geocoder.ReverseGeocodingService.ReverseGeocode | src/modules/trips/reverse-geocoding.service.ts:43-76 | a call with an unexpired entry is given it and changes nothing; otherwise it joins the pending lookup of its key or queues one, as `GeocoderCache.AnswersExactly` says |
| Geocoder.ReverseGeocodingService.StartRateLimit | src/modules/trips/reverse-geocoding.service.ts:251-260 | a lookup waits until minInterval after the last grant, or is let through at once |
| Geocoder.ReverseGeocodingService.EndRateLimit | src/modules/trips/reverse-geocoding.service.ts:260 | letting through stamps the time |
| Geocoder.ReverseGeocodingService.FinishTask | src/modules/trips/reverse-geocoding.service.ts:61-69 | an answer is cached for one time to live and the next lookup's turn comes |
| Geocoder.ReverseGeocodingService.FinallyHandler | src/modules/trips/reverse-geocoding.service.ts:70-72 | the finally handler removes the entry of its key |
| GeocoderProtocol.InOrderPreserved | src/modules/trips/reverse-geocoding.service.ts:78-85 | lookups are served first in, first out: settled ones, then one at work, then queued ones |
| GeocoderProtocol.OneFetchAtATime | src/modules/trips/reverse-geocoding.service.ts:78-85 | at most one fetch runs at a time |
| GeocoderProtocol.InflightExactPreserved | src/modules/trips/reverse-geocoding.service.ts:56-74 | the inflight map holds exactly the lookups whose finally handler has not run |
| GeocoderProtocol.OnePendingPerKey | src/modules/trips/reverse-geocoding.service.ts:56-59 | a key has at most one pending lookup |
| GeocoderProtocol.CacheExplainedPreserved | src/modules/trips/reverse-geocoding.service.ts:61-69 | every cache entry is the answer of a finished lookup of its key and expires one time to live after it |
| GeocoderProtocol.AnswersHaveTheRightKey | src/modules/trips/reverse-geocoding.service.ts:43-76 | every answer comes from a lookup with the same rounded key, pending or completed less than the time to live ago |
| GeocoderCache.AnswersExactly | src/modules/trips/reverse-geocoding.service.ts:43-76 | which answer is given: nothing when off or off the globe, the cached value without any change exactly while it has not expired, otherwise the one pending lookup of the key, started exactly when there is none |
| GeocoderCache.RememberedPreserved | src/modules/trips/reverse-geocoding.service.ts:60-72 | every interleaving keeps: an answer that has not expired is in the cache, and no later lookup has its key |
| GeocoderCache.FetchesOfKeyApart | src/modules/trips/reverse-geocoding.service.ts:48-74 | in every run, a key whose fetch was answered is not fetched again for one time to live after that |
| GeocoderCache.AnsweredFromCache | src/modules/trips/reverse-geocoding.service.ts:48-53 | after any answer, whatever happens, a call for its coordinate within the time to live is given that answer and fetches nothing |
| GeocoderCache.FailureIsForgotten | src/modules/trips/reverse-geocoding.service.ts:70-72 | a lookup that fails is not cached: the next call starts a new one |
| GeocoderCache.LetThroughExactly | src/modules/trips/reverse-geocoding.service.ts:251-260 | a lookup is let through at once if and only if the interval has passed, and otherwise exactly at its end |
| GeocoderProtocol.GrantsSpacedPreserved | src/modules/trips/reverse-geocoding.service.ts:251-261 | successive grants are at least minInterval apart |
| GeocoderProtocol.GrantsApart | src/modules/trips/reverse-geocoding.service.ts:251-261 | grants i and j are at least (j - i) intervals apart |
| GeocoderProtocol.FetchesInTurnPreserved | src/modules/trips/reverse-geocoding.service.ts:91 | fetches begin in lookup order, each between its own grant and the next |
| GeocoderProtocol.FetchesApart | src/modules/trips/reverse-geocoding.service.ts:91-126 | fetch j begins at least (j - i - 1) intervals after fetch i, and (j - i) when fetch i began at its grant |
| GeocoderProtocol.EveryRun | src/modules/trips/reverse-geocoding.service.ts:36-39 | all invariants hold in every reachable state |
| GeocoderProtocol.PromptFetchKeepsNextAway | src/modules/trips/reverse-geocoding.service.ts:251-261 | after a fetch begun at its grant, every later fetch of every continuation is an interval away |
| GeocoderProtocol.LateFetchLetsNextComeEarly | src/modules/trips/reverse-geocoding.service.ts:256-260 | a continuation in which a late fetch is followed too soon by the next |
| GeocoderProtocol.SpacingExactlyWhenPrompt | src/modules/trips/reverse-geocoding.service.ts:251-261 | where a lookup is in line or can still come, later fetches stay an interval away in all continuations if and only if the clock has not moved since the grant |
| GeocoderProtocol.FetchesCanComeTooClose | src/modules/trips/reverse-geocoding.service.ts:251-261 | a run from the start in which two successive fetches begin less than the interval apart |
| Sessions.AuthService.IncrementSessionVersion | src/modules/users/users.service.ts:261-268 | one atomic bump, whose value goes to this login alone |
| Sessions.AuthService.SaveRevokedToken | src/modules/auth/auth.service.ts:167-168 | the matched record is revoked, whatever happened since it was read |
| Sessions.AuthService.ContinueRefresh | src/modules/auth/auth.service.ts:170-176 | a refresh for an active user mints with the presented token's version, otherwise fails |
| Sessions.AuthService.SignTokens | src/modules/auth/auth.service.ts:228-243 | the pair of tokens carries that user and version |
| Sessions.AuthService.RevokePreviousSessions | src/modules/auth/auth.service.ts:249-253 | every live record of the user is revoked |
| Sessions.AuthService.StoreRecord | src/modules/auth/auth.service.ts:257-263 | a live record is added |
| Sessions.RevokeAll | src/modules/auth/auth.service.ts:207-212 | exactly the user's records become revoked, others stay as they are |
| Sessions.VersionsIncreasePreserved | src/modules/users/users.service.ts:261-268 | later logins of a user get greater versions and the account has the last of them |
| Sessions.OriginsFitPreserved | src/modules/auth/auth.service.ts:176 | every token carries the user and version of the login bump or earlier token it came from |
| Sessions.RefreshCopiesRootVersion | src/modules/auth/auth.service.ts:176 | however long the refresh chain, a token has the version of its root login |
| Sessions.BumpsUsedOncePreserved | src/modules/auth/auth.service.ts:95-98 | each login version belongs to one login |
| Sessions.AcceptedExactlyFromLatestLogin | src/modules/auth/strategies/jwt.strategy.ts:41-55 | an access token is accepted if and only if its user is active and it descends from the user's latest login |
| Sessions.EveryRun | src/modules/auth/auth.service.ts:75-266 | these three invariants hold in every interleaving; what a logout does is in `SessionEnds` |
| Sessions.EarlierChainsAreDead | src/modules/auth/auth.service.ts:95 | after a new login no token descending from an earlier one is ever accepted again, refreshes under way included |
| SessionEnds.LogoutRevokesExactly | src/modules/auth/auth.service.ts:190-199 | a logout revokes exactly the records of the token's user and changes nothing else |
| SessionEnds.NoneLiveExactly | src/modules/auth/auth.service.ts:142-149 | a user without live records gets one exactly when a call of that user stores one |
| SessionEnds.LoggedOutStaysOut | src/modules/auth/auth.service.ts:190-203 | after a logout no refresh of the user finds a record, in any interleaving, until a call of the user stores one |
| SessionEnds.TokensToComeAfter | src/modules/auth/auth.service.ts:82-84 | tokens signed and still to be signed for a user grow only by a check that passes while the user is active |
| SessionEnds.InactiveGetNothingNew | src/modules/auth/auth.service.ts:172-174 | while a user is inactive, only calls past the check before can sign a token for that user, each at most one |
| SessionEnds.SetActiveExactly | src/modules/users/users.service.ts:236-238 | a token is accepted right after the user is set active or inactive if and only if the user is active and the version the latest |
| SessionRecords.OneSessionInEveryRun | src/modules/auth/auth.service.ts:249-263 | in a run in no state of which two calls of a user are between revoking and storing, each user has at most one live record |
| SessionRecords.OverlapBreaksExactly | src/modules/auth/auth.service.ts:249-263 | calls that have revoked can only finish with one live record per user if and only if no two of a user overlap there |
| SessionRecords.OnlyOverlapsLeaveTwo | src/modules/auth/auth.service.ts:142-263 | from nothing, two live records of a user need calls that overlapped between revoking and storing, and a record traded in twice needs refreshes that held it together |
| SessionRecords.SpentOnceInEveryRun | src/modules/auth/auth.service.ts:142-168 | in a run in no state of which two refreshes hold the same record between finding and saving it, every record is traded in at most once |
| SessionRecords.SharedRecordSpendsTwiceExactly | src/modules/auth/auth.service.ts:142-168 | refreshes that have found records trade each in once if and only if no two hold the same |
| SessionRuns.OverlappingLoginsLeaveTwoLiveRecords | src/modules/auth/auth.service.ts:249-263 | a run from nothing in which two overlapping logins leave two live records |
| SessionRuns.OneTokenTradedTwice | src/modules/auth/auth.service.ts:142-168 | a run from nothing in which two refreshes hold one record, and both trade it in |
| LatestSession.FreshBrokenExactly | src/modules/auth/auth.service.ts:75-176 | calls under way and live records not about to be revoked descend from the latest login, and a step breaks that if and only if it bumps the version during a call of the user, finds a record with a token of an earlier login, or fails the last call that would revoke an outdated record; whatever record a token matches |
| LatestSession.AlwaysFreshExactly | src/modules/auth/auth.service.ts:75-176 | so this holds throughout a run if and only if no step of the run is one of those |
| LatestSession.LiveRecordOfLatestLogin | src/modules/auth/auth.service.ts:75-104 | from nothing, in a run without such a step, when no call of a user is about to revoke, a live record descends from the latest login, and its access token is accepted while the user is active |
| LatestSession.OrderlyRunsAreUnbroken | src/modules/auth/auth.service.ts:95-98 | a special case: no step is one of those when calls of a user never overlap, tokens find their own records and no call fails between minting and revoking |
| LatestSession.FailedLoginStrandsSession | src/modules/auth/auth.service.ts:95-98 | a login that fails after its bump leaves a live record whose tokens nothing accepts |
| LatestSession.OvertakenLoginLosesItsRecord | src/modules/auth/auth.service.ts:142-176 | a refresh that found its record before a login and goes on after it leaves the only live record to the earlier login |
| JwtGuard.JwtAuthGuard.AwaitRefresh | src/common/guards/jwt-auth.guard.ts:89-102 | a request joins the pending refresh of its token or starts one and locks it |
| JwtGuard.JwtAuthGuard.RunFinally | src/common/guards/jwt-auth.guard.ts:96-98 | the lock goes when the refresh has settled |
| JwtGuard.JwtAuthGuard.AfterRefresh | src/common/guards/jwt-auth.guard.ts:102-109 | a request goes on with the new tokens, or with its old cookies if the refresh failed |
| JwtGuard.LocksExactPreserved | src/common/guards/jwt-auth.guard.ts:93-100 | a token is locked exactly while a refresh of it has not been unlocked |
| JwtGuard.OneAfterTheOtherPreserved | src/common/guards/jwt-auth.guard.ts:93-100 | refreshes of one token never overlap |
| JwtGuard.OnePendingRefresh | src/common/guards/jwt-auth.guard.ts:25-34 | at most one refresh per token is pending |
| JwtGuard.EveryRun | src/common/guards/jwt-auth.guard.ts:89-110 | both hold in every run, and outcomes once settled stay |
| JwtGuard.OverlappingRequestsShareOutcome | src/common/guards/jwt-auth.guard.ts:25-34 | a request that overlaps a pending refresh joins it and gets the outcome of all others that wait for it |
| JwtGuard.ResumedGetsOutcome | src/common/guards/jwt-auth.guard.ts:93-108 | in every run a request that waited for a refresh gets what that refresh settled with |
| JwtGuard.StartsExactlyWhenNonePending | src/common/guards/jwt-auth.guard.ts:93-100 | a refresh is started if and only if none of its token is pending |
| GuardedRefresh.ServedPreserved | src/common/guards/jwt-auth.guard.ts:93-100 | every refresh call that presents a token serves a pending refresh of the guard with that token's value, each its own |
| GuardedRefresh.FlightsSpendApartExactly | src/common/guards/jwt-auth.guard.ts:25-34 | so, whatever record a token matches, no two refreshes hold one record if and only if those that do present the same value |
| GuardedRefresh.InEveryRun | src/common/guards/jwt-auth.guard.ts:89-110 | this holds in every interleaving of requests, guard and session steps from nothing, when only the guard starts refreshes |
| GuardedRefresh.GuardedSavesExactly | src/modules/auth/auth.service.ts:142-168 | where no record has been traded in twice yet: however the refreshes that hold records save them, none is traded in twice if and only if those that hold one record present the same value |
| GuardedRefresh.GuardedRecordsSpentOnce | src/common/guards/jwt-auth.guard.ts:89-110 | in every such run in which no record is held for tokens of two values at once, no record is traded in twice |
| GuardedRefresh.OwnMatchesAreAlike | src/modules/auth/auth.service.ts:142-148 | no record is, when tokens match only records stored for their own value |
| GuardedRefresh.UnlikeTokensSpendTwice | src/modules/auth/auth.service.ts:142-168 | after two logins, the tokens of both, found to match the second's record at once, trade it in twice behind the guard |
| Months.NextMonthStart | src/modules/subscriptions/subscriptions.service.ts:337 | MakeDay puts consecutive months end to end, leap years included |
| Months.GregorianMonths | src/modules/subscriptions/subscriptions.service.ts:337 | the month lengths of the Gregorian calendar |
| Months.AddMonthsIsSumOfLengths | src/modules/subscriptions/subscriptions.service.ts:335-337 | adding n months moves the end by the lengths of the n months from its own month |
| Months.AddMonthsStrictlyIncreases | src/modules/subscriptions/subscriptions.service.ts:335-337 | more months, a later end |
| Months.LaterStartEarlierEndExactly | src/modules/subscriptions/subscriptions.service.ts:335-337 | a later start gives an earlier end if and only if it is in the next month, earlier in it by more days than the month reached has |
| Months.LaterStartEarlierEnd | src/modules/subscriptions/subscriptions.service.ts:335-337 | a month on from 31 January 1970 ends later than a month on from 1 February |
| Months.EarlyDatesNeverDrift | src/modules/subscriptions/subscriptions.service.ts:509-514 | up to the 28th of a month, split renewals end where one renewal does |
| Months.RenewalDrift | src/modules/subscriptions/subscriptions.service.ts:509-514 | otherwise they differ by the final month's length less that of a month on the way that is too short for the date |
| Months.SplitRenewalsStayWithinThreeDays | src/modules/subscriptions/subscriptions.service.ts:509-514 | however M months are split into renewals, the end is at most 2 days before and 3 after one renewal of M months |
| Months.ThreeDaysReached | src/modules/subscriptions/subscriptions.service.ts:509-514 | two one-month renewals from 31 January end 3 days after one of two months, so the bound is tight |
| Months.ExtendByMovesForward | src/modules/subscriptions/subscriptions.service.ts:335-337 | n months are at least 28n days, at the same time of day |
| Coupons.Discount | src/modules/subscriptions/subscriptions.service.ts:800-811 | a discount is never negative and never exceeds the base |
| Coupons.CouponDesk.ValidateCoupon | src/modules/subscriptions/subscriptions.service.ts:758-768 | a call goes on exactly with a copy of an active, unexpired, applicable coupon |
| Coupons.CouponDesk.IncrementUsage | src/modules/subscriptions/subscriptions.service.ts:770-790 | one conditional increment, and the discount of the copy read before |
| Coupons.CouponDesk.CreatePaymentRecord | src/modules/subscriptions/subscriptions.service.ts:363-377 | the payment record carries the code and the amounts |
| Coupons.CountedPreserved | src/modules/subscriptions/subscriptions.service.ts:770-778 | the counter moves by the increments, respects the bound, and each payment belongs to one increment |
| Coupons.NeverOverspent | src/modules/subscriptions/subscriptions.service.ts:753-791 | under any interleaving, payments with the code never exceed increments and the counter never exceeds maxUsage; they are equal if and only if no call is in between or was lost after its increment |
| Coupons.ReadExactly | src/modules/subscriptions/subscriptions.service.ts:758-768 | a call goes on if and only if the coupon is there, active, in date and for the plan |
| Coupons.IncrementExactly | src/modules/subscriptions/subscriptions.service.ts:770-782 | a use is counted if and only if the coupon is then still active and below its bound, and one only |
| Ledger.FindActive | src/modules/subscriptions/subscriptions.service.ts:292-295 | finds an ACTIVE subscription of the user if there is one |
| Ledger.SubscriptionsService.UpdateMany | src/modules/subscriptions/subscriptions.service.ts:98-101 | exactly the matching subscriptions change status |
| Ledger.SubscriptionsService.CreateSubscription | src/modules/subscriptions/subscriptions.service.ts:344-377 | subscription, pointer and payment record together, or none when the unique index (src/database/schemas/subscription.schema.ts, lines 63 to 69) refuses |
| Ledger.SubscriptionsService.SubscribeUser | src/modules/subscriptions/subscriptions.service.ts:291-380 | subscribing as specified, with every error outcome |
| Ledger.SubscriptionsService.AdminCreateSubscription | src/modules/subscriptions/subscriptions.service.ts:384-457 | creating as specified, after cancelling all the user's subscriptions |
| Ledger.SubscriptionsService.AdminRenewSubscription | src/modules/subscriptions/subscriptions.service.ts:461-540 | renewing as specified: amounts added, end moved on, one payment record |
| Ledger.SubscriptionsService.CancelSubscription | src/modules/subscriptions/subscriptions.service.ts:581-597 | cancelling clears the pointer |
| Ledger.SubscriptionsService.ExpireSubscriptions | src/modules/subscriptions/subscriptions.service.ts:95-109 | exactly the ACTIVE subscriptions past their end expire |
| LedgerTheorems.ConservedPreserved | src/modules/subscriptions/subscriptions.service.ts:291-540 | every operation keeps: base, discount and paid amounts equal the sums over the payment records, paid plus discount is base, none is negative |
| LedgerTheorems.PointedPreserved | src/modules/subscriptions/subscriptions.service.ts:361 | every operation keeps: a user with an ACTIVE subscription points at it |
| LedgerTheorems.OneActivePerUser | src/database/schemas/subscription.schema.ts:63-69 | and has only one |
| LedgerTheorems.EveryRun | src/modules/subscriptions/subscriptions.service.ts:95-597 | in every run of operations |
| LedgerTheorems.RenewalsExtend | src/modules/subscriptions/subscriptions.service.ts:509-521 | a run of renewals in time moves the stored end date by each renewal's months in turn |
| LedgerTheorems.RenewalsInTimeStayWithinThreeDays | src/modules/subscriptions/subscriptions.service.ts:509-521 | so the stored end date is within 3 days of one renewal of all the months |
| LedgerTheorems.SubscribeSucceedsExactly | src/modules/subscriptions/subscriptions.service.ts:292-299 | valid requests succeed if and only if the user has no ACTIVE subscription; a lapsed one ends in a duplicate key |
| LedgerTheorems.ExpiryLetsLapsedSubscribe | src/modules/subscriptions/subscriptions.service.ts:95-101 | after the hourly job a lapsed user has no ACTIVE subscription left |
| LedgerEffects.ExpiryExactly | src/modules/subscriptions/subscriptions.service.ts:95-109 | after the hourly job a subscription is EXPIRED if and only if it was, or was ACTIVE with its end passed; everything else is as before |
| LedgerEffects.ExpiryTwice | src/modules/subscriptions/subscriptions.service.ts:95-109 | jobs at two times do what one at the later time does, in either order |
| LedgerEffects.ChargeIs | src/modules/subscriptions/subscriptions.service.ts:321-337 | a charge is devices times months times price, less a percentage or a fixed sum that never exceeds it |
| LedgerEffects.SubscribeMakes | src/modules/subscriptions/subscriptions.service.ts:291-380 | what subscribing makes for a user without an ACTIVE subscription, field by field, that earlier ended ones become CANCELLED, and that otherwise nothing is made |
| LedgerEffects.SubscribeRefuses | src/modules/subscriptions/subscriptions.service.ts:292-320 | which error subscribing gives, exactly, and that nothing is changed then |
| LedgerEffects.AdminCreateMakes | src/modules/subscriptions/subscriptions.service.ts:384-457 | creating succeeds whatever the user had, cancels all of it and makes one ACTIVE subscription, or gives the error that applies |
| LedgerEffects.RenewalRefuses | src/modules/subscriptions/subscriptions.service.ts:461-494 | when renewing is refused, exactly, and that nothing is changed then |
| LedgerEffects.RenewalMakes | src/modules/subscriptions/subscriptions.service.ts:494-540 | a renewal changes one subscription and adds one payment, charged for the months, the end moved on from its own end or from now |
| LedgerEffects.RenewalEndsInFuture | src/modules/subscriptions/subscriptions.service.ts:512-515 | so a renewal by months ends at least 28 days a month after both its own end and now |
| LedgerEffects.CancellationExactly | src/modules/subscriptions/subscriptions.service.ts:581-597 | a cancellation ends the one ACTIVE subscription and clears the one pointer |
| LedgerTheorems.LapsedUserMeetsDuplicateKey | src/modules/subscriptions/subscriptions.service.ts:292-344 | two requests of a new user reach the duplicate key, whenever the second comes at or after the first one's end |
| CouponRace.InsertIsSubscribe | src/modules/subscriptions/subscriptions.service.ts:334-377 | where the guard would still pass, the insert of a call does to the books what the whole operation does with the discount its coupon gave |
| CouponRace.InsertLosesExactly | src/modules/subscriptions/subscriptions.service.ts:339-377 | at the insert of a call, over whatever books there are by then, its counted use is lost if and only if the user has an ACTIVE subscription, which is when the key is a duplicate and no payment is stored |
| CouponRace.UseLostExactlyAtInsert | src/modules/subscriptions/subscriptions.service.ts:291-380 | under any interleaving of subscribe calls and whole ledger operations a subscribe call loses its use only at such an insert or by breaking off after the increment |
| CouponRace.OverlappingSubscribesLoseUse | src/modules/subscriptions/subscriptions.service.ts:292-377 | two overlapping calls of a user without any subscription count the coupon twice for one payment |
| CouponLoss.UseLostExactly | src/modules/subscriptions/subscriptions.service.ts:292-377 | the undisturbed case: one subscribe call with nothing in between counts a coupon without any payment if and only if it is a valid request with a usable code of a user whose subscription has lapsed; it ends in the duplicate key |
| CouponLoss.PaymentsAgree | src/modules/subscriptions/subscriptions.service.ts:328-377 | when a call with a code succeeds, the stored payment record has the discount that the coupon gave |
| LedgerTheorems.ChargeMatchesQuoteExactly | src/modules/subscriptions/subscriptions.service.ts:251-334 | with no coupon, a percentage or a fixed one, the charge equals the checkout's quote if and only if it is for one month or the coupon or the price leaves nothing to pay for either |
| LedgerTheorems.ChargeExceedsQuoteExactly | src/modules/subscriptions/subscriptions.service.ts:251-334 | from one month on nothing is charged less than quoted, and more if and only if it is for two months or more with something to pay |
| LedgerTheorems.OneMonthChargeIsQuote | src/modules/subscriptions/subscriptions.service.ts:251-278 | for one month the charge is the checkout's quote, whatever the coupon |
| LedgerTheorems.YearlyDefaultIsTwelveQuotes | src/modules/subscriptions/subscriptions.service.ts:251-254 | a default yearly subscription without a coupon is charged twelve quotes |
| Alerts.AlertsService.CheckOverspeed | src/modules/alerts/alerts.service.ts:404-418 | above the limit an alert is decided unless one was less than 60 s ago |
| Alerts.AlertsService.CheckIgnitionChange | src/modules/alerts/alerts.service.ts:446-466 | a change of the known state is recorded and alerted, a first OFF only recorded |
| Alerts.AlertsService.HandleDeviceDisconnected | src/modules/alerts/alerts.service.ts:495-518 | the state is forgotten, with ENGINE_OFF if it was ON |
| Alerts.AlertsService.DetectStaleEngineOn | src/modules/alerts/alerts.service.ts:532-569 | undisturbed, the job turns off exactly the silent entries that are ON, in order |
| Alerts.AlternationExactly | src/modules/alerts/alerts.service.ts:446-569 | a step keeps a device's ENGINE_ON and ENGINE_OFF alternating from ON if and only if it is not a decision of the job overtaken during its read |
| Alerts.EngineAlertsExactly | src/modules/alerts/alerts.service.ts:446-518 | told from the alerts alone: a report is alerted if and only if it differs from the last alert, a disconnect if and only if that was ON |
| Alerts.JobDecidesExactly | src/modules/alerts/alerts.service.ts:539-569 | the job alerts exactly for a device that is gone, and leaves every other device as it is |
| Alerts.SweepExactly | src/modules/alerts/alerts.service.ts:532-569 | the undisturbed job turns off exactly the devices among its entries that are gone, with one alert each |
| Alerts.SweepKeepsAlternation | src/modules/alerts/alerts.service.ts:532-569 | the undisturbed job always keeps it |
| Alerts.EveryRunAlternates | src/modules/alerts/alerts.service.ts:446-569 | in any run a device's engine alerts alternate if and only if no decision of the job about it is overtaken |
| Alerts.OvertakenJobRepeatsOff | src/modules/alerts/alerts.service.ts:539-569 | the run in which ENGINE_OFF is repeated |
| Alerts.OverspeedTrackedPreserved | src/modules/alerts/alerts.service.ts:410-418 | on a monotone positive clock overspeed alerts of a device are at least 60 s apart |
| Alerts.OverspeedExactly | src/modules/alerts/alerts.service.ts:404-418 | told from the alerts alone: a speed is alerted if and only if it is above the limit and no alert is less than 60000 ms old |
| Alerts.ZeroTimeAlertsAgain | src/modules/alerts/alerts.service.ts:410-414 | a last alert at time 0 counts as none |
| Alerts.WindowHoldsFew | src/modules/alerts/alerts.service.ts:27 | so a window of T ms holds at most T / 60000 rounded down, plus 1 |
| Alerts.OverspeedRateBounded | src/modules/alerts/alerts.service.ts:404-418 | that rate bounds every run |
| Polygons.PointInPolygon | src/modules/geofences/geofences.service.ts:278-301 | the toggling loop computes the parity of intersected edges, for any number of vertices |
| Polygons.InsideIgnoresRotation | src/modules/geofences/geofences.service.ts:278-301 | where the vertex list starts does not matter |
| Polygons.ClosedStraddlesEvenly | src/modules/geofences/geofences.service.ts:292 | an even number of edges straddles any latitude |
| Polygons.FarAwayIsOutside | src/modules/geofences/geofences.service.ts:291-297 | a point west of every computed crossing, or of none, is outside |
| Polygons.RectangleExactly | src/modules/geofences/geofences.service.ts:278-301 | inside a rectangle means between its sides, south and west included, unless it is exactly EPSILON high |
| Polygons.WestIsTrue | src/modules/geofences/geofences.service.ts:291-297 | away from an edge's true crossing the added EPSILON does not change on which side a point is |
| Polygons.InsideIsRayCasting | src/modules/geofences/geofences.service.ts:278-301 | a point clear of every edge is inside any polygon if and only if an odd number of edges truly lie east of it |
| Geofences.GeofencesService.CurrentInside | src/modules/geofences/geofences.service.ts:151-163 | the ids of the fences that contain the location, each once |
| Geofences.GeofencesService.CreateAlerts | src/modules/geofences/geofences.service.ts:175-217 | one alert for each id that is still among the fences found |
| Geofences.GeofencesService.EvaluateGeofences | src/modules/geofences/geofences.service.ts:137-221 | one location: early return without fences, enter alerts, exit alerts, new state |
| Geofences.AlertsExactly | src/modules/geofences/geofences.service.ts:172-222 | a location adds exactly these alerts: ENTER for each fence that covers it, circles with their edge, and was not recorded, EXIT for each recorded one that does not and is still there; the record becomes the covering ones |
| Geofences.EntersComeFirst | src/modules/geofences/geofences.service.ts:186-219 | ENTER alerts come before EXIT alerts, and none twice |
| Geofences.AllEnteredStored | src/modules/geofences/geofences.service.ts:175-179 | no enter alert is skipped |
| Geofences.TrackedPreserved | src/modules/geofences/geofences.service.ts:197-217 | whatever happens to the fences, EXIT is only decided when the last alert of the pair was ENTER |
| Geofences.EveryExitFollowsEnter | src/modules/geofences/geofences.service.ts:137-221 | in every run and any changing fence set |
| Geofences.AlternatingExactly | src/modules/geofences/geofences.service.ts:165-220 | the record of the fences a device is inside keeps agreeing with its last alerts if and only if no fence vanishes while others are left; the alerts so far alternate even then |
| Geofences.RepeatsExactly | src/modules/geofences/geofences.service.ts:165-195 | a location repeats ENTER if and only if it enters a fence whose last alert is ENTER but which is not recorded |
| Geofences.ForgottenExactly | src/modules/geofences/geofences.service.ts:197-220 | that state comes about only by the fence vanishing, and ends only by entering it |
| Geofences.AlertsAlternateExactly | src/modules/geofences/geofences.service.ts:137-221 | over any run and changing fence set, exits follow enters, and ENTER is never repeated if and only if the device never comes back into a fence that vanished and that it has not entered since |
| Geofences.VanishedFenceEntersTwice | src/modules/geofences/geofences.service.ts:137-221 | the run of three locations whose alerts are ENTER, ENTER |
| Geofences.FixedFencesAlternate | src/modules/geofences/geofences.service.ts:137-221 | with a fixed fence set ENTER and EXIT strictly alternate |
| Stops.GetStops | src/modules/tracking/tracking.service.ts:138-194 | the loop returns the stops of the long enough runs of standing points |
| Stops.RunsExactly | src/modules/tracking/tracking.service.ts:147-176 | those runs are exactly the maximal ones, in order and disjoint |
| Stops.StopsExactly | src/modules/tracking/tracking.service.ts:160-192 | a stop is reported if and only if it is a maximal run that lasts at least the minimum |
| Stops.StopsReported | src/modules/tracking/tracking.service.ts:138-194 | in terms of the points: one stop for each longest stretch of points at most 1 km/h or without speed that lasts the minutes asked for, five by default, with its times and first place |
| Stops.StopsInOrder | src/modules/tracking/tracking.service.ts:149-194 | stops of a sorted track are in order and do not overlap |
| Reports.GetIdleTime | src/modules/reports/reports.service.ts:55-83 | the loop sums the idle time of the runs that reach the threshold |
| Reports.StopsIdleSpan | src/modules/reports/reports.service.ts:55-83 | with one threshold, total stop time is at most total idle time, and that at most the span of the track |
| Reports.IdleExactly | src/modules/reports/reports.service.ts:55-83 | without a threshold idle time is the time after each slow point until the next point |
| Reports.IdleOfRun | src/modules/reports/reports.service.ts:66-81 | with one, a stretch counts in full if and only if it is that long up to the point that ends it |
| Reports.GetEngineHours | src/modules/reports/reports.service.ts:130-154 | the loop sums the short gaps that begin with the engine on and counts OFF to ON changes |
| Reports.EngineOnBounded | src/modules/reports/reports.service.ts:144-151 | engine-on time is at most the span and at most ten minutes per gap begun with the engine on |
| Reports.EngineOnIsSpanExactly | src/modules/reports/reports.service.ts:144-151 | it is the whole span if and only if every gap in which time passes counts |
| Reports.EngineOnExactly | src/modules/reports/reports.service.ts:144-151 | it is the time after each point with the ignition on whose next point comes within 600000 ms |
| Reports.StartsAgainstStops | src/modules/reports/reports.service.ts:138-142 | the engine starts as often as it stops, but for how the track begins and ends |

## Left out

- Sockets, HTTP, MongoDB, push messages, dependency injection, controllers, input validation and logging: plumbing around the modelled code. Database calls are taken to succeed unless a step says that it throws.
- Floating point and the haversine formula: distances come from an arbitrary function, money, speeds and coordinates are exact reals. NaN and invalid dates do not occur.
- Awaits inside the trip and geofence handlers and inside one ledger operation: each of these runs as one step and does not crash midway. The geocoder, sessions, guard, coupons and the stale-engine job do interleave.
- Signing and verifying tokens, password hashing and token expiry: tokens are records minted by the model, and which stored record a refresh token matches is left open, except in the special cases `LatestSession.OrderlyRunsAreUnbroken` and `GuardedRefresh.OwnMatchesAreAlike`, which say what they assume.
- The refresh endpoint, which starts refreshes without the guard: `GuardedRefresh` covers refreshes that the guard starts.
- UTF-8: decoding and encoding are parameters, assumed exact on printable ASCII and white space only where a theorem says so; characters outside it are not counted in UTF-16 units.
- CRC mismatches: the short-frame parser only logs them, so they do not show in its result.
- Exceptions inside packet handlers: they end a delivery early and leave the buffer as it is; the model covers deliveries that do not throw.
- Parsing of location and alarm packets, HQ fields, vehicle status, token lifetimes and place names: branch by branch facts that a reading settles.
- Registration of the TCP server itself, its stop method and connection timeouts: they only open and close sockets.
- Local time: months are added in UTC, for dates from 1970 on.
- Coupon steps of the admin's create and renew in `CouponRace`: there the coupon is used only by subscribe calls, whose lost uses the exact condition is about; admin calls are whole ledger operations between their steps.
- Edits of a coupon's maxUsage, deletion and re-creation of coupons: they change the bound that is counted against.
- Queries over stored data, dashboards, notifications, content and address lists: filters that would add easy members.
- Daily distance and the overspeed report: a grouping and a maximum over stored rows.
